/** The words a scheme is written in and the codes they stand for
    (src/core/provision.rs:206-245, 529-557; src/core/ufs.rs:46-120). */
module Vocabulary {
  import opened Wrappers
  import opened Bytes
  import opened Text
  import opened Ufs
  import opened SchemeModel

  /** Case-folded comparison with a word, however the word is capitalised. */
  lemma Folded(s: string, upper: string, word: string)
    requires ToUpper(word) == upper
    ensures ToUpper(s) == upper <==> SpellsSame(s, word)
  {
    EqIgnoreCaseIs(s, word);
  }

  lemma ProvisioningWords(lu: SchemeLu)
    ensures lu.ProvisioningCode() == Some(0x00) <==> SpellsSame(lu.provisioning, "thick")
    ensures lu.ProvisioningCode() == Some(0x02) <==> SpellsSame(lu.provisioning, "thin")
    ensures lu.ProvisioningCode() == Some(0x03) <==> SpellsSame(lu.provisioning, "thin-read-zeros")
    ensures lu.ProvisioningCode().Some? ==> lu.ProvisioningCode().value in {0x00, 0x02, 0x03}
  {
    Folded(lu.provisioning, "THICK", "thick");
    Folded(lu.provisioning, "THIN", "thin");
    Folded(lu.provisioning, "THIN-READ-ZEROS", "thin-read-zeros");
    assert |"THICK"| == 5 && |"THIN"| == 4 && |"THIN-READ-ZEROS"| == 15;
  }

  lemma BootLuWords(lu: SchemeLu)
    ensures lu.BootLunCode() == Some(0x00) <==> lu.bootLun.None?
    ensures lu.BootLunCode() == Some(0x01) <==> lu.bootLun.Some? && SpellsSame(lu.bootLun.value, "a")
    ensures lu.BootLunCode() == Some(0x02) <==> lu.bootLun.Some? && SpellsSame(lu.bootLun.value, "b")
    ensures lu.BootLunCode().Some? ==> lu.BootLunCode().value <= 0x02
  {
    if lu.bootLun.Some? {
      Folded(lu.bootLun.value, "A", "a");
      Folded(lu.bootLun.value, "B", "b");
    }
    assert "A"[0] != "B"[0];
  }

  lemma ActiveWords(s: Scheme)
    ensures s.BootLunEn() == Some(0x01) <==> SpellsSame(s.activeBootLu, "a")
    ensures s.BootLunEn() == Some(0x02) <==> SpellsSame(s.activeBootLu, "b")
    ensures s.BootLunEn() == Some(0x00)
            <==> SpellsSame(s.activeBootLu, "none") || SpellsSame(s.activeBootLu, "off") || s.activeBootLu == ""
    ensures s.BootLunEn().Some? ==> s.BootLunEn().value <= 0x02
  {
    Folded(s.activeBootLu, "A", "a");
    Folded(s.activeBootLu, "B", "b");
    Folded(s.activeBootLu, "NONE", "none");
    Folded(s.activeBootLu, "OFF", "off");
    assert |ToUpper(s.activeBootLu)| == |s.activeBootLu|;
    assert "A"[0] != "B"[0] && |"NONE"| == 4 && |"OFF"| == 3;
  }

  /** A size word means the device's maximum exactly when it spells "max"; a buffer type
      asks for a dedicated buffer exactly when it spells "lu". */
  lemma BufferWords(s: Scheme)
    requires s.Valid()
    ensures SpecOf(s).wb == Max <==> s.wbSize.Keyword? && SpellsSame(s.wbSize.word, "max")
    ensures SpecOf(s).wb.Sized? <==> s.wbSize.Mib?
    ensures s.wbSize.Mib? ==> SpecOf(s).wb.mib == s.wbSize.mib
    ensures SpecOf(s).dedicated <==> SpellsSame(s.wbType, "lu")
  {
    if s.wbSize.Keyword? {
      EqIgnoreCaseIs(s.wbSize.word, "max");
    }
    EqIgnoreCaseIs(s.wbType, "lu");
    hide SchemeLu.Ok, Scheme.Valid, SpellsSame;
  }

  const TYPE_WORDS: seq<string> :=
    ["normal", "system code", "non-persistent", "enhanced1", "enhanced2", "enhanced3", "enhanced4"]

  lemma {:induction false} NameFrom(name: string, from: nat)
    requires from <= 7
    ensures FindName(name, from).Some? ==>
              from <= FindName(name, from).value < 7 && SpellsSame(name, TYPE_WORDS[FindName(name, from).value])
    ensures FindName(name, from).None? ==> forall k :: from <= k < 7 ==> !SpellsSame(name, TYPE_WORDS[k])
    decreases 7 - from
  {
    if from < 7 {
      assert MEMORY_TYPES[from].name == TYPE_WORDS[from];
      EqIgnoreCaseIs(TYPE_WORDS[from], name);
      NameFrom(name, from + 1);
    }
  }

  /** Each memory type has one word; the seven words are distinct whatever their case. */
  lemma MemoryTypeWords(name: string, code: u8)
    requires code < 7
    ensures MemoryTypeFromName(name) == Some(code) <==> SpellsSame(name, TYPE_WORDS[code])
    ensures MemoryTypeFromName(name).None? ==> forall k :: 0 <= k < 7 ==> !SpellsSame(name, TYPE_WORDS[k])
  {
    NameFrom(name, 0);
    var i := FindName(name, 0);
    if i.Some? {
      assert MEMORY_TYPES[i.value].code == i.value;
      if SpellsSame(name, TYPE_WORDS[code]) {
        WordsApart(name, i.value, code);
      }
    }
  }

  lemma WordsApart(name: string, a: nat, b: nat)
    requires a < 7 && b < 7 && SpellsSame(name, TYPE_WORDS[a]) && SpellsSame(name, TYPE_WORDS[b])
    ensures a == b
  {
    var x, y := TYPE_WORDS[a], TYPE_WORDS[b];
    assert |x| == |y| && forall k :: 0 <= k < |x| ==> SameLetter(name[k], x[k]) && SameLetter(name[k], y[k]);
    assert |"normal"| == 6 && |"system code"| == 11 && |"non-persistent"| == 14 && |"enhanced1"| == 9;
    if a >= 3 && b >= 3 {
      assert "enhanced1"[8] == '1' && "enhanced2"[8] == '2' && "enhanced3"[8] == '3' && "enhanced4"[8] == '4';
      assert name[8] == x[8] && name[8] == y[8];
    }
  }

  /** Bit n of the supported memory types stands for type n. */
  lemma SupportedBits(geo: GeometryDescriptor, code: u8)
    ensures geo.SupportsMemoryType(code)
            <==> code < 7 && geo.supportedMemoryTypes / Pow2(code) % 2 == 1
  {
    MemoryTypeIndexIsCode(code);
    assert Pow2(0) == 1 && Pow2(1) == 2 && Pow2(2) == 4 && Pow2(3) == 8;
    assert Pow2(4) == 16 && Pow2(5) == 32 && Pow2(6) == 64;
  }
}
