/** The provisioning scheme and its validation (src/core/provision.rs:34-275). */
module SchemeModel {
  import opened Wrappers
  import opened Bytes
  import opened Text
  import opened Ufs

  datatype WbSize = Mib(mib: nat) | Keyword(word: string)

  /** One logical unit of the scheme. `sizeMib` is absent on the LU taking the rest. */
  datatype SchemeLu = SchemeLu(
    id: u8,
    memoryType: string,
    sizeMib: Option<nat>,
    bootLun: Option<string>,
    dataReliability: bool,
    provisioning: string,
    blockSize: u32)
  {
    function MemoryTypeCode(): Option<u8> {
      MemoryTypeFromName(memoryType)
    }

    function ProvisioningCode(): Option<u8> {
      var s := ToUpper(provisioning);
      if s == "THICK" then Some(0x00)
      else if s == "THIN" then Some(0x02)
      else if s == "THIN-READ-ZEROS" then Some(0x03)
      else None
    }

    function BootLunCode(): Option<u8> {
      match bootLun
      case None => Some(BOOT_NONE)
      case Some(s) =>
        if ToUpper(s) == "A" then Some(BOOT_A)
        else if ToUpper(s) == "B" then Some(BOOT_B)
        else None
    }

    function BlockExponent(): Option<u8> {
      ExponentOf(blockSize)
    }

    predicate Ok() {
      && id < LUS
      && MemoryTypeCode().Some?
      && ProvisioningCode().Some?
      && BootLunCode().Some?
      && BlockExponent().Some?
    }
  }

  datatype Scheme = Scheme(
    bootEnable: bool,
    activeBootLu: string,
    wbSize: WbSize,
    wbType: string,
    lus: seq<SchemeLu>)
  {
    function BootLunEn(): Option<u8> {
      var s := ToUpper(activeBootLu);
      if s == "A" then Some(BOOT_A)
      else if s == "B" then Some(BOOT_B)
      else if s == "NONE" || s == "OFF" || s == "" then Some(BOOT_NONE)
      else None
    }

    predicate Flags(id: u8) {
      exists i :: 0 <= i < |lus| && lus[i].BootLunCode() == Some(id)
    }

    /** What the rest of the installer relies on. */
    ghost predicate Valid() {
      && lus != []
      && (forall i :: 0 <= i < |lus| ==> lus[i].Ok())
      && DistinctIds(lus)
      && OneUnsized(lus)
      && BootLunEn().Some?
      && (BootLunEn() != Some(BOOT_NONE) ==> Flags(BootLunEn().value))
    }
  }

  ghost predicate OneUnsized(lus: seq<SchemeLu>) {
    exists k :: 0 <= k < |lus| && lus[k].sizeMib.None? && SizedExcept(lus, k)
  }

  ghost predicate SizedExcept(lus: seq<SchemeLu>, k: nat) {
    forall j :: 0 <= j < |lus| && j != k ==> lus[j].sizeMib.Some?
  }

  ghost predicate DistinctIds(lus: seq<SchemeLu>) {
    forall i, j :: 0 <= i < j < |lus| ==> lus[i].id != lus[j].id
  }

  // --- the decoded scheme -----------------------------------------------------

  /** A scheme LU with its names turned into descriptor codes. */
  datatype LuSpec = LuSpec(
    id: u8,
    memoryType: u8,
    sizeMib: Option<nat>,
    bootId: u8,
    reliable: bool,
    provisioning: u8,
    exponent: u8)

  datatype WbWant = Max | Sized(mib: nat) | UnknownKeyword

  datatype Spec = Spec(bootEnable: bool, active: u8, wb: WbWant, dedicated: bool, lus: seq<LuSpec>) {

    predicate Flags(id: u8) {
      exists i :: 0 <= i < |lus| && lus[i].bootId == id
    }

    predicate Claims(id: nat) {
      exists i :: 0 <= i < |lus| && lus[i].id == id
    }

    ghost predicate Valid() {
      && (forall i :: 0 <= i < |lus| ==> lus[i].id < LUS && lus[i].memoryType < 7 && lus[i].bootId <= BOOT_B)
      && (forall i :: 0 <= i < |lus| ==> lus[i].exponent < 32)
      && (forall i, j :: 0 <= i < j < |lus| ==> lus[i].id != lus[j].id)
      && OneRemainder(lus)
      && active <= BOOT_B
      && (active != BOOT_NONE ==> Flags(active))
    }
  }

  ghost predicate OneRemainder(lus: seq<LuSpec>) {
    exists k :: 0 <= k < |lus| && lus[k].sizeMib.None? && OthersSized(lus, k)
  }

  ghost predicate OthersSized(lus: seq<LuSpec>, k: nat) {
    forall j :: 0 <= j < |lus| && j != k ==> lus[j].sizeMib.Some?
  }

  function LuSpecOf(lu: SchemeLu): LuSpec
    requires lu.Ok()
  {
    LuSpec(lu.id, lu.MemoryTypeCode().value, lu.sizeMib, lu.BootLunCode().value, lu.dataReliability,
           lu.ProvisioningCode().value, lu.BlockExponent().value)
  }

  function SpecOf(s: Scheme): Spec
    requires s.Valid()
  {
    Spec(
      s.bootEnable,
      s.BootLunEn().value,
      match s.wbSize
      case Mib(mib) => Sized(mib)
      case Keyword(k) => if EqIgnoreCase(k, "max") then Max else UnknownKeyword,
      EqIgnoreCase(s.wbType, "lu"),
      seq(|s.lus|, i requires 0 <= i < |s.lus| => LuSpecOf(s.lus[i])))
  }

  lemma LuSpecInRange(lu: SchemeLu)
    requires lu.Ok()
    ensures LuSpecOf(lu).memoryType < 7 && LuSpecOf(lu).bootId <= BOOT_B && LuSpecOf(lu).exponent < 32
  {
    MemoryTypeFromNameKnown(lu.memoryType);
    BlockExponentExact(lu.blockSize, lu.BlockExponent().value);
  }

  /** A validated scheme decodes to codes the planner can rely on. */
  lemma SpecOfValid(s: Scheme)
    requires s.Valid()
    ensures SpecOf(s).Valid()
  {
    hide SchemeLu.MemoryTypeCode, SchemeLu.ProvisioningCode, SchemeLu.BlockExponent;
    var spec := SpecOf(s);
    forall i | 0 <= i < |s.lus|
      ensures spec.lus[i] == LuSpecOf(s.lus[i]) && spec.lus[i].id < LUS && spec.lus[i].memoryType < 7
              && spec.lus[i].bootId <= BOOT_B && spec.lus[i].exponent < 32
    {
      LuSpecInRange(s.lus[i]);
    }
    var k :| 0 <= k < |s.lus| && s.lus[k].sizeMib.None? && SizedExcept(s.lus, k);
    assert OthersSized(spec.lus, k);
    if spec.active != BOOT_NONE {
      var i :| 0 <= i < |s.lus| && s.lus[i].BootLunCode() == Some(spec.active);
      assert spec.lus[i].bootId == spec.active;
    }
  }

  // --- block size exponents -------------------------------------------------

  function Pow2(e: nat): (r: nat)
    ensures r > 0
  {
    if e == 0 then 1 else 2 * Pow2(e - 1)
  }

  function CountOnes(n: nat): nat {
    if n == 0 then 0 else n % 2 + CountOnes(n / 2)
  }

  function TrailingZeros(n: nat): nat
    requires n > 0
  {
    if n % 2 == 1 then 0 else 1 + TrailingZeros(n / 2)
  }

  function ExponentOf(size: u32): Option<u8> {
    if CountOnes(size) != 1 || size < 4096 then None
    else
      TrailingZerosOfPower(size);
      PowBelow(TrailingZeros(size));
      Some(TrailingZeros(size))
  }

  lemma {:induction false} CountOnesPositive(n: nat)
    requires n > 0
    ensures CountOnes(n) > 0
  {
    if n % 2 == 0 {
      CountOnesPositive(n / 2);
    }
  }

  lemma {:induction false} TrailingZerosOfPower(n: nat)
    requires CountOnes(n) == 1
    ensures n > 0 && n == Pow2(TrailingZeros(n))
  {
    if n % 2 == 1 {
      if n / 2 > 0 {
        CountOnesPositive(n / 2);
      }
    } else {
      TrailingZerosOfPower(n / 2);
    }
  }

  lemma {:induction false} PowerHasOneBit(e: nat)
    ensures CountOnes(Pow2(e)) == 1 && TrailingZeros(Pow2(e)) == e
  {
    if e > 0 {
      PowerHasOneBit(e - 1);
      assert Pow2(e) / 2 == Pow2(e - 1);
    }
  }

  lemma {:induction false} PowMonotone(a: nat, b: nat)
    ensures a <= b ==> Pow2(a) <= Pow2(b)
  {
    if a < b {
      PowMonotone(a, b - 1);
    }
  }

  lemma Pow32()
    ensures Pow2(12) == 4096 && Pow2(32) == 0x1_0000_0000
  {
    assert Pow2(8) == 256;
    assert Pow2(12) == 4096;
    assert Pow2(20) == 0x10_0000;
    assert Pow2(28) == 0x1000_0000;
  }

  lemma PowBelow(e: nat)
    requires Pow2(e) < 0x1_0000_0000
    ensures e < 32
  {
    Pow32();
    PowMonotone(32, e);
  }

  /** `bLogicalBlockSize` is exactly the base-2 logarithm, from 4 KiB up. */
  lemma BlockExponentExact(size: u32, e: u8)
    ensures ExponentOf(size) == Some(e) <==> 12 <= e < 32 && size == Pow2(e)
  {
    Pow32();
    PowMonotone(12, e);
    PowMonotone(e + 1, 12);
    if ExponentOf(size) == Some(e) {
      TrailingZerosOfPower(size);
      PowBelow(e);
    }
    PowerHasOneBit(e);
  }

  // --- validation ------------------------------------------------------------

  datatype SchemeError =
    | NoLus
    | OutOfRange(lu: nat)
    | Duplicate(lu: nat)
    | BadLu(lu: nat)
    | UnsizedCount(found: nat)
    | UnknownActive
    | ActiveNotFlagged

  /** An error names a defect the scheme really has; positions index `lus`. */
  ghost predicate Explains(s: Scheme, e: SchemeError) {
    match e
    case NoLus => s.lus == []
    case OutOfRange(k) => k < |s.lus| && s.lus[k].id >= LUS
    case Duplicate(k) => k < |s.lus| && exists i :: 0 <= i < k && s.lus[i].id == s.lus[k].id
    case BadLu(k) => k < |s.lus| && s.lus[k].id < LUS && !s.lus[k].Ok()
    case UnsizedCount(n) => n != 1 && n == Unsized(s.lus)
    case UnknownActive => s.BootLunEn().None?
    case ActiveNotFlagged =>
      s.BootLunEn().Some? && s.BootLunEn().value != BOOT_NONE && !s.Flags(s.BootLunEn().value)
  }

  function Unsized(lus: seq<SchemeLu>): nat {
    if lus == [] then 0
    else Unsized(lus[..|lus| - 1]) + (if lus[|lus| - 1].sizeMib.None? then 1 else 0)
  }

  lemma {:induction false} NoneUnsized(lus: seq<SchemeLu>)
    ensures Unsized(lus) == 0 <==> forall j :: 0 <= j < |lus| ==> lus[j].sizeMib.Some?
  {
    if lus != [] {
      NoneUnsized(lus[..|lus| - 1]);
    }
  }

  lemma {:induction false} OneUnsizedInit(lus: seq<SchemeLu>)
    requires lus != []
    ensures var n := |lus| - 1;
            OneUnsized(lus) <==>
            if lus[n].sizeMib.None? then Unsized(lus[..n]) == 0 else OneUnsized(lus[..n])
  {
    var n := |lus| - 1;
    NoneUnsized(lus[..n]);
    if OneUnsized(lus) {
      var k :| 0 <= k <= n && lus[k].sizeMib.None? && SizedExcept(lus, k);
      if k < n {
        assert lus[..n][k].sizeMib.None? && SizedExcept(lus[..n], k);
      }
    }
    if lus[n].sizeMib.None? && Unsized(lus[..n]) == 0 {
      assert forall j :: 0 <= j < n ==> lus[..n][j] == lus[j];
      assert SizedExcept(lus, n);
    }
    if lus[n].sizeMib.Some? && OneUnsized(lus[..n]) {
      var k :| 0 <= k < n && lus[..n][k].sizeMib.None? && SizedExcept(lus[..n], k);
      assert forall j :: 0 <= j < n ==> lus[..n][j] == lus[j];
      assert lus[k].sizeMib.None? && SizedExcept(lus, k);
    }
  }

  /** Counting to one finds exactly one LU without a size. */
  lemma {:induction false} UnsizedIsOne(lus: seq<SchemeLu>)
    ensures Unsized(lus) == 1 <==> OneUnsized(lus)
  {
    if lus != [] {
      UnsizedIsOne(lus[..|lus| - 1]);
      OneUnsizedInit(lus);
    }
  }

  /** The first loop: every LU is in range, listed once and well formed. */
  method ValidateLus(s: Scheme) returns (r: Result<(), SchemeError>)
    ensures r.Success? <==> (forall i :: 0 <= i < |s.lus| ==> s.lus[i].Ok()) && DistinctIds(s.lus)
    ensures r.Failure? ==> Explains(s, r.error)
  {
    var seen: seq<u8> := [];
    for i := 0 to |s.lus|
      invariant |seen| == i && forall k :: 0 <= k < i ==> seen[k] == s.lus[k].id
      invariant forall k :: 0 <= k < i ==> s.lus[k].Ok()
      invariant forall j, k :: 0 <= j < k < i ==> s.lus[j].id != s.lus[k].id
    {
      var lu := s.lus[i];
      if lu.id >= LUS {
        return Failure(OutOfRange(i));
      }
      if lu.id in seen {
        return Failure(Duplicate(i));
      }
      seen := seen + [lu.id];
      if lu.MemoryTypeCode().None? || lu.ProvisioningCode().None? || lu.BootLunCode().None?
         || lu.BlockExponent().None? {
        return Failure(BadLu(i));
      }
    }
    return Success(());
  }

  method CountUnsized(lus: seq<SchemeLu>) returns (unsized: nat)
    ensures unsized == Unsized(lus)
  {
    unsized := 0;
    for i := 0 to |lus|
      invariant unsized == Unsized(lus[..i])
    {
      assert lus[..i + 1][..i] == lus[..i];
      if lus[i].sizeMib.None? {
        unsized := unsized + 1;
      }
    }
    assert lus[..|lus|] == lus;
  }

  /** `Scheme::validate`: succeeds on exactly the valid schemes, and otherwise names
      a defect the scheme has. */
  method Validate(s: Scheme) returns (r: Result<(), SchemeError>)
    ensures r.Success? <==> s.Valid()
    ensures r.Failure? ==> Explains(s, r.error)
  {
    if s.lus == [] {
      return Failure(NoLus);
    }
    var listed := ValidateLus(s);
    if listed.Failure? {
      return listed;
    }
    var unsized := CountUnsized(s.lus);
    UnsizedIsOne(s.lus);
    if unsized != 1 {
      return Failure(UnsizedCount(unsized));
    }
    var want := s.BootLunEn();
    if want.None? {
      return Failure(UnknownActive);
    }
    if want.value != BOOT_NONE && !s.Flags(want.value) {
      return Failure(ActiveNotFlagged);
    }
    return Success(());
  }
}
