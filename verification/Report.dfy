/** What a comparison reports, field by field (src/core/provision.rs:853-1049): every
    entry names a field that differs, and every field that differs has its entry. */
module Report {
  import opened Bytes
  import opened Ufs
  import opened SchemeModel
  import opened Planning
  import opened Comparison

  ghost predicate Names(ms: seq<Mismatch>, what: Field) {
    exists i :: 0 <= i < |ms| && ms[i].what == what
  }

  /** The differences that change what the device is. */
  predicate IsCritical(what: Field) {
    || what.BootFeature? || what.ActiveBootLu? || what.LusAbove7? || what.LuExists?
    || what.LuMemoryType? || what.LuBootFlag? || what.LuSize? || what.LuBlockSize?
  }

  /** An entry is critical as its field is, and only the active boot LU, an attribute, can
      be put right without writing a descriptor. */
  ghost predicate Graded(ms: seq<Mismatch>) {
    forall i :: 0 <= i < |ms| ==> ms[i] == Mismatch(ms[i].what, IsCritical(ms[i].what), ms[i].what != ActiveBootLu)
  }

  // --- when a field differs, in bytes and codes --------------------------------------

  predicate IsSide(bootId: u8) {
    bootId == 0x01 || bootId == 0x02
  }

  /** The parts of an LU that exists on both sides. Types compare by their name, and all
      codes from 7 on have the same one; boot ids other than A and B count as none; a
      block size is a power of two whose exponent is taken modulo 32. */
  predicate PartDiffers(w: LuConfig, c: LuConfig, lu: nat, what: Field) {
    match what
    case LuMemoryType(n) => n == lu && w.memoryType != c.memoryType && (w.memoryType < 7 || c.memoryType < 7)
    case LuBootFlag(n) => n == lu && w.bootLunId != c.bootLunId && (IsSide(w.bootLunId) || IsSide(c.bootLunId))
    case LuSize(n) => n == lu && w.units != c.units
    case LuBlockSize(n) => n == lu && w.blockSize % 32 != c.blockSize % 32
    case LuWriteProtect(n) => n == lu && w.writeProtect != c.writeProtect
    case LuReliability(n) => n == lu && w.dataReliability != c.dataReliability
    case LuProvisioning(n) => n == lu && w.provisioning != c.provisioning
    case LuWbUnits(n) => n == lu && w.wbUnits != c.wbUnits
    case _ => false
  }

  predicate LuDiffers(w: LuConfig, c: LuConfig, lu: nat, what: Field) {
    if w.enable != c.enable then what == LuExists(lu) else w.enable != 0 && PartDiffers(w, c, lu, what)
  }

  predicate HeaderDiffers(want: seq<u8>, have: seq<u8>, what: Field) {
    match what
    case WbPreserving => U8At(want, 0x10) != U8At(have, 0x10)
    case WbType => U8At(want, 0x11) != U8At(have, 0x11)
    case WbSharedSize => U32At(want, 0x12) != U32At(have, 0x12)
    case DescriptorAccess => U8At(want, 0x04) != U8At(have, 0x04)
    case PowerMode => U8At(want, 0x05) != U8At(have, 0x05)
    case HighPriority => U8At(want, 0x06) != U8At(have, 0x06)
    case SecureRemoval => U8At(want, 0x07) != U8At(have, 0x07)
    case IccLevel => U8At(want, 0x08) != U8At(have, 0x08)
    case RtcUpdate => U16At(want, 0x09) != U16At(have, 0x09)
    case _ => false
  }

  ghost predicate FlagsAny(d: Desc) {
    exists j :: 0 <= j < LUS && d.Lu(j).enable != 0 && d.Lu(j).bootLunId != 0
  }

  ghost predicate FlagsSide(d: Desc, id: u8) {
    exists j :: 0 <= j < LUS && d.Lu(j).enable != 0 && d.Lu(j).bootLunId != 0 && d.Lu(j).bootLunId == id
  }

  ghost predicate Differs(plan: Plan, current: Desc, bootLunEn: u8, extra: seq<nat>, what: Field) {
    match what
    case BootFeature => U8At(plan.descriptor.bytes, 0x03) != U8At(current.bytes, 0x03)
    case ActiveBootLu =>
      if FlagsAny(plan.descriptor) then !FlagsSide(plan.descriptor, bootLunEn) else bootLunEn != plan.bootLunEn
    case LusAbove7(index) => index in extra
    case _ =>
      || HeaderDiffers(plan.descriptor.bytes, current.bytes, what)
      || exists lu :: 0 <= lu < LUS && LuDiffers(plan.descriptor.Lu(lu), current.Lu(lu), lu, what)
  }

  // --- one entry at a time --------------------------------------------------------------

  lemma Appended(out: seq<Mismatch>, m: Mismatch, what: Field)
    ensures Names(out + [m], what) <==> Names(out, what) || m.what == what
    ensures Graded(out) && m == Mismatch(m.what, IsCritical(m.what), m.what != ActiveBootLu) ==> Graded(out + [m])
  {
    var r := out + [m];
    assert r[|out|] == m && forall i :: 0 <= i < |out| ==> r[i] == out[i];
    if Names(out, what) {
      var i :| 0 <= i < |out| && out[i].what == what;
      assert r[i].what == what;
    }
  }

  lemma Diffed(out: seq<Mismatch>, critical: bool, differs: bool, field: Field, what: Field)
    ensures Names(Diff(out, critical, differs, field), what) <==> Names(out, what) || (differs && field == what)
    ensures Graded(out) && critical == IsCritical(field) && field != ActiveBootLu ==> Graded(Diff(out, critical, differs, field))
  {
    Appended(out, Mismatch(field, critical, true), what);
    hide Names, Graded;
  }

  lemma {:induction false} PowersDiffer(a: nat, b: nat)
    ensures Pow2(a) == Pow2(b) ==> a == b
  {
    if a > 0 && b > 0 {
      PowersDiffer(a - 1, b - 1);
    }
  }

  lemma CodesDiffer(w: LuConfig, c: LuConfig)
    ensures MemoryTypeName(w.memoryType) != MemoryTypeName(c.memoryType)
            <==> w.memoryType != c.memoryType && (w.memoryType < 7 || c.memoryType < 7)
    ensures BootRole(w.bootLunId) != BootRole(c.bootLunId)
            <==> w.bootLunId != c.bootLunId && (IsSide(w.bootLunId) || IsSide(c.bootLunId))
    ensures BlockBytes(w.blockSize) != BlockBytes(c.blockSize) <==> w.blockSize % 32 != c.blockSize % 32
  {
    PowersDiffer(w.blockSize % 32, c.blockSize % 32);
    MemoryTypeIndexIsCode(w.memoryType);
    MemoryTypeIndexIsCode(c.memoryType);
    if w.memoryType < 7 {
      MemoryTypeNameInjective(w.memoryType, c.memoryType);
    } else if c.memoryType < 7 {
      MemoryTypeNameInjective(c.memoryType, w.memoryType);
    }
  }

  lemma LuCriticalReported(out: seq<Mismatch>, w: LuConfig, c: LuConfig, lu: nat, what: Field)
    ensures Names(LuCritical(out, w, c, lu), what)
            <==> Names(out, what) || (IsCritical(what) && PartDiffers(w, c, lu, what))
    ensures Graded(out) ==> Graded(LuCritical(out, w, c, lu))
  {
    CodesDiffer(w, c);
    hide Names, Graded, Diff, MemoryTypeName, BootRole, BlockBytes, IsSide;
    var r1 := Diff(out, true, MemoryTypeName(w.memoryType) != MemoryTypeName(c.memoryType), LuMemoryType(lu));
    var r2 := Diff(r1, true, BootRole(w.bootLunId) != BootRole(c.bootLunId), LuBootFlag(lu));
    var r3 := Diff(r2, true, w.units != c.units, LuSize(lu));
    Diffed(out, true, MemoryTypeName(w.memoryType) != MemoryTypeName(c.memoryType), LuMemoryType(lu), what);
    Diffed(r1, true, BootRole(w.bootLunId) != BootRole(c.bootLunId), LuBootFlag(lu), what);
    Diffed(r2, true, w.units != c.units, LuSize(lu), what);
    Diffed(r3, true, BlockBytes(w.blockSize) != BlockBytes(c.blockSize), LuBlockSize(lu), what);
  }

  lemma LuNotesReported(out: seq<Mismatch>, w: LuConfig, c: LuConfig, lu: nat, what: Field)
    ensures Names(LuNotes(out, w, c, lu), what)
            <==> Names(out, what) || (!IsCritical(what) && PartDiffers(w, c, lu, what))
    ensures Graded(out) ==> Graded(LuNotes(out, w, c, lu))
  {
    hide Names, Graded, Diff, IsSide;
    var r1 := Diff(out, false, w.writeProtect != c.writeProtect, LuWriteProtect(lu));
    var r2 := Diff(r1, false, w.dataReliability != c.dataReliability, LuReliability(lu));
    var r3 := Diff(r2, false, w.provisioning != c.provisioning, LuProvisioning(lu));
    Diffed(out, false, w.writeProtect != c.writeProtect, LuWriteProtect(lu), what);
    Diffed(r1, false, w.dataReliability != c.dataReliability, LuReliability(lu), what);
    Diffed(r2, false, w.provisioning != c.provisioning, LuProvisioning(lu), what);
    Diffed(r3, false, w.wbUnits != c.wbUnits, LuWbUnits(lu), what);
  }

  lemma LuReported(out: seq<Mismatch>, w: LuConfig, c: LuConfig, lu: nat, what: Field)
    ensures Names(LuDiffs(out, w, c, lu), what) <==> Names(out, what) || LuDiffers(w, c, lu, what)
    ensures Graded(out) ==> Graded(LuDiffs(out, w, c, lu))
  {
    Appended(out, Mismatch(LuExists(lu), true, true), what);
    LuCriticalReported(out, w, c, lu, what);
    LuNotesReported(LuCritical(out, w, c, lu), w, c, lu, what);
    hide Names, Graded, LuCritical, LuNotes, PartDiffers;
  }

  lemma {:induction false} LusReported(out: seq<Mismatch>, want: Desc, current: Desc, n: nat, what: Field)
    requires n <= LUS
    ensures Names(LusDiffs(out, want, current, n), what)
            <==> Names(out, what) || exists lu :: 0 <= lu < n && LuDiffers(want.Lu(lu), current.Lu(lu), lu, what)
    ensures Graded(out) ==> Graded(LusDiffs(out, want, current, n))
  {
    hide Names, Graded, LuDiffs, LuDiffers, Desc.Lu;
    if n > 0 {
      LusReported(out, want, current, n - 1, what);
      LuReported(LusDiffs(out, want, current, n - 1), want.Lu(n - 1), current.Lu(n - 1), n - 1, what);
    }
  }

  lemma HeaderReported(out: seq<Mismatch>, want: Desc, current: Desc, what: Field)
    ensures Names(HeaderNotes(out, want, current), what)
            <==> Names(out, what) || HeaderDiffers(want.bytes, current.bytes, what)
    ensures Graded(out) ==> Graded(HeaderNotes(out, want, current))
  {
    hide Names, Graded, Diff, U8At, U16At, U32At;
    var r1 := Diff(out, false, want.WbBufferType() != current.WbBufferType(), WbType);
    var r2 := Diff(r1, false, want.WbSharedUnits() != current.WbSharedUnits(), WbSharedSize);
    var r3 := Diff(r2, false, want.WbPreserve() != current.WbPreserve(), WbPreserving);
    var r4 := Diff(r3, false, want.DescrAccessEn() != current.DescrAccessEn(), DescriptorAccess);
    var r5 := Diff(r4, false, want.InitPowerMode() != current.InitPowerMode(), PowerMode);
    var r6 := Diff(r5, false, want.HighPriorityLun() != current.HighPriorityLun(), HighPriority);
    var r7 := Diff(r6, false, want.SecureRemovalType() != current.SecureRemovalType(), SecureRemoval);
    var r8 := Diff(r7, false, want.InitActiveIccLevel() != current.InitActiveIccLevel(), IccLevel);
    Diffed(out, false, want.WbBufferType() != current.WbBufferType(), WbType, what);
    Diffed(r1, false, want.WbSharedUnits() != current.WbSharedUnits(), WbSharedSize, what);
    Diffed(r2, false, want.WbPreserve() != current.WbPreserve(), WbPreserving, what);
    Diffed(r3, false, want.DescrAccessEn() != current.DescrAccessEn(), DescriptorAccess, what);
    Diffed(r4, false, want.InitPowerMode() != current.InitPowerMode(), PowerMode, what);
    Diffed(r5, false, want.HighPriorityLun() != current.HighPriorityLun(), HighPriority, what);
    Diffed(r6, false, want.SecureRemovalType() != current.SecureRemovalType(), SecureRemoval, what);
    Diffed(r7, false, want.InitActiveIccLevel() != current.InitActiveIccLevel(), IccLevel, what);
    Diffed(r8, false, want.PeriodicRtcUpdate() != current.PeriodicRtcUpdate(), RtcUpdate, what);
  }

  lemma {:induction false} ExtraReported(out: seq<Mismatch>, extra: seq<nat>, n: nat, what: Field)
    requires n <= |extra|
    ensures Names(ExtraDiffs(out, extra, n), what)
            <==> Names(out, what) || (what.LusAbove7? && what.index in extra[..n])
    ensures Graded(out) ==> Graded(ExtraDiffs(out, extra, n))
  {
    hide Names, Graded;
    if n > 0 {
      ExtraReported(out, extra, n - 1, what);
      Appended(ExtraDiffs(out, extra, n - 1), Mismatch(LusAbove7(extra[n - 1]), true, true), what);
      assert extra[..n] == extra[..n - 1] + [extra[n - 1]];
    }
  }

  lemma AcceptableIs(plan: Plan, id: u8)
    ensures id in Acceptable(plan)
            <==> if FlagsAny(plan.descriptor) then FlagsSide(plan.descriptor, id) else id == plan.bootLunEn
  {
    var d := plan.descriptor;
    BootableIs(d, LUS, id);
    hide Desc.Lu;
    if FlagsAny(d) {
      var j :| 0 <= j < LUS && d.Lu(j).enable != 0 && d.Lu(j).bootLunId != 0;
      BootableIs(d, LUS, d.Lu(j).bootLunId);
      assert d.Lu(j).bootLunId in Bootable(d, LUS);
    } else if Bootable(d, LUS) != [] {
      BootableIs(d, LUS, Bootable(d, LUS)[0]);
    }
  }

  /** The entries before those of the LUs. */
  lemma HeadReported(plan: Plan, current: Desc, bootLunEn: u8, extra: seq<nat>, what: Field) returns (head: seq<Mismatch>)
    ensures head == ExtraDiffs(BootDiffs(Diff([], true, plan.descriptor.BootEnable() != current.BootEnable(), BootFeature),
                                         plan, bootLunEn), extra, |extra|)
    ensures Graded(head)
    ensures Names(head, what)
            <==> || (what == BootFeature && U8At(plan.descriptor.bytes, 0x03) != U8At(current.bytes, 0x03))
                 || (what == ActiveBootLu && bootLunEn !in Acceptable(plan))
                 || (what.LusAbove7? && what.index in extra)
  {
    assert Graded([]) && !Names([], what);
    hide Names, Graded, Diff, Acceptable, U8At;
    var boot := Diff([], true, plan.descriptor.BootEnable() != current.BootEnable(), BootFeature);
    Diffed([], true, plan.descriptor.BootEnable() != current.BootEnable(), BootFeature, what);
    Appended(boot, Mismatch(ActiveBootLu, true, false), what);
    var active := BootDiffs(boot, plan, bootLunEn);
    ExtraReported(active, extra, |extra|, what);
    assert extra[..|extra|] == extra;
    head := ExtraDiffs(active, extra, |extra|);
    hide ExtraDiffs;
  }

  /** The header and the LUs report nothing under the names of the rest. */
  lemma OthersOnlyThere(want: Desc, current: Desc, what: Field)
    ensures what.BootFeature? || what.ActiveBootLu? || what.LusAbove7? ==>
              !HeaderDiffers(want.bytes, current.bytes, what)
              && forall lu :: 0 <= lu < LUS ==> !LuDiffers(want.Lu(lu), current.Lu(lu), lu, what)
  {
    hide Desc.Lu, U8At, U16At, U32At;
  }

  /** An entry appears for a field exactly when the field differs, and is graded by what
      the field is. */
  lemma ReportedExactly(plan: Plan, current: Desc, bootLunEn: u8, extra: seq<nat>, what: Field)
    ensures var report := CompareOf(plan, current, bootLunEn, extra);
            && (Names(report, what) <==> Differs(plan, current, bootLunEn, extra, what))
            && Graded(report)
  {
    var want := plan.descriptor;
    AcceptableIs(plan, bootLunEn);
    hide Names, Graded, Diff, BootDiffs, LusDiffs, HeaderNotes, ExtraDiffs, Acceptable;
    hide U8At, U16At, U32At, Desc.Lu, LuDiffers, HeaderDiffers, FlagsAny, FlagsSide;
    var head := HeadReported(plan, current, bootLunEn, extra, what);
    LusReported(head, want, current, LUS, what);
    HeaderReported(LusDiffs(head, want, current, LUS), want, current, what);
    OthersOnlyThere(want, current, what);
  }
}
