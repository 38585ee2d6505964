/** Deciding whether a device already is the scheme (src/core/provision.rs:609-668,
    836-1049). */
module Comparison {
  import opened Bytes
  import opened Ufs
  import opened SchemeModel
  import opened Planning
  import opened PlanFacts

  datatype Field =
    | BootFeature
    | ActiveBootLu
    | LusAbove7(index: nat)
    | LuExists(lu: nat)
    | LuMemoryType(lu: nat)
    | LuBootFlag(lu: nat)
    | LuSize(lu: nat)
    | LuBlockSize(lu: nat)
    | LuWriteProtect(lu: nat)
    | LuReliability(lu: nat)
    | LuProvisioning(lu: nat)
    | LuWbUnits(lu: nat)
    | WbType
    | WbSharedSize
    | WbPreserving
    | DescriptorAccess
    | PowerMode
    | HighPriority
    | SecureRemoval
    | IccLevel
    | RtcUpdate

  datatype Mismatch = Mismatch(what: Field, critical: bool, descriptorWrite: bool)

  // --- what compare reports ----------------------------------------------------

  /** `diff`: one more entry when the values differ. */
  function Diff(out: seq<Mismatch>, critical: bool, differs: bool, what: Field): seq<Mismatch> {
    if differs then out + [Mismatch(what, critical, true)] else out
  }

  /** The three names `compare` tells boot flags apart by. */
  function BootRole(code: u8): u8 {
    if code == BOOT_A || code == BOOT_B then code else BOOT_NONE
  }

  /** `1u32 << exponent`: the shift amount is taken modulo the width. */
  function BlockBytes(exponent: u8): nat {
    Pow2(exponent % 32)
  }

  function LuCritical(out: seq<Mismatch>, w: LuConfig, c: LuConfig, lu: nat): seq<Mismatch> {
    var r := Diff(out, true, MemoryTypeName(w.memoryType) != MemoryTypeName(c.memoryType), LuMemoryType(lu));
    var r := Diff(r, true, BootRole(w.bootLunId) != BootRole(c.bootLunId), LuBootFlag(lu));
    var r := Diff(r, true, w.units != c.units, LuSize(lu));
    Diff(r, true, BlockBytes(w.blockSize) != BlockBytes(c.blockSize), LuBlockSize(lu))
  }

  function LuNotes(out: seq<Mismatch>, w: LuConfig, c: LuConfig, lu: nat): seq<Mismatch> {
    var r := Diff(out, false, w.writeProtect != c.writeProtect, LuWriteProtect(lu));
    var r := Diff(r, false, w.dataReliability != c.dataReliability, LuReliability(lu));
    var r := Diff(r, false, w.provisioning != c.provisioning, LuProvisioning(lu));
    Diff(r, false, w.wbUnits != c.wbUnits, LuWbUnits(lu))
  }

  function LuDiffs(out: seq<Mismatch>, w: LuConfig, c: LuConfig, lu: nat): seq<Mismatch> {
    if w.enable != c.enable then out + [Mismatch(LuExists(lu), true, true)]
    else if !w.Enabled() then out
    else LuNotes(LuCritical(out, w, c, lu), w, c, lu)
  }

  function LusDiffs(out: seq<Mismatch>, want: Desc, current: Desc, n: nat): seq<Mismatch> {
    if n == 0 then out
    else LuDiffs(LusDiffs(out, want, current, n - 1), want.Lu(n - 1), current.Lu(n - 1), n - 1)
  }

  function HeaderNotes(out: seq<Mismatch>, want: Desc, current: Desc): seq<Mismatch> {
    var r := Diff(out, false, want.WbBufferType() != current.WbBufferType(), WbType);
    var r := Diff(r, false, want.WbSharedUnits() != current.WbSharedUnits(), WbSharedSize);
    var r := Diff(r, false, want.WbPreserve() != current.WbPreserve(), WbPreserving);
    var r := Diff(r, false, want.DescrAccessEn() != current.DescrAccessEn(), DescriptorAccess);
    var r := Diff(r, false, want.InitPowerMode() != current.InitPowerMode(), PowerMode);
    var r := Diff(r, false, want.HighPriorityLun() != current.HighPriorityLun(), HighPriority);
    var r := Diff(r, false, want.SecureRemovalType() != current.SecureRemovalType(), SecureRemoval);
    var r := Diff(r, false, want.InitActiveIccLevel() != current.InitActiveIccLevel(), IccLevel);
    Diff(r, false, want.PeriodicRtcUpdate() != current.PeriodicRtcUpdate(), RtcUpdate)
  }

  /** The boot LUs a descriptor flags, in order. */
  function Bootable(d: Desc, n: nat): seq<u8> {
    if n == 0 then []
    else
      var lu := d.Lu(n - 1);
      Bootable(d, n - 1) + if lu.Enabled() && lu.bootLunId != BOOT_NONE then [lu.bootLunId] else []
  }

  function Acceptable(plan: Plan): seq<u8> {
    if Bootable(plan.descriptor, LUS) == [] then [plan.bootLunEn] else Bootable(plan.descriptor, LUS)
  }

  function BootDiffs(out: seq<Mismatch>, plan: Plan, bootLunEn: u8): seq<Mismatch> {
    if bootLunEn in Acceptable(plan) then out else out + [Mismatch(ActiveBootLu, true, false)]
  }

  function ExtraDiffs(out: seq<Mismatch>, extra: seq<nat>, n: nat): seq<Mismatch>
    requires n <= |extra|
  {
    if n == 0 then out else ExtraDiffs(out, extra, n - 1) + [Mismatch(LusAbove7(extra[n - 1]), true, true)]
  }

  function CompareOf(plan: Plan, current: Desc, bootLunEn: u8, extra: seq<nat>): seq<Mismatch> {
    var r := Diff([], true, plan.descriptor.BootEnable() != current.BootEnable(), BootFeature);
    var r := BootDiffs(r, plan, bootLunEn);
    var r := ExtraDiffs(r, extra, |extra|);
    var r := LusDiffs(r, plan.descriptor, current, LUS);
    HeaderNotes(r, plan.descriptor, current)
  }

  // --- compare -------------------------------------------------------------------

  method PushBootable(want: Desc) returns (bootable: seq<u8>)
    ensures bootable == Bootable(want, LUS)
  {
    bootable := [];
    for i := 0 to LUS
      invariant bootable == Bootable(want, i)
    {
      var lu := want.Lu(i);
      if lu.Enabled() && lu.bootLunId != BOOT_NONE {
        bootable := bootable + [lu.bootLunId];
      }
    }
  }

  /** The per-LU part of the loop body. */
  method PushLu(out: seq<Mismatch>, w: LuConfig, c: LuConfig, lu: nat) returns (r: seq<Mismatch>)
    ensures r == LuDiffs(out, w, c, lu)
  {
    hide Diff, MemoryTypeName, BlockBytes;
    if w.enable != c.enable {
      return out + [Mismatch(LuExists(lu), true, true)];
    }
    if !w.Enabled() {
      return out;
    }
    r := Diff(out, true, MemoryTypeName(w.memoryType) != MemoryTypeName(c.memoryType), LuMemoryType(lu));
    r := Diff(r, true, BootRole(w.bootLunId) != BootRole(c.bootLunId), LuBootFlag(lu));
    r := Diff(r, true, w.units != c.units, LuSize(lu));
    r := Diff(r, true, BlockBytes(w.blockSize) != BlockBytes(c.blockSize), LuBlockSize(lu));
    r := Diff(r, false, w.writeProtect != c.writeProtect, LuWriteProtect(lu));
    r := Diff(r, false, w.dataReliability != c.dataReliability, LuReliability(lu));
    r := Diff(r, false, w.provisioning != c.provisioning, LuProvisioning(lu));
    r := Diff(r, false, w.wbUnits != c.wbUnits, LuWbUnits(lu));
  }

  method PushHeader(out: seq<Mismatch>, want: Desc, current: Desc) returns (r: seq<Mismatch>)
    ensures r == HeaderNotes(out, want, current)
  {
    hide Diff;
    r := Diff(out, false, want.WbBufferType() != current.WbBufferType(), WbType);
    r := Diff(r, false, want.WbSharedUnits() != current.WbSharedUnits(), WbSharedSize);
    r := Diff(r, false, want.WbPreserve() != current.WbPreserve(), WbPreserving);
    r := Diff(r, false, want.DescrAccessEn() != current.DescrAccessEn(), DescriptorAccess);
    r := Diff(r, false, want.InitPowerMode() != current.InitPowerMode(), PowerMode);
    r := Diff(r, false, want.HighPriorityLun() != current.HighPriorityLun(), HighPriority);
    r := Diff(r, false, want.SecureRemovalType() != current.SecureRemovalType(), SecureRemoval);
    r := Diff(r, false, want.InitActiveIccLevel() != current.InitActiveIccLevel(), IccLevel);
    r := Diff(r, false, want.PeriodicRtcUpdate() != current.PeriodicRtcUpdate(), RtcUpdate);
  }

  /** `compare`. */
  method Compare(plan: Plan, current: Desc, bootLunEn: u8, extra: seq<nat>) returns (out: seq<Mismatch>)
    ensures out == CompareOf(plan, current, bootLunEn, extra)
  {
    hide Diff, LuDiffs, Desc.Lu, HeaderNotes, Bootable;
    var want := plan.descriptor;
    out := Diff([], true, want.BootEnable() != current.BootEnable(), BootFeature);
    ghost var start := out;
    var bootable := PushBootable(want);
    var acceptable := if bootable == [] then [plan.bootLunEn] else bootable;
    if bootLunEn !in acceptable {
      out := out + [Mismatch(ActiveBootLu, true, false)];
    }
    assert out == BootDiffs(start, plan, bootLunEn);
    ghost var boots := out;
    for i := 0 to |extra|
      invariant out == ExtraDiffs(boots, extra, i)
    {
      out := out + [Mismatch(LusAbove7(extra[i]), true, true)];
    }
    ghost var head := out;
    for lu := 0 to LUS
      invariant out == LusDiffs(head, want, current, lu)
    {
      out := PushLu(out, want.Lu(lu), current.Lu(lu), lu);
    }
    out := PushHeader(out, want, current);
  }

  // --- exactness -------------------------------------------------------------------

  predicate HasCritical(ms: seq<Mismatch>) {
    exists i :: 0 <= i < |ms| && ms[i].critical
  }

  /** `needs_descriptor_write`. */
  predicate NeedsWrite(ms: seq<Mismatch>) {
    exists i :: 0 <= i < |ms| && ms[i].critical && ms[i].descriptorWrite
  }

  ghost predicate LuAgrees(w: LuConfig, c: LuConfig) {
    && w.enable == c.enable
    && (w.Enabled() ==>
          && MemoryTypeName(w.memoryType) == MemoryTypeName(c.memoryType)
          && BootRole(w.bootLunId) == BootRole(c.bootLunId)
          && w.units == c.units
          && BlockBytes(w.blockSize) == BlockBytes(c.blockSize))
  }

  /** Everything a descriptor write could fix is as planned. */
  ghost predicate LayoutAgrees(plan: Plan, current: Desc, extra: seq<nat>) {
    && plan.descriptor.BootEnable() == current.BootEnable()
    && extra == []
    && (forall j :: 0 <= j < LUS ==> LuAgrees(plan.descriptor.Lu(j), current.Lu(j)))
  }

  lemma Pushed(out: seq<Mismatch>, m: Mismatch)
    ensures HasCritical(out + [m]) <==> HasCritical(out) || m.critical
    ensures NeedsWrite(out + [m]) <==> NeedsWrite(out) || (m.critical && m.descriptorWrite)
  {
    var r := out + [m];
    assert r[|out|] == m;
    assert forall i :: 0 <= i < |out| ==> r[i] == out[i];
    if HasCritical(out) {
      var i :| 0 <= i < |out| && out[i].critical;
      assert r[i].critical;
    }
    if NeedsWrite(out) {
      var i :| 0 <= i < |out| && out[i].critical && out[i].descriptorWrite;
      assert r[i].critical && r[i].descriptorWrite;
    }
  }

  lemma Differed(out: seq<Mismatch>, critical: bool, differs: bool, what: Field)
    ensures HasCritical(Diff(out, critical, differs, what)) <==> HasCritical(out) || (differs && critical)
    ensures NeedsWrite(Diff(out, critical, differs, what)) <==> NeedsWrite(out) || (differs && critical)
  {
    Pushed(out, Mismatch(what, critical, true));
  }

  /** Two reports saying the same about what is critical. */
  ghost predicate SameWeight(a: seq<Mismatch>, b: seq<Mismatch>) {
    (HasCritical(a) <==> HasCritical(b)) && (NeedsWrite(a) <==> NeedsWrite(b))
  }

  lemma LuNotesAreHarmless(out: seq<Mismatch>, w: LuConfig, c: LuConfig, lu: nat)
    ensures SameWeight(LuNotes(out, w, c, lu), out)
  {
    var r1 := Diff(out, false, w.writeProtect != c.writeProtect, LuWriteProtect(lu));
    var r2 := Diff(r1, false, w.dataReliability != c.dataReliability, LuReliability(lu));
    var r3 := Diff(r2, false, w.provisioning != c.provisioning, LuProvisioning(lu));
    Differed(out, false, w.writeProtect != c.writeProtect, LuWriteProtect(lu));
    Differed(r1, false, w.dataReliability != c.dataReliability, LuReliability(lu));
    Differed(r2, false, w.provisioning != c.provisioning, LuProvisioning(lu));
    Differed(r3, false, w.wbUnits != c.wbUnits, LuWbUnits(lu));
    hide Diff, HasCritical, NeedsWrite;
  }

  lemma HeaderNotesAreHarmless(out: seq<Mismatch>, want: Desc, current: Desc)
    ensures SameWeight(HeaderNotes(out, want, current), out)
  {
    hide Diff, HasCritical, NeedsWrite;
    var r1 := Diff(out, false, want.WbBufferType() != current.WbBufferType(), WbType);
    var r2 := Diff(r1, false, want.WbSharedUnits() != current.WbSharedUnits(), WbSharedSize);
    var r3 := Diff(r2, false, want.WbPreserve() != current.WbPreserve(), WbPreserving);
    var r4 := Diff(r3, false, want.DescrAccessEn() != current.DescrAccessEn(), DescriptorAccess);
    var r5 := Diff(r4, false, want.InitPowerMode() != current.InitPowerMode(), PowerMode);
    var r6 := Diff(r5, false, want.HighPriorityLun() != current.HighPriorityLun(), HighPriority);
    var r7 := Diff(r6, false, want.SecureRemovalType() != current.SecureRemovalType(), SecureRemoval);
    var r8 := Diff(r7, false, want.InitActiveIccLevel() != current.InitActiveIccLevel(), IccLevel);
    Differed(out, false, want.WbBufferType() != current.WbBufferType(), WbType);
    Differed(r1, false, want.WbSharedUnits() != current.WbSharedUnits(), WbSharedSize);
    Differed(r2, false, want.WbPreserve() != current.WbPreserve(), WbPreserving);
    Differed(r3, false, want.DescrAccessEn() != current.DescrAccessEn(), DescriptorAccess);
    Differed(r4, false, want.InitPowerMode() != current.InitPowerMode(), PowerMode);
    Differed(r5, false, want.HighPriorityLun() != current.HighPriorityLun(), HighPriority);
    Differed(r6, false, want.SecureRemovalType() != current.SecureRemovalType(), SecureRemoval);
    Differed(r7, false, want.InitActiveIccLevel() != current.InitActiveIccLevel(), IccLevel);
    Differed(r8, false, want.PeriodicRtcUpdate() != current.PeriodicRtcUpdate(), RtcUpdate);
  }

  lemma LuCriticalExact(out: seq<Mismatch>, w: LuConfig, c: LuConfig, lu: nat)
    ensures HasCritical(LuDiffs(out, w, c, lu)) <==> HasCritical(out) || !LuAgrees(w, c)
    ensures NeedsWrite(LuDiffs(out, w, c, lu)) <==> NeedsWrite(out) || !LuAgrees(w, c)
  {
    hide MemoryTypeName, BlockBytes, BootRole, Diff, LuNotes, HasCritical, NeedsWrite;
    if w.enable != c.enable {
      Pushed(out, Mismatch(LuExists(lu), true, true));
    } else if w.Enabled() {
      var r1 := Diff(out, true, MemoryTypeName(w.memoryType) != MemoryTypeName(c.memoryType), LuMemoryType(lu));
      var r2 := Diff(r1, true, BootRole(w.bootLunId) != BootRole(c.bootLunId), LuBootFlag(lu));
      var r3 := Diff(r2, true, w.units != c.units, LuSize(lu));
      Differed(out, true, MemoryTypeName(w.memoryType) != MemoryTypeName(c.memoryType), LuMemoryType(lu));
      Differed(r1, true, BootRole(w.bootLunId) != BootRole(c.bootLunId), LuBootFlag(lu));
      Differed(r2, true, w.units != c.units, LuSize(lu));
      Differed(r3, true, BlockBytes(w.blockSize) != BlockBytes(c.blockSize), LuBlockSize(lu));
      LuNotesAreHarmless(LuCritical(out, w, c, lu), w, c, lu);
    }
  }

  lemma {:induction false} LusCriticalExact(out: seq<Mismatch>, want: Desc, current: Desc, n: nat)
    ensures HasCritical(LusDiffs(out, want, current, n))
            <==> HasCritical(out) || exists j :: 0 <= j < n && !LuAgrees(want.Lu(j), current.Lu(j))
    ensures NeedsWrite(LusDiffs(out, want, current, n))
            <==> NeedsWrite(out) || exists j :: 0 <= j < n && !LuAgrees(want.Lu(j), current.Lu(j))
  {
    hide LuAgrees, LuDiffs, Desc.Lu, HasCritical, NeedsWrite;
    if n > 0 {
      LusCriticalExact(out, want, current, n - 1);
      LuCriticalExact(LusDiffs(out, want, current, n - 1), want.Lu(n - 1), current.Lu(n - 1), n - 1);
    }
  }

  lemma {:induction false} ExtraCritical(out: seq<Mismatch>, extra: seq<nat>, n: nat)
    requires n <= |extra|
    ensures HasCritical(ExtraDiffs(out, extra, n)) <==> HasCritical(out) || n > 0
    ensures NeedsWrite(ExtraDiffs(out, extra, n)) <==> NeedsWrite(out) || n > 0
  {
    hide HasCritical, NeedsWrite;
    if n > 0 {
      ExtraCritical(out, extra, n - 1);
      Pushed(ExtraDiffs(out, extra, n - 1), Mismatch(LusAbove7(extra[n - 1]), true, true));
    }
  }

  lemma NothingReported()
    ensures !HasCritical([]) && !NeedsWrite([])
  {
  }

  /** The comparison is exact: nothing critical is reported exactly when the layout
      agrees and the active boot LU is an acceptable one, and a descriptor write is
      called for exactly when the layout disagrees, whatever the active boot LU. */
  lemma CompareExact(plan: Plan, current: Desc, bootLunEn: u8, extra: seq<nat>)
    ensures !HasCritical(CompareOf(plan, current, bootLunEn, extra))
            <==> LayoutAgrees(plan, current, extra) && bootLunEn in Acceptable(plan)
    ensures NeedsWrite(CompareOf(plan, current, bootLunEn, extra)) <==> !LayoutAgrees(plan, current, extra)
  {
    hide LuAgrees, LusDiffs, HeaderNotes, Desc.Lu, Acceptable, ExtraDiffs, Diff, HasCritical, NeedsWrite;
    NothingReported();
    var r1 := Diff([], true, plan.descriptor.BootEnable() != current.BootEnable(), BootFeature);
    var r2 := BootDiffs(r1, plan, bootLunEn);
    var r3 := ExtraDiffs(r2, extra, |extra|);
    Differed([], true, plan.descriptor.BootEnable() != current.BootEnable(), BootFeature);
    Pushed(r1, Mismatch(ActiveBootLu, true, false));
    ExtraCritical(r2, extra, |extra|);
    LusCriticalExact(r3, plan.descriptor, current, LUS);
    HeaderNotesAreHarmless(LusDiffs(r3, plan.descriptor, current, LUS), plan.descriptor, current);
  }

  lemma BlockBytesInjective(a: u8, b: u8)
    ensures BlockBytes(a) == BlockBytes(b) <==> a % 32 == b % 32
  {
    PowerHasOneBit(a % 32);
    PowerHasOneBit(b % 32);
  }

  /** What agreement means for an LU a plan enables: the names and shifted sizes the
      comparison looks at determine type, boot role, unit count and block size. */
  lemma PlannedLuAgrees(w: LuConfig, c: LuConfig)
    requires w.enable == 1 && w.memoryType < 7 && w.bootLunId <= BOOT_B && w.blockSize < 32
    ensures LuAgrees(w, c)
            <==> && c.enable == 1
                 && c.memoryType == w.memoryType
                 && (if w.bootLunId == BOOT_NONE then c.bootLunId != BOOT_A && c.bootLunId != BOOT_B
                     else c.bootLunId == w.bootLunId)
                 && c.units == w.units
                 && c.blockSize % 32 == w.blockSize
  {
    MemoryTypeNameInjective(w.memoryType, c.memoryType);
    BlockBytesInjective(w.blockSize, c.blockSize);
    hide MemoryTypeName, BlockBytes;
  }

  // --- no self-mismatch ----------------------------------------------------------

  lemma {:induction false} NoLuDiffsWithSelf(out: seq<Mismatch>, d: Desc, n: nat)
    ensures LusDiffs(out, d, d, n) == out
  {
    if n > 0 {
      NoLuDiffsWithSelf(out, d, n - 1);
    }
  }

  /** A device holding the planned bytes is reported as the plan exactly when its
      active boot LU is acceptable. */
  lemma SelfCompare(plan: Plan, bootLunEn: u8)
    ensures CompareOf(plan, plan.descriptor, bootLunEn, []) == [] <==> bootLunEn in Acceptable(plan)
  {
    NoLuDiffsWithSelf(BootDiffs([], plan, bootLunEn), plan.descriptor, LUS);
  }

  lemma {:induction false} BootableIs(d: Desc, n: nat, id: u8)
    ensures id in Bootable(d, n)
            <==> id != BOOT_NONE && exists j :: 0 <= j < n && d.Lu(j).Enabled() && d.Lu(j).bootLunId == id
  {
    hide LuAt;
    if n > 0 {
      BootableIs(d, n - 1, id);
    }
  }

  /** The boot id an unlisted LU 0 is left enabled with by the WriteBooster header, or
      none. */
  function SpilledBoot(spec: Spec, dev: DeviceDescriptor, wb: WbPlan): u8
    requires dev.base >= 0x10
  {
    if spec.Claims(0) || SpillByte(dev, wb) == 0 then BOOT_NONE else Spilled(dev, wb, 1)
  }

  /** The boot LUs of a packed plan are the ones the scheme flags, and an unlisted LU 0
      the header leaves flagged. */
  lemma PlannedBootable(spec: Spec, dev: DeviceDescriptor, geo: GeometryDescriptor, id: u8)
    requires Planned(spec, dev, geo)
    ensures id in Bootable(PlanOf(spec, dev, geo).value.descriptor, LUS)
            <==> id != BOOT_NONE && (spec.Flags(id) || id == SpilledBoot(spec, dev, WbOf(spec, dev, geo)))
  {
    var d := PlanOf(spec, dev, geo).value.descriptor;
    var wb := WbOf(spec, dev, geo);
    BootableIs(d, LUS, id);
    hide PlanOf, EntriesOf, PlanWriteBooster, Desc.Lu, SpilledBoot, Bootable;
    if id != BOOT_NONE && spec.Flags(id) {
      var k :| 0 <= k < |spec.lus| && spec.lus[k].bootId == id;
      ListedIsFlagged(spec, dev, geo, k);
    } else if id != BOOT_NONE && id == SpilledBoot(spec, dev, wb) {
      SpilledIsFlagged(spec, dev, geo);
    }
    forall j | 0 <= j < LUS && d.Lu(j).Enabled()
      ensures spec.Flags(d.Lu(j).bootLunId) || d.Lu(j).bootLunId == SpilledBoot(spec, dev, wb)
    {
      PlannedLuFlagged(spec, dev, geo, j);
    }
  }

  lemma ListedIsFlagged(spec: Spec, dev: DeviceDescriptor, geo: GeometryDescriptor, k: nat)
    requires Planned(spec, dev, geo) && k < |spec.lus|
    ensures var c := PlanOf(spec, dev, geo).value.descriptor.Lu(spec.lus[k].id);
            c.Enabled() && c.bootLunId == spec.lus[k].bootId
  {
    PlanDecodes(spec, dev, geo, spec.lus[k].id);
    EntriesFollowScheme(spec, geo, WbOf(spec, dev, geo));
    hide PlanOf, EntriesOf, PlanWriteBooster, Desc.Lu, HeaderDesc, LuConfig.SizeBytes;
    ClaimOf(PlannedEntries(spec, dev, geo), k);
  }

  lemma SpilledIsFlagged(spec: Spec, dev: DeviceDescriptor, geo: GeometryDescriptor)
    requires Planned(spec, dev, geo) && SpilledBoot(spec, dev, WbOf(spec, dev, geo)) != BOOT_NONE
    ensures var c := PlanOf(spec, dev, geo).value.descriptor.Lu(0);
            c.Enabled() && c.bootLunId == SpilledBoot(spec, dev, WbOf(spec, dev, geo))
  {
    UnclaimedKeepsHeader(spec, dev, geo, 0);
    HeaderSpill(spec, dev, WbOf(spec, dev, geo));
    hide PlanOf, PlanWriteBooster, Desc.Lu, HeaderDesc, Spilled;
  }

  lemma PlannedLuFlagged(spec: Spec, dev: DeviceDescriptor, geo: GeometryDescriptor, j: nat)
    requires Planned(spec, dev, geo) && j < LUS
    requires PlanOf(spec, dev, geo).value.descriptor.Lu(j).Enabled()
    ensures var id := PlanOf(spec, dev, geo).value.descriptor.Lu(j).bootLunId;
            spec.Flags(id) || id == SpilledBoot(spec, dev, WbOf(spec, dev, geo))
  {
    var wb := WbOf(spec, dev, geo);
    hide PlanOf, PlanWriteBooster, EntriesOf, Desc.Lu, HeaderDesc, Spilled;
    if spec.Claims(j) {
      var k :| 0 <= k < |spec.lus| && spec.lus[k].id == j;
      ListedIsFlagged(spec, dev, geo, k);
    } else {
      UnclaimedKeepsHeader(spec, dev, geo, j);
      HeaderEnables(spec, dev, wb, j);
      HeaderSpill(spec, dev, wb);
    }
  }

  /** Whether the plan names an active boot LU or leaves none flagged: `validate` does
      not ask for the scheme's part of it, and the layout may add one of its own. */
  ghost predicate NamesActiveSide(spec: Spec, dev: DeviceDescriptor, wb: WbPlan)
    requires dev.base >= 0x10
  {
    || spec.active != BOOT_NONE
    || ((forall i :: 0 <= i < |spec.lus| ==> spec.lus[i].bootId == BOOT_NONE)
        && SpilledBoot(spec, dev, wb) == BOOT_NONE)
  }

  lemma ActiveAcceptable(spec: Spec, dev: DeviceDescriptor, geo: GeometryDescriptor)
    requires Planned(spec, dev, geo)
    ensures spec.active in Acceptable(PlanOf(spec, dev, geo).value)
            <==> NamesActiveSide(spec, dev, WbOf(spec, dev, geo))
  {
    var plan := PlanOf(spec, dev, geo).value;
    var wb := WbOf(spec, dev, geo);
    assert plan.bootLunEn == spec.active;
    hide PlanOf, Bootable, PlanWriteBooster, SpilledBoot;
    PlannedBootable(spec, dev, geo, spec.active);
    PlannedBootable(spec, dev, geo, SpilledBoot(spec, dev, wb));
    var boots := Bootable(plan.descriptor, LUS);
    if boots != [] {
      PlannedBootable(spec, dev, geo, boots[0]);
      assert boots[0] in boots;
      if spec.Flags(boots[0]) {
        var i :| 0 <= i < |spec.lus| && spec.lus[i].bootId == boots[0];
      }
    } else if !NamesActiveSide(spec, dev, wb) && SpilledBoot(spec, dev, wb) == BOOT_NONE {
      var i :| 0 <= i < |spec.lus| && spec.lus[i].bootId != BOOT_NONE;
      PlannedBootable(spec, dev, geo, spec.lus[i].bootId);
    }
  }

  /** No self-mismatch, exactly and for every layout: the plan's own bytes and active
      boot LU are reported as matching just when the scheme names an active side, or
      no LU comes out flagged. */
  lemma PlanMatchesItselfExactly(spec: Spec, dev: DeviceDescriptor, geo: GeometryDescriptor)
    requires Planned(spec, dev, geo)
    ensures var plan := PlanOf(spec, dev, geo).value;
            CompareOf(plan, plan.descriptor, plan.bootLunEn, []) == []
            <==> NamesActiveSide(spec, dev, WbOf(spec, dev, geo))
  {
    var plan := PlanOf(spec, dev, geo).value;
    assert plan.bootLunEn == spec.active;
    SelfCompare(plan, plan.bootLunEn);
    hide PlanOf, CompareOf, Acceptable, PlanWriteBooster, NamesActiveSide;
    ActiveAcceptable(spec, dev, geo);
  }

  /** Either side of the pair is acceptable: with a side named, exactly the flagged
      boot LUs are, on every layout. */
  lemma EitherSideAcceptable(spec: Spec, dev: DeviceDescriptor, geo: GeometryDescriptor, id: u8)
    requires Planned(spec, dev, geo) && spec.active != BOOT_NONE
    ensures id in Acceptable(PlanOf(spec, dev, geo).value)
            <==> id != BOOT_NONE && (spec.Flags(id) || id == SpilledBoot(spec, dev, WbOf(spec, dev, geo)))
  {
    PlannedBootable(spec, dev, geo, id);
    PlannedBootable(spec, dev, geo, spec.active);
    hide PlanOf, Bootable, PlanWriteBooster, SpilledBoot;
  }
}
