/** What `apply` guarantees: it converges, it is idempotent, it writes only what it
    has to, and a failed attempt neither loses the layout in effect nor prevents a
    later one from succeeding. */
module ReprovisionFacts {
  import opened Wrappers
  import opened Bytes
  import opened Ufs
  import opened SchemeModel
  import opened Planning
  import opened PlanFacts
  import opened Comparison
  import opened Reprovision

  ghost predicate Provisioned(d: Device, spec: Spec)
    requires Legal(d, spec)
  {
    ProbeOf(d, spec).Success? && IsProvisioned(ProbeOf(d, spec).value)
  }

  ghost predicate WritesConfig(cs: seq<Command>) {
    exists i :: 0 <= i < |cs| && cs[i].WriteConfig?
  }

  /** Whether an attempt gets as far as writing. */
  predicate Proceeds(d: Device, status: Status, w: World) {
    !IsProvisioned(status) && !(d.locked && NeedsWrite(status.mismatches)) && !w.inUse && !w.dryRun
  }

  /** The shape of an attempt: it stops before touching the device, or writes and then
      checks what reads back. */
  lemma Attempt(d: Device, spec: Spec, w: World)
    requires Legal(d, spec) && ProbeOf(d, spec).Success?
    ensures var status := ProbeOf(d, spec).value;
            var (error, after) := WriteAll(d, status.plan, NeedsWrite(status.mismatches), w);
            && after.dev == d.dev && after.geo == d.geo && after.locked == d.locked
            && (!Proceeds(d, status, w) ==>
                  && ApplyOf(d, spec, w).1 == d
                  && (ApplyOf(d, spec, w).0.Success? <==>
                        IsProvisioned(status) || (w.dryRun && !w.inUse && !(d.locked && NeedsWrite(status.mismatches))))
                  && (ApplyOf(d, spec, w).0.Failure? ==> !ApplyOf(d, spec, w).0.error.Rejected?))
            && (Proceeds(d, status, w) ==>
                  && ApplyOf(d, spec, w).1 == after
                  && (error.Some? ==> ApplyOf(d, spec, w).0 == Failure(error.value))
                  && (error.None? ==>
                        && (ApplyOf(d, spec, w).0.Success? <==> Provisioned(after, spec))
                        && (ApplyOf(d, spec, w).0.Failure? ==> !ApplyOf(d, spec, w).0.error.Rejected?)))
  {
    var status := ProbeOf(d, spec).value;
    var needsWrite := NeedsWrite(status.mismatches);
    WriteAllKeepsParts(d, status.plan, needsWrite, w);
    ProbeRejectsNothing(WriteAll(d, status.plan, needsWrite, w).1, spec);
    hide ProbeOf, NeedsWrite, WriteAll, HasCritical;
  }

  lemma ProbeRejectsNothing(d: Device, spec: Spec)
    requires Legal(d, spec)
    ensures ProbeOf(d, spec).Failure? ==> !ProbeOf(d, spec).error.Rejected?
  {
  }

  lemma UnprobedUntouched(d: Device, spec: Spec, w: World)
    requires Legal(d, spec) && ProbeOf(d, spec).Failure?
    ensures ApplyOf(d, spec, w) == (Failure(ProbeOf(d, spec).error), d)
  {
  }

  // --- when nothing is written -----------------------------------------------------

  lemma {:induction false} ClearsSend(d: Device, clear: seq<(nat, Desc)>, i: nat, w: World)
    requires i <= |clear|
    ensures d.commands <= ClearsOf(d, clear, i, w).1.commands
    ensures i < |clear| && 0 < |clear[i].1.bytes| <= 255 ==> d.commands < ClearsOf(d, clear, i, w).1.commands
    decreases |clear| - i
  {
    if i < |clear| {
      var next := WriteOf(d, clear[i].0, clear[i].1.bytes, w).1;
      ClearsSend(next, clear, i + 1, w);
      assert d.commands <= next.commands;
    }
  }

  lemma WriteAllSends(d: Device, plan: Plan, needsWrite: bool, w: World)
    requires 0 < |plan.descriptor.bytes| <= 255
    requires forall k :: 0 <= k < |plan.clear| ==> 0 < |plan.clear[k].1.bytes| <= 255
    ensures d.commands < WriteAll(d, plan, needsWrite, w).1.commands
  {
    ClearsSend(d, plan.clear, 0, w);
    var (error, cleared) := ClearsOf(d, plan.clear, 0, w);
    hide ClearsOf;
    if needsWrite && error.None? {
      var written := WriteOf(cleared, 0, plan.descriptor.bytes, w).1;
      assert cleared.commands < written.commands;
      SwitchCommands(written, plan.bootLunEn, w);
    } else if !needsWrite {
      SwitchCommands(d, plan.bootLunEn, w);
    }
  }

  /** A device is left exactly as it was when, and only when, the run is dry, the device
      is in use, it already matches, or it is locked and would need a descriptor; in
      every other case at least one command goes out. */
  lemma NothingWrittenExactly(d: Device, spec: Spec, w: World)
    requires Legal(d, spec) && ProbeOf(d, spec).Success?
    ensures var kept := w.dryRun || w.inUse || Provisioned(d, spec)
                        || (d.locked && NeedsWrite(ProbeOf(d, spec).value.mismatches));
            && (kept <==> ApplyOf(d, spec, w).1 == d)
            && (!kept ==> d.commands < ApplyOf(d, spec, w).1.commands)
  {
    var status := ProbeOf(d, spec).value;
    Attempt(d, spec, w);
    ProbedLengths(d, spec);
    hide ProbeOf, NeedsWrite, WriteAll, ApplyOf, HasCritical;
    WriteAllSends(d, status.plan, NeedsWrite(status.mismatches), w);
  }

  /** A descriptor that reads back is no longer than its length byte can say. */
  lemma ReadableLength(d: Device)
    requires d.dev.Valid() && ReadConfig(d, 0).Some?
    ensures d.dev.ConfigDescLen() <= 255
  {
    hide Desc.Lu;
  }

  /** A descriptor can be read exactly when there is one whose own length byte, which is
      all that is believed, covers the layout; it then reads as stored, with zeroes where
      less is stored. */
  lemma ReadsExactly(d: Device, index: nat)
    requires d.dev.Valid()
    ensures ReadConfig(d, index).Some?
            <==> index in d.config && |d.config[index]| >= 2 && d.config[index][0] >= d.dev.base + 8 * d.dev.stride
    ensures ReadConfig(d, index).Some? ==>
              var read := ReadConfig(d, index).value;
              && |read.bytes| == d.config[index][0] && read.base == d.dev.base && read.stride == d.dev.stride
              && forall k :: 0 <= k < |read.bytes| ==>
                   read.bytes[k] == if k < |d.config[index]| then d.config[index][k] else 0
  {
    hide Desc.Lu;
  }

  lemma ProbedLengths(d: Device, spec: Spec)
    requires Legal(d, spec) && ProbeOf(d, spec).Success?
    ensures var plan := ProbeOf(d, spec).value.plan;
            && 0 < |plan.descriptor.bytes| <= 255
            && forall k :: 0 <= k < |plan.clear| ==> 0 < |plan.clear[k].1.bytes| <= 255
  {
    PlanLayout(spec, d.dev, d.geo);
    ProbedPlan(d, spec);
    ReadableLength(d);
    hide PlanOf, ProbeOf, ClearDesc, HeaderDesc, PlanWriteBooster, ExtraEnabled;
    var plan := ProbeOf(d, spec).value.plan;
    assert forall k :: 0 <= k < |plan.clear| ==> plan.clear[k].1 == ClearDesc(d.dev);
  }

  /** When only the active boot LU is wrong, no descriptor is written, whatever fails. */
  lemma AttributeOnly(d: Device, spec: Spec, w: World)
    requires Legal(d, spec) && ProbeOf(d, spec).Success?
    requires !NeedsWrite(ProbeOf(d, spec).value.mismatches)
    ensures var after := ApplyOf(d, spec, w).1;
            && d.commands <= after.commands
            && !WritesConfig(after.commands[|d.commands|..])
  {
    hide ProbeOf, HasCritical, NeedsWrite, Legal;
    SwitchCommands(d, ProbeOf(d, spec).value.plan.bootLunEn, w);
    hide SwitchOf;
  }

  lemma SwitchCommands(d: Device, value: u8, w: World)
    ensures var after := SwitchOf(d, value, w).1;
            d.commands < after.commands && !WritesConfig(after.commands[|d.commands|..])
  {
    var after := SwitchOf(d, value, w).1;
    assert after.commands == d.commands + [WriteBootLunEn(value)]
           || after.commands == d.commands + [WriteBootLunEn(value), SetDeviceInit];
  }

  /** A descriptor write that fails, even after it was taken, costs nothing: the layout
      in effect and the active boot LU stay as they were. */
  lemma RefusalKeepsLayout(d: Device, spec: Spec, w: World)
    requires Legal(d, spec) && ApplyOf(d, spec, w).0.Failure? && ApplyOf(d, spec, w).0.error.Rejected?
    ensures ApplyOf(d, spec, w).1.config == d.config && ApplyOf(d, spec, w).1.bootLunEn == d.bootLunEn
  {
    ProbeRejectsNothing(d, spec);
    if ProbeOf(d, spec).Success? {
      var status := ProbeOf(d, spec).value;
      Attempt(d, spec, w);
      RejectedWriteKeepsLayout(d, status.plan, NeedsWrite(status.mismatches), w);
    } else {
      UnprobedUntouched(d, spec, w);
    }
    hide ApplyOf, ProbeOf, NeedsWrite, WriteAll, Proceeds;
  }

  lemma RejectedWriteKeepsLayout(d: Device, plan: Plan, needsWrite: bool, w: World)
    ensures var (error, after) := WriteAll(d, plan, needsWrite, w);
            error.Some? && error.value.Rejected? ==> after.config == d.config && after.bootLunEn == d.bootLunEn
  {
    ClearsKeepParts(d, plan.clear, 0, w);
    hide ClearsOf;
  }

  // --- reading back what was written --------------------------------------------

  lemma ReadsBack(bytes: seq<u8>)
    requires 2 <= |bytes| <= 255 && bytes[0] == |bytes|
    ensures ReadBytes(bytes) == Some(bytes)
  {
    assert bytes[..|bytes|] == bytes;
  }

  lemma ClearReadsBack(dev: DeviceDescriptor)
    requires dev.Valid() && dev.ConfigDescLen() <= 255
    ensures ReadBytes(ClearDesc(dev).bytes) == Some(ClearDesc(dev).bytes)
    ensures !AnyEnabled(ClearDesc(dev))
    ensures ClearDesc(dev).bytes[..3] == [dev.ConfigDescLen(), 0x01, 0x01]
  {
    var d := ClearDesc(dev);
    ReadsBack(d.bytes);
    assert forall k :: 3 <= k < |d.bytes| ==> d.bytes[k] == 0;
    forall j | 0 <= j < LUS
      ensures !d.Lu(j).Enabled()
    {
      assert 0 <= j * d.stride;
      ZeroBlock(d.bytes, d.LuOffset(j), d.HasLuWriteBooster());
    }
  }

  lemma HeaderLength(spec: Spec, dev: DeviceDescriptor, wb: WbPlan)
    requires dev.Valid() && dev.ConfigDescLen() <= 255
    ensures HeaderDesc(spec, dev, wb).bytes[0] == dev.ConfigDescLen()
  {
    HeaderBytes(spec, dev, wb);
  }

  lemma PlanReadsBack(spec: Spec, dev: DeviceDescriptor, geo: GeometryDescriptor)
    requires Planned(spec, dev, geo) && dev.ConfigDescLen() <= 255
    ensures var d := PlanOf(spec, dev, geo).value.descriptor;
            ReadBytes(d.bytes) == Some(d.bytes) && |d.bytes| == dev.ConfigDescLen()
            && Desc(d.bytes, dev.base, dev.stride) == d
  {
    PlanLayout(spec, dev, geo);
    HeaderLength(spec, dev, WbOf(spec, dev, geo));
    hide PlanOf, PlanWriteBooster, HeaderDesc, EntriesOf, WbHeader, ReadBytes;
    ReadsBack(PlanOf(spec, dev, geo).value.descriptor.bytes);
  }

  // --- what every attempt keeps ----------------------------------------------------

  /** The descriptor in effect can be read, and whatever waits for `fDeviceInit` came
      from this scheme. Every attempt keeps this, however it fails. */
  ghost predicate Sound(d: Device, spec: Spec)
    requires Legal(d, spec)
  {
    && PlanOf(spec, d.dev, d.geo).Success?
    && ReadConfig(d, 0).Some?
    && PendingSound(d.pending, PlanOf(spec, d.dev, d.geo).value.descriptor.bytes, ClearDesc(d.dev).bytes)
  }

  ghost predicate PendingSound(pending: map<nat, seq<u8>>, planned: seq<u8>, cleared: seq<u8>) {
    forall k :: k in pending ==> pending[k] == if k == 0 then planned else cleared
  }

  lemma {:induction false} ClearsKeepSound(d: Device, clear: seq<(nat, Desc)>, i: nat, w: World, planned: seq<u8>, cleared: seq<u8>)
    requires i <= |clear| && PendingSound(d.pending, planned, cleared)
    requires forall k :: 0 <= k < |clear| ==> clear[k].0 != 0 && clear[k].1.bytes == cleared
    ensures PendingSound(ClearsOf(d, clear, i, w).1.pending, planned, cleared)
    decreases |clear| - i
  {
    if i < |clear| {
      ClearsKeepSound(WriteOf(d, clear[i].0, clear[i].1.bytes, w).1, clear, i + 1, w, planned, cleared);
    }
  }

  lemma {:induction false} ExtraIsAboveZero(d: Device, n: nat)
    requires d.dev.Valid()
    ensures forall k :: 0 <= k < |ExtraBelow(d, n)| ==> 1 <= ExtraBelow(d, n)[k] < n && HoldsLus(d, ExtraBelow(d, n)[k])
    ensures forall k :: 1 <= k < n && HoldsLus(d, k) ==> k in ExtraBelow(d, n)
  {
    hide HoldsLus;
    if n > 1 {
      ExtraIsAboveZero(d, n - 1);
    }
  }

  lemma DescriptorsKeep(d: Device, plan: Plan, w: World, planned: seq<u8>, cleared: seq<u8>)
    requires PendingSound(d.pending, planned, cleared) && plan.descriptor.bytes == planned
    requires forall k :: 0 <= k < |plan.clear| ==> plan.clear[k].0 != 0 && plan.clear[k].1.bytes == cleared
    ensures PendingSound(DescriptorsOf(d, plan, w).1.pending, planned, cleared)
    ensures DescriptorsOf(d, plan, w).1.config == d.config
  {
    ClearsKeepSound(d, plan.clear, 0, w, planned, cleared);
    ClearsKeepParts(d, plan.clear, 0, w);
    hide ClearsOf;
  }

  lemma WritesKeepSound(d: Device, plan: Plan, needsWrite: bool, w: World, planned: seq<u8>, cleared: seq<u8>)
    returns (p: map<nat, seq<u8>>)
    requires PendingSound(d.pending, planned, cleared) && plan.descriptor.bytes == planned
    requires forall k :: 0 <= k < |plan.clear| ==> plan.clear[k].0 != 0 && plan.clear[k].1.bytes == cleared
    ensures PendingSound(WriteAll(d, plan, needsWrite, w).1.pending, planned, cleared)
    ensures PendingSound(p, planned, cleared) && WriteAll(d, plan, needsWrite, w).1.config == d.config + p
  {
    DescriptorsKeep(d, plan, w, planned, cleared);
    hide DescriptorsOf, PendingSound;
    var (error, written) := if needsWrite then DescriptorsOf(d, plan, w) else (None, d);
    assert PendingSound(written.pending, planned, cleared) && written.config == d.config;
    var after := WriteAll(d, plan, needsWrite, w).1;
    p := if after.config == d.config then map[] else written.pending;
    assert d.config + map[] == d.config;
  }

  lemma ProbedPlan(d: Device, spec: Spec)
    requires Legal(d, spec) && ProbeOf(d, spec).Success?
    ensures var plan := ProbeOf(d, spec).value.plan;
            && PlanOf(spec, d.dev, d.geo).Success?
            && plan.descriptor == PlanOf(spec, d.dev, d.geo).value.descriptor
            && plan.bootLunEn == spec.active
            && |plan.clear| == |ExtraEnabled(d)|
            && forall k :: 0 <= k < |plan.clear| ==>
                 plan.clear[k] == (ExtraEnabled(d)[k], ClearDesc(d.dev)) && plan.clear[k].0 != 0
  {
    ExtraIsAboveZero(d, 4);
    hide CompareOf, ReadConfig, HoldsLus, ExtraBelow, ClearDesc;
  }

  lemma ReadAfter(d: Device, after: Device, p: map<nat, seq<u8>>, spec: Spec)
    requires Legal(d, spec) && PlanOf(spec, d.dev, d.geo).Success? && ReadConfig(d, 0).Some?
    requires after.dev == d.dev && after.geo == d.geo
    requires PendingSound(p, PlanOf(spec, d.dev, d.geo).value.descriptor.bytes, ClearDesc(d.dev).bytes)
    requires after.config == d.config + p
    ensures after.dev == d.dev
    ensures ReadConfig(after, 0) == if 0 in p then Some(PlanOf(spec, d.dev, d.geo).value.descriptor) else ReadConfig(d, 0)
    ensures forall k :: k > 0 ==> (HoldsLus(after, k) <==> HoldsLus(d, k) && k !in p)
  {
    ReadableLength(d);
    PlanReadsBack(spec, d.dev, d.geo);
    ClearReadsBack(d.dev);
    hide PlanOf, ClearDesc, ReadBytes, AnyEnabled;
    forall k | k > 0
      ensures HoldsLus(after, k) <==> HoldsLus(d, k) && k !in p
    {
      if k in p {
        assert after.config[k] == ClearDesc(d.dev).bytes;
        assert ReadConfig(after, k) == Some(ClearDesc(d.dev));
      } else {
        assert ReadConfig(after, k) == ReadConfig(d, k);
      }
    }
  }

  /** Every attempt, under any pattern of failures with or without effect, leaves a
      sound device: the layout in effect is the old one or has pending descriptors of
      this scheme put over it. */
  lemma ApplyKeepsSound(d: Device, spec: Spec, w: World)
    requires Legal(d, spec) && Sound(d, spec)
    ensures var after := ApplyOf(d, spec, w).1;
            && after.dev == d.dev && after.geo == d.geo && after.locked == d.locked
            && Sound(after, spec)
  {
    if ProbeOf(d, spec).Success? {
      var status := ProbeOf(d, spec).value;
      var needsWrite := NeedsWrite(status.mismatches);
      ProbedPlan(d, spec);
      Attempt(d, spec, w);
      WritesSound(d, status.plan, needsWrite, w, spec);
    } else {
      UnprobedUntouched(d, spec, w);
    }
    hide ApplyOf, ProbeOf, NeedsWrite, WriteAll, Proceeds, PlanOf, ReadConfig, ClearDesc, PendingSound;
  }

  lemma WritesSound(d: Device, plan: Plan, needsWrite: bool, w: World, spec: Spec)
    requires Legal(d, spec) && Sound(d, spec)
    requires plan.descriptor == PlanOf(spec, d.dev, d.geo).value.descriptor
    requires forall k :: 0 <= k < |plan.clear| ==> plan.clear[k].0 != 0 && plan.clear[k].1 == ClearDesc(d.dev)
    ensures var after := WriteAll(d, plan, needsWrite, w).1;
            after.dev == d.dev && after.geo == d.geo && after.locked == d.locked && Sound(after, spec)
  {
    var planned := PlanOf(spec, d.dev, d.geo).value.descriptor.bytes;
    var cleared := ClearDesc(d.dev).bytes;
    hide PlanOf, ClearDesc, ReadConfig;
    WriteAllKeepsParts(d, plan, needsWrite, w);
    var p := WritesKeepSound(d, plan, needsWrite, w, planned, cleared);
    hide WriteAll, PendingSound;
    ReadAfter(d, WriteAll(d, plan, needsWrite, w).1, p, spec);
  }

  // --- convergence -------------------------------------------------------------------

  predicate Faultless(w: World) {
    !w.dryRun && !w.inUse && w.refuses == {} && w.loses == {} && w.attribute.Accepted? && w.init.Accepted?
  }

  lemma {:induction false} ClearsAccepted(d: Device, clear: seq<(nat, Desc)>, i: nat, w: World, cleared: seq<u8>)
    requires i <= |clear| && w.refuses == {} && w.loses == {} && 0 < |cleared| <= 255
    requires forall k :: 0 <= k < |clear| ==> clear[k].1.bytes == cleared
    ensures ClearsOf(d, clear, i, w).0.None?
    ensures forall k :: i <= k < |clear| ==> clear[k].0 in ClearsOf(d, clear, i, w).1.pending
    ensures d.pending.Keys <= ClearsOf(d, clear, i, w).1.pending.Keys
    decreases |clear| - i
  {
    if i < |clear| {
      var next := WriteOf(d, clear[i].0, clear[i].1.bytes, w).1;
      ClearsAccepted(next, clear, i + 1, w, cleared);
      assert clear[i].0 in next.pending.Keys;
      assert ClearsOf(d, clear, i, w) == ClearsOf(next, clear, i + 1, w);
    }
  }

  /** With nothing failing, everything sent is in effect afterwards. */
  lemma WritesLand(d: Device, plan: Plan, needsWrite: bool, w: World, planned: seq<u8>, cleared: seq<u8>)
    returns (p: map<nat, seq<u8>>)
    requires Faultless(w) && PendingSound(d.pending, planned, cleared) && plan.descriptor.bytes == planned
    requires forall k :: 0 <= k < |plan.clear| ==> plan.clear[k].0 != 0 && plan.clear[k].1.bytes == cleared
    requires 0 < |planned| <= 255 && 0 < |cleared| <= 255
    ensures var (error, after) := WriteAll(d, plan, needsWrite, w);
            && error.None? && after.bootLunEn == plan.bootLunEn && after.pending == map[]
            && PendingSound(p, planned, cleared)
            && after.config == d.config + p
            && (needsWrite ==> 0 in p && forall k :: 0 <= k < |plan.clear| ==> plan.clear[k].0 in p)
  {
    DescriptorsKeep(d, plan, w, planned, cleared);
    DescriptorsLand(d, plan, w, cleared);
    hide DescriptorsOf, PendingSound;
    p := (if needsWrite then DescriptorsOf(d, plan, w).1 else d).pending;
  }

  lemma DescriptorsLand(d: Device, plan: Plan, w: World, cleared: seq<u8>)
    requires Faultless(w) && 0 < |plan.descriptor.bytes| <= 255 && 0 < |cleared| <= 255
    requires forall k :: 0 <= k < |plan.clear| ==> plan.clear[k].1.bytes == cleared
    ensures var (error, after) := DescriptorsOf(d, plan, w);
            && error.None? && 0 in after.pending
            && forall k :: 0 <= k < |plan.clear| ==> plan.clear[k].0 in after.pending
  {
    ClearsAccepted(d, plan.clear, 0, w, cleared);
    hide ClearsOf;
  }

  lemma AgreesWithItself(plan: Plan, d: Desc)
    requires d == plan.descriptor
    ensures LayoutAgrees(plan, d, [])
  {
    hide LuAt, MemoryTypeName, BlockBytes;
  }

  lemma {:induction false} NoExtra(d: Device, n: nat)
    requires d.dev.Valid() && forall k :: 1 <= k < n ==> !HoldsLus(d, k)
    ensures ExtraBelow(d, n) == []
  {
    if n > 1 {
      NoExtra(d, n - 1);
    }
  }

  lemma SamePlanAccepts(a: Plan, b: Plan)
    requires a.descriptor == b.descriptor && a.bootLunEn == b.bootLunEn
    ensures Acceptable(a) == Acceptable(b)
  {
  }

  /** A device whose layout needs no writing already has the planned one. */
  lemma UnneededAgrees(d: Device, spec: Spec)
    requires Legal(d, spec) && ProbeOf(d, spec).Success? && !NeedsWrite(ProbeOf(d, spec).value.mismatches)
    ensures PlanOf(spec, d.dev, d.geo).Success? && ReadConfig(d, 0).Some? && ExtraEnabled(d) == []
    ensures LayoutAgrees(PlanOf(spec, d.dev, d.geo).value, ReadConfig(d, 0).value, [])
  {
    var status := ProbeOf(d, spec).value;
    var built := PlanOf(spec, d.dev, d.geo).value;
    CompareExact(status.plan, status.current, d.bootLunEn, ExtraEnabled(d));
    LayoutSame(status.plan, built, status.current, ExtraEnabled(d));
    AgreesMeansNoExtra(built, status.current, ExtraEnabled(d));
    hide PlanOf, CompareOf, HasCritical, NeedsWrite, LayoutAgrees, ExtraEnabled, ReadConfig, ClearsFor;
  }

  /** Once every LU above 7 that was enabled has been cleared, none is left. */
  lemma ClearedExtra(d: Device, after: Device, p: map<nat, seq<u8>>)
    requires d.dev.Valid() && after.dev == d.dev
    requires forall k :: k > 0 ==> (HoldsLus(after, k) <==> HoldsLus(d, k) && k !in p)
    requires forall k :: k in ExtraEnabled(d) ==> k in p
    ensures ExtraEnabled(after) == []
  {
    ExtraIsAboveZero(d, 4);
    hide HoldsLus, ExtraBelow;
    NoExtra(after, 4);
  }

  lemma LandedLayout(d: Device, after: Device, p: map<nat, seq<u8>>, spec: Spec)
    requires Legal(d, spec) && Sound(d, spec)
    requires after.dev == d.dev && after.geo == d.geo && after.config == d.config + p
    requires PendingSound(p, PlanOf(spec, d.dev, d.geo).value.descriptor.bytes, ClearDesc(d.dev).bytes)
    requires ProbeOf(d, spec).Success?
    requires NeedsWrite(ProbeOf(d, spec).value.mismatches) ==> 0 in p && forall k :: k in ExtraEnabled(d) ==> k in p
    ensures ExtraEnabled(after) == [] && ReadConfig(after, 0).Some?
    ensures LayoutAgrees(PlanOf(spec, d.dev, d.geo).value, ReadConfig(after, 0).value, [])
  {
    var built := PlanOf(spec, d.dev, d.geo).value;
    ReadAfter(d, after, p, spec);
    if !NeedsWrite(ProbeOf(d, spec).value.mismatches) {
      UnneededAgrees(d, spec);
    }
    AgreesWithItself(built, built.descriptor);
    hide ProbeOf, PlanOf, NeedsWrite, HoldsLus, ClearDesc, ReadConfig, PendingSound, LayoutAgrees, ExtraEnabled;
    ClearedExtra(d, after, p);
  }

  lemma LayoutSame(a: Plan, b: Plan, current: Desc, extra: seq<nat>)
    requires a.descriptor == b.descriptor
    ensures LayoutAgrees(a, current, extra) <==> LayoutAgrees(b, current, extra)
  {
  }

  lemma AgreesMeansNoExtra(plan: Plan, current: Desc, extra: seq<nat>)
    ensures LayoutAgrees(plan, current, extra) <==> LayoutAgrees(plan, current, []) && extra == []
  {
  }

  lemma ProvisionedIs(d: Device, spec: Spec)
    requires Legal(d, spec) && PlanOf(spec, d.dev, d.geo).Success?
    ensures Provisioned(d, spec)
            <==> ReadConfig(d, 0).Some?
                 && LayoutAgrees(PlanOf(spec, d.dev, d.geo).value, ReadConfig(d, 0).value, ExtraEnabled(d))
                 && d.bootLunEn in Acceptable(PlanOf(spec, d.dev, d.geo).value)
  {
    if ProbeOf(d, spec).Success? {
      var status := ProbeOf(d, spec).value;
      var built := PlanOf(spec, d.dev, d.geo).value;
      CompareExact(status.plan, status.current, d.bootLunEn, ExtraEnabled(d));
      hide PlanOf, CompareOf, HasCritical, ReadConfig, ExtraEnabled, LayoutAgrees, Acceptable;
      LayoutSame(status.plan, built, status.current, ExtraEnabled(d));
      SamePlanAccepts(status.plan, built);
    }
  }

  /** `apply` converges, exactly: on a sound, unlocked device with nothing failing it
      ends provisioned, with no LU above 7 left, just when the scheme's own active boot
      LU is acceptable to the comparison or the device already matched. */
  lemma ApplyConverges(d: Device, spec: Spec, w: World)
    requires Legal(d, spec) && Sound(d, spec)
    requires Faultless(w) && !d.locked
    ensures var (r, after) := ApplyOf(d, spec, w);
            && (r.Success? <==> Provisioned(d, spec) || spec.active in Acceptable(PlanOf(spec, d.dev, d.geo).value))
            && after.dev == d.dev && after.geo == d.geo
            && (r.Success? ==> Provisioned(after, spec) && ExtraEnabled(after) == [])
  {
    ReadableProbes(d, spec);
    var status := ProbeOf(d, spec).value;
    var needsWrite := NeedsWrite(status.mismatches);
    ProvisionedIs(d, spec);
    Attempt(d, spec, w);
    if IsProvisioned(status) {
      AgreesMeansNoExtra(PlanOf(spec, d.dev, d.geo).value, status.current, ExtraEnabled(d));
      hide ApplyOf, ProbeOf, NeedsWrite, WriteAll, PlanOf, ReadConfig, LayoutAgrees, Acceptable, ExtraEnabled, HasCritical;
    } else {
      Lands(d, spec, w);
      hide ApplyOf, ProbeOf, NeedsWrite, WriteAll, PlanOf, ReadConfig, LayoutAgrees, Acceptable, ExtraEnabled, HasCritical;
    }
  }

  lemma AttemptLands(d: Device, spec: Spec, w: World) returns (p: map<nat, seq<u8>>)
    requires Legal(d, spec) && Sound(d, spec)
    requires Faultless(w) && ProbeOf(d, spec).Success?
    ensures var needsWrite := NeedsWrite(ProbeOf(d, spec).value.mismatches);
            var (error, after) := WriteAll(d, ProbeOf(d, spec).value.plan, needsWrite, w);
            && error.None? && after.bootLunEn == spec.active && after.config == d.config + p
            && PendingSound(p, PlanOf(spec, d.dev, d.geo).value.descriptor.bytes, ClearDesc(d.dev).bytes)
            && (needsWrite ==> 0 in p && forall k :: k in ExtraEnabled(d) ==> k in p)
  {
    var plan := ProbeOf(d, spec).value.plan;
    var needsWrite := NeedsWrite(ProbeOf(d, spec).value.mismatches);
    ProbedPlan(d, spec);
    ReadableLength(d);
    PlanReadsBack(spec, d.dev, d.geo);
    hide ProbeOf, PlanOf, HasCritical, NeedsWrite, ClearDesc, ReadConfig, ExtraEnabled;
    p := WritesLand(d, plan, needsWrite, w, PlanOf(spec, d.dev, d.geo).value.descriptor.bytes, ClearDesc(d.dev).bytes);
    hide WriteAll, PendingSound;
    forall k | k in ExtraEnabled(d) && needsWrite
      ensures k in p
    {
      var i :| 0 <= i < |ExtraEnabled(d)| && ExtraEnabled(d)[i] == k;
      assert plan.clear[i].0 == k;
    }
  }

  /** What an undisturbed attempt that writes leaves behind. */
  lemma Lands(d: Device, spec: Spec, w: World)
    requires Legal(d, spec) && Sound(d, spec)
    requires Faultless(w) && ProbeOf(d, spec).Success?
    ensures var status := ProbeOf(d, spec).value;
            var (error, after) := WriteAll(d, status.plan, NeedsWrite(status.mismatches), w);
            && error.None? && after.dev == d.dev && after.geo == d.geo
            && ExtraEnabled(after) == []
            && (Provisioned(after, spec) <==> spec.active in Acceptable(PlanOf(spec, d.dev, d.geo).value))
  {
    var status := ProbeOf(d, spec).value;
    var needsWrite := NeedsWrite(status.mismatches);
    var after := WriteAll(d, status.plan, needsWrite, w).1;
    WriteAllKeepsParts(d, status.plan, needsWrite, w);
    var p := AttemptLands(d, spec, w);
    hide ProbeOf, PlanOf, HasCritical, NeedsWrite, ReadConfig, Acceptable, ExtraEnabled, WriteAll, PendingSound;
    LandedLayout(d, after, p, spec);
    ProvisionedIs(after, spec);
    hide LayoutAgrees;
  }

  lemma ReadableProbes(d: Device, spec: Spec)
    requires Legal(d, spec) && PlanOf(spec, d.dev, d.geo).Success? && ReadConfig(d, 0).Some?
    ensures ProbeOf(d, spec).Success?
  {
  }

  /** Idempotence: once `apply` has succeeded for real, running it again succeeds and
      sends the device nothing, whatever the surroundings do. */
  lemma ApplyIdempotent(d: Device, spec: Spec, w: World, w': World)
    requires Legal(d, spec) && ApplyOf(d, spec, w).0.Success? && !w.dryRun
    ensures Legal(ApplyOf(d, spec, w).1, spec)
    ensures ApplyOf(ApplyOf(d, spec, w).1, spec, w') == (Success(()), ApplyOf(d, spec, w).1)
  {
    if ProbeOf(d, spec).Success? {
      Attempt(d, spec, w);
    } else {
      UnprobedUntouched(d, spec, w);
    }
    var after := ApplyOf(d, spec, w).1;
    assert Legal(after, spec) && Provisioned(after, spec) by {
      hide ApplyOf, ProbeOf, WriteAll, HasCritical, NeedsWrite;
    }
    Attempt(after, spec, w');
    hide ApplyOf, ProbeOf, WriteAll, HasCritical, NeedsWrite;
  }

  // --- whole histories -----------------------------------------------------------------

  function ApplyAll(d: Device, spec: Spec, ws: seq<World>, n: nat): Device
    requires n <= |ws| && Legal(d, spec)
  {
    if n == 0 then d
    else
      var before := ApplyAll(d, spec, ws, n - 1);
      if before.dev == d.dev && before.geo == d.geo then ApplyOf(before, spec, ws[n - 1]).1 else before
  }

  lemma {:induction false} HistoryKeepsSound(d: Device, spec: Spec, ws: seq<World>, n: nat)
    requires n <= |ws| && Legal(d, spec) && Sound(d, spec)
    ensures var after := ApplyAll(d, spec, ws, n);
            after.dev == d.dev && after.geo == d.geo && after.locked == d.locked && Sound(after, spec)
  {
    hide ApplyOf, Sound;
    if n > 0 {
      HistoryKeepsSound(d, spec, ws, n - 1);
      ApplyKeepsSound(ApplyAll(d, spec, ws, n - 1), spec, ws[n - 1]);
    }
  }

  /** After any history of attempts, each failing however it likes, one undisturbed
      attempt on an unlocked device ends provisioned exactly when the device had got
      there or the scheme names an active side. */
  lemma ConvergesAfterAnyHistory(d: Device, spec: Spec, ws: seq<World>, w: World)
    requires Legal(d, spec) && Sound(d, spec)
    requires Faultless(w) && !d.locked
    ensures var before := ApplyAll(d, spec, ws, |ws|);
            && before.dev == d.dev && before.geo == d.geo
            && var (r, after) := ApplyOf(before, spec, w);
               && (r.Success? <==> Provisioned(before, spec) || NamesActiveSide(spec, d.dev, WbOf(spec, d.dev, d.geo)))
               && after.dev == d.dev && after.geo == d.geo
               && (r.Success? ==> Provisioned(after, spec) && ExtraEnabled(after) == [])
  {
    HistoryKeepsSound(d, spec, ws, |ws|);
    var before := ApplyAll(d, spec, ws, |ws|);
    ApplyConverges(before, spec, w);
    ActiveAcceptable(spec, d.dev, d.geo);
    hide PlanOf, ApplyOf, ApplyAll, Sound, CompareOf, Acceptable, Provisioned, ExtraEnabled, NamesActiveSide, PlanWriteBooster;
  }
}
