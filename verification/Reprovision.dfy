/** Probing a device and bringing it to the scheme (src/core/provision.rs:1148-1363),
    over a device that stores what it is sent and puts it into effect on
    `fDeviceInit`. */
module Reprovision {
  import opened Wrappers
  import opened Bytes
  import opened Ufs
  import opened SchemeModel
  import opened Planning
  import opened Comparison

  datatype Command =
    | WriteConfig(index: nat, bytes: seq<u8>)
    | WriteBootLunEn(value: u8)
    | SetDeviceInit

  /** A device: its configuration descriptors by index as they are in effect, those
      written since, its attributes, and every command it has been sent. */
  datatype Device = Device(
    dev: DeviceDescriptor,
    geo: GeometryDescriptor,
    config: map<nat, seq<u8>>,
    pending: map<nat, seq<u8>>,
    bootLunEn: u8,
    locked: bool,
    commands: seq<Command>)

  /** How a command ends: accepted, refused without effect, or put into effect and
      still reported as a failure, as when the flag cannot be read afterwards, the
      rescan fails or the disk does not come back. */
  datatype Reply = Accepted | Refused | Lost

  /** What the surroundings do to one run: an operator's dry run, a device in use, and
      how each command ends. A descriptor write is refused, or its answer lost, by
      index. */
  datatype World = World(dryRun: bool, inUse: bool, refuses: set<nat>, loses: set<nat>, attribute: Reply, init: Reply)

  datatype ApplyError =
    | Unreadable
    | NoPlan(error: PlanError)
    | Locked
    | InUse
    | Rejected(index: nat)
    | AttributeFailed
    | InitFailed
    | DoesNotReadBack

  // --- probing -----------------------------------------------------------------

  /** `read_descriptor`: the length comes from the descriptor's own first byte. */
  function ReadBytes(stored: seq<u8>): Option<seq<u8>> {
    if |stored| < 2 || stored[0] < 2 then None
    else if stored[0] <= |stored| then Some(stored[..stored[0]])
    else Some(stored + Zeros(stored[0] - |stored|))
  }

  function ReadConfig(d: Device, index: nat): (r: Option<Desc>)
    requires d.dev.Valid()
    ensures r.Some? ==> r.value.Valid()
  {
    if index !in d.config then None
    else
      match ReadBytes(d.config[index])
      case None => None
      case Some(bytes) =>
        if |bytes| < d.dev.ConfigDescLen() then None else Some(Desc(bytes, d.dev.base, d.dev.stride))
  }

  predicate AnyEnabled(d: Desc) {
    exists j :: 0 <= j < LUS && d.Lu(j).Enabled()
  }

  predicate HoldsLus(d: Device, index: nat)
    requires d.dev.Valid()
  {
    d.geo.maxNumberLu == MAX_NUMBER_LU_32 && ReadConfig(d, index).Some? && AnyEnabled(ReadConfig(d, index).value)
  }

  /** Indexes from 1 below `n` whose descriptors still hold enabled LUs. */
  function ExtraBelow(d: Device, n: nat): seq<nat>
    requires d.dev.Valid()
  {
    if n <= 1 then []
    else ExtraBelow(d, n - 1) + if HoldsLus(d, n - 1) then [n - 1] else []
  }

  function ExtraEnabled(d: Device): seq<nat>
    requires d.dev.Valid()
  {
    ExtraBelow(d, 4)
  }

  /** An empty descriptor marked "more to come". */
  function ClearDesc(dev: DeviceDescriptor): (r: Desc)
    requires dev.Valid()
    ensures r.Valid() && r.base == dev.base && r.stride == dev.stride && |r.bytes| == dev.ConfigDescLen()
  {
    var d := EmptyDesc(dev);
    d.(bytes := Splice(d.bytes, 0x02, [1]))
  }

  function ClearsFor(dev: DeviceDescriptor, extra: seq<nat>): seq<(nat, Desc)>
    requires dev.Valid()
  {
    seq(|extra|, i requires 0 <= i < |extra| => (extra[i], ClearDesc(dev)))
  }

  datatype Status = Status(plan: Plan, current: Desc, mismatches: seq<Mismatch>)

  predicate IsProvisioned(s: Status) {
    !HasCritical(s.mismatches)
  }

  ghost predicate Legal(d: Device, spec: Spec) {
    d.dev.Valid() && d.geo.Valid() && spec.Valid()
  }

  function ProbeOf(d: Device, spec: Spec): Result<Status, ApplyError>
    requires Legal(d, spec)
  {
    match ReadConfig(d, 0)
    case None => Failure(Unreadable)
    case Some(current) =>
      match PlanOf(spec, d.dev, d.geo)
      case Failure(e) => Failure(NoPlan(e))
      case Success(built) =>
        var extra := ExtraEnabled(d);
        var plan := built.(clear := ClearsFor(d.dev, extra));
        Success(Status(plan, current, CompareOf(plan, current, d.bootLunEn, extra)))
  }

  // --- the steps of apply ------------------------------------------------------

  function Send(d: Device, c: Command): Device {
    d.(commands := d.commands + [c])
  }

  /** Write one descriptor; one the device takes waits for `fDeviceInit`. */
  function WriteOf(d: Device, index: nat, bytes: seq<u8>, w: World): (bool, Device) {
    if |bytes| == 0 || |bytes| > 255 then (false, d)
    else
      var sent := Send(d, WriteConfig(index, bytes));
      if index in w.refuses then (false, sent)
      else (index !in w.loses, sent.(pending := sent.pending[index := bytes]))
  }

  function ClearsOf(d: Device, clear: seq<(nat, Desc)>, i: nat, w: World): (Option<ApplyError>, Device)
    requires i <= |clear|
    decreases |clear| - i
  {
    if i == |clear| then (None, d)
    else
      var (ok, next) := WriteOf(d, clear[i].0, clear[i].1.bytes, w);
      if ok then ClearsOf(next, clear, i + 1, w) else (Some(Rejected(clear[i].0)), next)
  }

  function DescriptorsOf(d: Device, plan: Plan, w: World): (Option<ApplyError>, Device) {
    var (error, cleared) := ClearsOf(d, plan.clear, 0, w);
    if error.Some? then (error, cleared)
    else
      var (ok, written) := WriteOf(cleared, 0, plan.descriptor.bytes, w);
      (if ok then None else Some(Rejected(0)), written)
  }

  /** The device puts pending descriptors into effect. */
  function Initialised(d: Device): Device {
    var sent := Send(d, SetDeviceInit);
    sent.(config := sent.config + sent.pending, pending := map[])
  }

  function SwitchOf(d: Device, value: u8, w: World): (Option<ApplyError>, Device) {
    var sent := Send(d, WriteBootLunEn(value));
    if w.attribute.Refused? then (Some(AttributeFailed), sent)
    else
      var switched := sent.(bootLunEn := value);
      if w.attribute.Lost? then (Some(AttributeFailed), switched)
      else if w.init.Refused? then (Some(InitFailed), Send(switched, SetDeviceInit))
      else (if w.init.Lost? then Some(InitFailed) else None, Initialised(switched))
  }

  /** Everything `apply` does to a device once it has decided to write. */
  function WriteAll(d: Device, plan: Plan, needsWrite: bool, w: World): (Option<ApplyError>, Device) {
    var (error, written) := if needsWrite then DescriptorsOf(d, plan, w) else (None, d);
    if error.Some? then (error, written) else SwitchOf(written, plan.bootLunEn, w)
  }

  lemma {:induction false} ClearsKeepParts(d: Device, clear: seq<(nat, Desc)>, i: nat, w: World)
    requires i <= |clear|
    ensures var r := ClearsOf(d, clear, i, w).1;
            r.dev == d.dev && r.geo == d.geo && r.locked == d.locked && r.config == d.config && r.bootLunEn == d.bootLunEn
    decreases |clear| - i
  {
    if i < |clear| {
      ClearsKeepParts(WriteOf(d, clear[i].0, clear[i].1.bytes, w).1, clear, i + 1, w);
    }
  }

  lemma WriteAllKeepsParts(d: Device, plan: Plan, needsWrite: bool, w: World)
    ensures var r := WriteAll(d, plan, needsWrite, w).1;
            r.dev == d.dev && r.geo == d.geo && r.locked == d.locked
  {
    ClearsKeepParts(d, plan.clear, 0, w);
  }

  function ApplyOf(d: Device, spec: Spec, w: World): (Result<(), ApplyError>, Device)
    requires Legal(d, spec)
  {
    match ProbeOf(d, spec)
    case Failure(e) => (Failure(e), d)
    case Success(status) =>
      var needsWrite := NeedsWrite(status.mismatches);
      if IsProvisioned(status) then (Success(()), d)
      else if d.locked && needsWrite then (Failure(Locked), d)
      else if w.inUse then (Failure(InUse), d)
      else if w.dryRun then (Success(()), d)
      else
        WriteAllKeepsParts(d, status.plan, needsWrite, w);
        var (error, after) := WriteAll(d, status.plan, needsWrite, w);
        if error.Some? then (Failure(error.value), after)
        else
          match ProbeOf(after, spec)
          case Failure(e) => (Failure(e), after)
          case Success(again) => (if IsProvisioned(again) then Success(()) else Failure(DoesNotReadBack), after)
  }

  // --- apply as a step sequence on the device ------------------------------------

  class UfsDevice {
    var state: Device

    constructor (initial: Device)
      ensures state == initial
    {
      state := initial;
    }

    /** The loop over descriptor indexes 1 to 3. */
    method ProbeExtra() returns (extra: seq<nat>)
      requires state.dev.Valid()
      ensures extra == ExtraEnabled(state)
    {
      hide HoldsLus;
      extra := [];
      for index := 1 to 4
        invariant extra == ExtraBelow(state, index)
      {
        if HoldsLus(state, index) {
          extra := extra + [index];
        }
      }
    }

    method Probe(spec: Spec) returns (r: Result<Status, ApplyError>)
      requires Legal(state, spec)
      ensures r == ProbeOf(state, spec)
    {
      hide PlanOf, CompareOf, ClearsFor, ReadConfig, ExtraEnabled;
      var current := ReadConfig(state, 0);
      if current.None? {
        return Failure(Unreadable);
      }
      var extra := ProbeExtra();
      var built := MakePlan(spec, state.dev, state.geo);
      if built.Failure? {
        return Failure(NoPlan(built.error));
      }
      var plan := built.value.(clear := ClearsFor(state.dev, extra));
      var mismatches := Compare(plan, current.value, state.bootLunEn, extra);
      return Success(Status(plan, current.value, mismatches));
    }

    method WriteDescriptor(index: nat, bytes: seq<u8>, w: World) returns (ok: bool)
      modifies this
      ensures (ok, state) == WriteOf(old(state), index, bytes, w)
    {
      if |bytes| == 0 || |bytes| > 255 {
        return false;
      }
      state := Send(state, WriteConfig(index, bytes));
      if index in w.refuses {
        return false;
      }
      state := state.(pending := state.pending[index := bytes]);
      return index !in w.loses;
    }

    method WriteDescriptors(plan: Plan, w: World) returns (error: Option<ApplyError>)
      modifies this
      ensures (error, state) == DescriptorsOf(old(state), plan, w)
    {
      for i := 0 to |plan.clear|
        invariant ClearsOf(state, plan.clear, i, w) == ClearsOf(old(state), plan.clear, 0, w)
      {
        var ok := WriteDescriptor(plan.clear[i].0, plan.clear[i].1.bytes, w);
        if !ok {
          return Some(Rejected(plan.clear[i].0));
        }
      }
      var ok := WriteDescriptor(0, plan.descriptor.bytes, w);
      return if ok then None else Some(Rejected(0));
    }

    method Switch(value: u8, w: World) returns (error: Option<ApplyError>)
      modifies this
      ensures (error, state) == SwitchOf(old(state), value, w)
    {
      state := Send(state, WriteBootLunEn(value));
      if w.attribute.Refused? {
        return Some(AttributeFailed);
      }
      state := state.(bootLunEn := value);
      if w.attribute.Lost? {
        return Some(AttributeFailed);
      }
      if w.init.Refused? {
        state := Send(state, SetDeviceInit);
        return Some(InitFailed);
      }
      state := Initialised(state);
      return if w.init.Lost? then Some(InitFailed) else None;
    }

    /** `apply`. */
    method Apply(spec: Spec, w: World) returns (r: Result<(), ApplyError>)
      requires Legal(state, spec)
      modifies this
      ensures (r, state) == ApplyOf(old(state), spec, w)
    {
      hide DescriptorsOf, SwitchOf, ProbeOf, HasCritical;
      var probed := Probe(spec);
      if probed.Failure? {
        return Failure(probed.error);
      }
      var status := probed.value;
      if IsProvisioned(status) {
        return Success(());
      }
      var needsWrite := NeedsWrite(status.mismatches);
      if state.locked && needsWrite {
        return Failure(Locked);
      }
      if w.inUse {
        return Failure(InUse);
      }
      if w.dryRun {
        return Success(());
      }
      WriteAllKeepsParts(state, status.plan, needsWrite, w);
      if needsWrite {
        var rejected := WriteDescriptors(status.plan, w);
        if rejected.Some? {
          return Failure(rejected.value);
        }
      }
      var failed := Switch(status.plan.bootLunEn, w);
      if failed.Some? {
        return Failure(failed.value);
      }
      var again := Probe(spec);
      if again.Failure? {
        return Failure(again.error);
      }
      return if IsProvisioned(again.value) then Success(()) else Failure(DoesNotReadBack);
    }
  }
}
