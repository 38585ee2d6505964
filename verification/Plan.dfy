/** Building the configuration descriptor that puts a scheme onto a device
    (src/core/provision.rs:286-607). */
module Planning {
  import opened Wrappers
  import opened Bytes
  import opened Ufs
  import opened SchemeModel

  /** `storage::MIN_TARGET_SIZE_BYTES`. */
  const MIN_TARGET: nat := 4 * 1024 * 1024 * 1024

  datatype Plan = Plan(descriptor: Desc, clear: seq<(nat, Desc)>, bootLunEn: u8)

  datatype PlanError =
    | UnknownWbSize
    | UnsupportedMemoryType(id: u8)
    | ZeroFactor(id: u8)
    | NoCapacity(used: nat)
    | OverCeiling(memoryType: u8)
    | UnitsOverflow(id: u8)
    | RemainderTooSmall(id: u8)

  function DivCeil(a: nat, b: nat): (r: nat)
    requires b > 0
    ensures r * b >= a && (r == 0 || (r - 1) * b < a)
  {
    DivCeilBounds(a, b);
    (a + b - 1) / b
  }

  lemma DivCeilBounds(a: nat, b: nat)
    requires b > 0
    ensures var r := (a + b - 1) / b; r >= 0 && r * b >= a && (r - 1) * b < a + (if a == 0 then b else 0)
  {
    var n := a + b - 1;
    assert n == (n / b) * b + n % b;
    assert 0 <= n % b < b;
  }

  /** `alloc_units_for`: ceiling to sectors, scaled, ceiling to units. */
  function AllocUnitsFor(sizeBytes: nat, factor: nat, unitSectors: nat): nat
    requires unitSectors > 0
  {
    DivCeil(DivCeil(sizeBytes, 512) * factor, unitSectors)
  }

  // --- WriteBooster -----------------------------------------------------------

  datatype Placement = NoBuffer | Shared | Dedicated

  datatype WbPlan = WbPlan(placement: Placement, units: u32, preserve: u8, cost: nat)

  const NO_WB: WbPlan := WbPlan(NoBuffer, 0, 0, 0)

  function WbRequested(spec: Spec, geo: GeometryDescriptor): Result<u32, PlanError>
    requires geo.Valid()
  {
    match spec.wb
    case Max => Success(geo.wbMaxAllocUnits)
    case UnknownKeyword => Failure(UnknownWbSize)
    case Sized(mib) =>
      var want := DivCeil(mib * MIB, geo.AllocUnitBytes());
      Success(if want < geo.wbMaxAllocUnits then want else geo.wbMaxAllocUnits)
  }

  function WbPlacement(spec: Spec, dev: DeviceDescriptor, geo: GeometryDescriptor): Placement {
    if !spec.dedicated && geo.SupportsShared() then Shared
    else if geo.wbBufferTypes != 0x01 && dev.LuBlockHasWriteBooster() then Dedicated
    else if geo.SupportsShared() then Shared
    else NoBuffer
  }

  function PlanWriteBooster(spec: Spec, dev: DeviceDescriptor, geo: GeometryDescriptor)
    : Result<WbPlan, PlanError>
    requires geo.Valid()
  {
    if !dev.WriteBoosterSupported() || geo.wbMaxAllocUnits == 0 then Success(NO_WB)
    else if spec.wb == Sized(0) then Success(NO_WB)
    else
      match WbRequested(spec, geo)
      case Failure(e) => Failure(e)
      case Success(requested) =>
        var preserve := if geo.CanPreserveUserSpace() then 1 else 0;
        var factor := if geo.wbCapAdjFac == 0 then 1 else geo.wbCapAdjFac;
        var cost := if preserve == 1 then 0 else requested * factor;
        var placement := WbPlacement(spec, dev, geo);
        if placement == NoBuffer then Success(NO_WB)
        else Success(WbPlan(placement, requested, preserve, cost))
  }

  // --- sizing -----------------------------------------------------------------

  /** A scheme LU and the allocation units it gets. */
  datatype Entry = Entry(lu: LuSpec, units: nat)

  function FixedUnits(lu: LuSpec, geo: GeometryDescriptor): Result<nat, PlanError>
    requires geo.Valid()
  {
    var memoryType := lu.memoryType;
    if !geo.SupportsMemoryType(memoryType) then Failure(UnsupportedMemoryType(lu.id))
    else match lu.sizeMib
      case None => Success(0)
      case Some(mib) =>
        match geo.CapAdj(memoryType)
        case None => Failure(ZeroFactor(lu.id))
        case Some(factor) => Success(AllocUnitsFor(mib * MIB, factor, geo.AllocUnitSectors()))
  }

  function SizeFrom(lus: seq<LuSpec>, geo: GeometryDescriptor, i: nat, acc: seq<Entry>)
    : Result<seq<Entry>, PlanError>
    requires geo.Valid() && i <= |lus|
    decreases |lus| - i
  {
    if i == |lus| then Success(acc)
    else
      match FixedUnits(lus[i], geo)
      case Failure(e) => Failure(e)
      case Success(n) => SizeFrom(lus, geo, i + 1, acc + [Entry(lus[i], n)])
  }

  function SumUnits(entries: seq<Entry>): nat {
    if entries == [] then 0 else SumUnits(entries[..|entries| - 1]) + entries[|entries| - 1].units
  }

  lemma SumOfNone()
    ensures SumUnits([]) == 0
  {
  }

  lemma SumUnitsAppend(entries: seq<Entry>, e: Entry)
    ensures SumUnits(entries + [e]) == SumUnits(entries) + e.units
  {
    assert (entries + [e])[..|entries|] == entries;
  }

  /** What all entries of one memory type take together. */
  function TypeUnits(entries: seq<Entry>, memoryType: u8): nat {
    if entries == [] then 0
    else
      var last := entries[|entries| - 1];
      TypeUnits(entries[..|entries| - 1], memoryType) + if last.lu.memoryType == memoryType then last.units else 0
  }

  function GiveRest(entries: seq<Entry>, rest: nat): (r: seq<Entry>)
    ensures |r| == |entries|
  {
    seq(|entries|, k requires 0 <= k < |entries| =>
      if entries[k].lu.sizeMib.None? then entries[k].(units := rest) else entries[k])
  }

  function CeilingsFrom(entries: seq<Entry>, geo: GeometryDescriptor, i: nat, acc: seq<(u8, u32)>): seq<(u8, u32)>
    requires geo.Valid() && i <= |entries|
    decreases |entries| - i
  {
    if i == |entries| then acc
    else
      var t := entries[i].lu.memoryType;
      var ceiling := geo.MaxAllocUnits(t);
      var known := exists k :: 0 <= k < |acc| && acc[k].0 == t;
      CeilingsFrom(entries, geo, i + 1, if known || ceiling.None? then acc else acc + [(t, ceiling.value)])
  }

  function FirstOver(ceilings: seq<(u8, u32)>, entries: seq<Entry>, i: nat): Option<u8>
    requires i <= |ceilings|
    decreases |ceilings| - i
  {
    if i == |ceilings| then None
    else if TypeUnits(entries, ceilings[i].0) > ceilings[i].1 then Some(ceilings[i].0)
    else FirstOver(ceilings, entries, i + 1)
  }

  // --- packing ----------------------------------------------------------------

  predicate CarriesBuffer(lu: LuSpec, wb: WbPlan) {
    wb.placement == Dedicated && lu.sizeMib.None? && lu.memoryType == NORMAL && lu.bootId == BOOT_NONE
  }

  /** The configuration an entry is given. */
  function Wanted(e: Entry, wb: WbPlan): LuConfig
    requires e.units < 0x1_0000_0000
  {
    LuConfig(
      1, e.lu.bootId, 0, e.lu.memoryType, e.units, if e.lu.reliable then 1 else 0,
      e.lu.exponent, e.lu.provisioning, 0, if CarriesBuffer(e.lu, wb) then wb.units else 0)
  }

  function PackFrom(entries: seq<Entry>, i: nat, d: Desc, wb: WbPlan, geo: GeometryDescriptor)
    : Result<Desc, PlanError>
    requires geo.Valid() && d.Valid() && i <= |entries|
    requires forall k :: 0 <= k < |entries| ==> entries[k].lu.id < LUS
    decreases |entries| - i
  {
    if i == |entries| then Success(d)
    else
      var e := entries[i];
      if e.units >= 0x1_0000_0000 then Failure(UnitsOverflow(e.lu.id))
      else
        var c := Wanted(e, wb);
        if e.lu.sizeMib.None? && c.SizeBytes(geo) < MIN_TARGET then Failure(RemainderTooSmall(e.lu.id))
        else PackFrom(entries, i + 1, WithLu(d, e.lu.id, c), wb, geo)
  }

  /** The header before any LU is packed. */
  function HeaderDesc(spec: Spec, dev: DeviceDescriptor, wb: WbPlan): (d: Desc)
    requires dev.Valid()
    ensures d.Valid() && d.base == dev.base && d.stride == dev.stride && |d.bytes| == dev.ConfigDescLen()
  {
    var d := WithHeader(EmptyDesc(dev), if spec.bootEnable then 1 else 0, 0x00, 0x01, 0x7F, 0x00, 0x00, 0x0000);
    match wb.placement
    case NoBuffer => d
    case Shared => WithSharedWb(d, wb.preserve, wb.units)
    case Dedicated => WithDedicatedWb(d, wb.preserve)
  }

  lemma {:induction false} SizeFromOk(lus: seq<LuSpec>, geo: GeometryDescriptor, i: nat, acc: seq<Entry>)
    requires geo.Valid() && i <= |lus|
    requires |acc| == i && forall k :: 0 <= k < i ==> acc[k].lu == lus[k]
    ensures SizeFrom(lus, geo, i, acc).Success? ==>
              var r := SizeFrom(lus, geo, i, acc).value;
              |r| == |lus| && acc <= r && forall k :: 0 <= k < |lus| ==> r[k].lu == lus[k]
    decreases |lus| - i
  {
    if i < |lus| && FixedUnits(lus[i], geo).Success? {
      SizeFromOk(lus, geo, i + 1, acc + [Entry(lus[i], FixedUnits(lus[i], geo).value)]);
    }
  }

  /** The sized entries of a plan, with the remainder handed out. */
  function EntriesOf(spec: Spec, geo: GeometryDescriptor, wb: WbPlan): (r: Result<seq<Entry>, PlanError>)
    requires geo.Valid() && spec.Valid()
    ensures r.Success? ==>
              |r.value| == |spec.lus| && forall k :: 0 <= k < |spec.lus| ==> r.value[k].lu == spec.lus[k]
  {
    SizeFromOk(spec.lus, geo, 0, []);
    match SizeFrom(spec.lus, geo, 0, [])
    case Failure(e) => Failure(e)
    case Success(entries) =>
      var used := wb.cost + SumUnits(entries);
      if used >= geo.TotalAllocUnits() then Failure(NoCapacity(used))
      else
        var sized := GiveRest(entries, geo.TotalAllocUnits() - used);
        match FirstOver(CeilingsFrom(sized, geo, 0, []), sized, 0)
        case Some(t) => Failure(OverCeiling(t))
        case None => Success(sized)
  }

  /** The whole planner as a function of scheme and device. */
  function PlanOf(spec: Spec, dev: DeviceDescriptor, geo: GeometryDescriptor): Result<Plan, PlanError>
    requires dev.Valid() && geo.Valid() && spec.Valid()
  {
    match PlanWriteBooster(spec, dev, geo)
    case Failure(e) => Failure(e)
    case Success(wb) =>
      match EntriesOf(spec, geo, wb)
      case Failure(e) => Failure(e)
      case Success(entries) =>
        match PackFrom(entries, 0, HeaderDesc(spec, dev, wb), wb, geo)
        case Failure(e) => Failure(e)
        case Success(d) => Success(Plan(d, [], spec.active))
  }

  // --- the planner ------------------------------------------------------------

  /** `memory_type_ceilings`: each type that publishes a ceiling, once. */
  method MemoryTypeCeilings(units: seq<Entry>, geo: GeometryDescriptor) returns (out: seq<(u8, u32)>)
    requires geo.Valid()
    ensures out == CeilingsFrom(units, geo, 0, [])
  {
    out := [];
    for i := 0 to |units|
      invariant CeilingsFrom(units, geo, i, out) == CeilingsFrom(units, geo, 0, [])
    {
      var t := units[i].lu.memoryType;
      if exists k :: 0 <= k < |out| && out[k].0 == t {
        continue;
      }
      match geo.MaxAllocUnits(t)
      case Some(ceiling) => out := out + [(t, ceiling)];
      case None =>
    }
  }

  method UnitsOfType(units: seq<Entry>, memoryType: u8) returns (wanted: nat)
    ensures wanted == TypeUnits(units, memoryType)
  {
    wanted := 0;
    for i := 0 to |units|
      invariant wanted == TypeUnits(units[..i], memoryType)
    {
      assert units[..i + 1][..i] == units[..i];
      if units[i].lu.memoryType == memoryType {
        wanted := wanted + units[i].units;
      }
    }
    assert units[..|units|] == units;
  }

  /** The body of the first loop: what one LU needs, zero for the one taking the rest. */
  method SizeOne(lu: LuSpec, geo: GeometryDescriptor) returns (r: Result<nat, PlanError>)
    requires geo.Valid()
    ensures r == FixedUnits(lu, geo)
  {
    var memoryType := lu.memoryType;
    if !geo.SupportsMemoryType(memoryType) {
      return Failure(UnsupportedMemoryType(lu.id));
    }
    if lu.sizeMib.None? {
      return Success(0);
    }
    var factor := geo.CapAdj(memoryType);
    if factor.None? {
      return Failure(ZeroFactor(lu.id));
    }
    return Success(AllocUnitsFor(lu.sizeMib.value * MIB, factor.value, geo.AllocUnitSectors()));
  }

  /** The first loop: memory type and fixed size of every LU, and what they use. */
  method SizeLus(spec: Spec, geo: GeometryDescriptor, cost: nat)
    returns (r: Result<(seq<Entry>, nat), PlanError>)
    requires geo.Valid() && spec.Valid()
    ensures r == match SizeFrom(spec.lus, geo, 0, [])
                 case Failure(e) => Failure(e)
                 case Success(entries) => Success((entries, cost + SumUnits(entries)))
  {
    hide FixedUnits, SumUnits;
    SumOfNone();
    var units: seq<Entry> := [];
    var used := cost;
    for i := 0 to |spec.lus|
      invariant |units| == i && forall k :: 0 <= k < i ==> units[k].lu == spec.lus[k]
      invariant used == cost + SumUnits(units)
      invariant SizeFrom(spec.lus, geo, i, units) == SizeFrom(spec.lus, geo, 0, [])
    {
      var lu := spec.lus[i];
      var sized := SizeOne(lu, geo);
      if sized.Failure? {
        return Failure(sized.error);
      }
      used := used + sized.value;
      SumUnitsAppend(units, Entry(lu, sized.value));
      units := units + [Entry(lu, sized.value)];
    }
    return Success((units, used));
  }

  /** The second loop: the remainder goes to the entry without a size. */
  method HandOutRest(entries: seq<Entry>, rest: nat) returns (units: seq<Entry>)
    ensures units == GiveRest(entries, rest)
  {
    units := entries;
    for i := 0 to |entries|
      invariant |units| == |entries|
      invariant forall k :: 0 <= k < i ==> units[k] == GiveRest(entries, rest)[k]
      invariant forall k :: i <= k < |entries| ==> units[k] == entries[k]
    {
      if units[i].lu.sizeMib.None? {
        units := units[i := units[i].(units := rest)];
      }
    }
  }

  method CheckCeilings(units: seq<Entry>, geo: GeometryDescriptor) returns (r: Result<(), PlanError>)
    requires geo.Valid()
    ensures r == match FirstOver(CeilingsFrom(units, geo, 0, []), units, 0)
                 case Some(t) => Failure(OverCeiling(t))
                 case None => Success(())
  {
    var ceilings := MemoryTypeCeilings(units, geo);
    for i := 0 to |ceilings|
      invariant FirstOver(ceilings, units, i) == FirstOver(ceilings, units, 0)
    {
      var wanted := UnitsOfType(units, ceilings[i].0);
      if wanted > ceilings[i].1 {
        return Failure(OverCeiling(ceilings[i].0));
      }
    }
    return Success(());
  }

  /** The packing loop: every entry into its block of the descriptor. */
  method Pack(d: ConfigDescriptor, units: seq<Entry>, wb: WbPlan, geo: GeometryDescriptor)
    returns (r: Result<(), PlanError>)
    requires geo.Valid() && d.Valid()
    requires forall k :: 0 <= k < |units| ==> units[k].lu.id < LUS
    modifies d.bytes
    ensures d.Valid()
    ensures match PackFrom(units, 0, old(d.Value()), wb, geo)
            case Failure(e) => r == Failure(e)
            case Success(v) => r == Success(()) && d.Value() == v
  {
    for i := 0 to |units|
      invariant d.Valid()
      invariant PackFrom(units, i, d.Value(), wb, geo) == PackFrom(units, 0, old(d.Value()), wb, geo)
    {
      var e := units[i];
      if e.units >= 0x1_0000_0000 {
        return Failure(UnitsOverflow(e.lu.id));
      }
      var c := Wanted(e, wb);
      if e.lu.sizeMib.None? && c.SizeBytes(geo) < MIN_TARGET {
        return Failure(RemainderTooSmall(e.lu.id));
      }
      d.SetLu(e.lu.id, c);
    }
    return Success(());
  }

  method SizeEntries(spec: Spec, geo: GeometryDescriptor, wb: WbPlan)
    returns (r: Result<seq<Entry>, PlanError>)
    requires geo.Valid() && spec.Valid()
    ensures r == EntriesOf(spec, geo, wb)
  {
    hide GiveRest, CeilingsFrom, FirstOver, SumUnits, FixedUnits, GeometryDescriptor.TotalAllocUnits;
    var sized := SizeLus(spec, geo, wb.cost);
    if sized.Failure? {
      return Failure(sized.error);
    }
    var (units, used) := sized.value;
    var total := geo.TotalAllocUnits();
    if used >= total {
      return Failure(NoCapacity(used));
    }
    units := HandOutRest(units, total - used);
    var checked := CheckCeilings(units, geo);
    if checked.Failure? {
      return Failure(checked.error);
    }
    return Success(units);
  }

  method BuildHeader(spec: Spec, dev: DeviceDescriptor, wb: WbPlan) returns (d: ConfigDescriptor)
    requires dev.Valid()
    ensures d.Valid() && fresh(d) && fresh(d.bytes) && d.Value() == HeaderDesc(spec, dev, wb)
  {
    d := new ConfigDescriptor(dev);
    d.SetHeader(if spec.bootEnable then 1 else 0, 0x00, 0x01, 0x7F, 0x00, 0x00, 0x0000);
    match wb.placement {
      case NoBuffer =>
      case Shared => d.SetSharedWriteBooster(wb.preserve, wb.units);
      case Dedicated => d.SetLuDedicatedWriteBooster(wb.preserve);
    }
  }

  /** `plan`. */
  method MakePlan(spec: Spec, dev: DeviceDescriptor, geo: GeometryDescriptor)
    returns (r: Result<Plan, PlanError>)
    requires dev.Valid() && geo.Valid() && spec.Valid()
    ensures r == PlanOf(spec, dev, geo)
  {
    var planned := PlanWriteBooster(spec, dev, geo);
    if planned.Failure? {
      return Failure(planned.error);
    }
    var wb := planned.value;
    var entries := SizeEntries(spec, geo, wb);
    if entries.Failure? {
      return Failure(entries.error);
    }
    var d := BuildHeader(spec, dev, wb);
    var packed := Pack(d, entries.value, wb, geo);
    if packed.Failure? {
      return Failure(packed.error);
    }
    return Success(Plan(d.Value(), [], spec.active));
  }
}
