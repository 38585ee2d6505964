/** Inputs the installer accepts on which a property one would expect does not hold. */
module Witnesses {
  import opened Wrappers
  import opened Bytes
  import opened Ufs
  import opened SchemeModel
  import opened Planning
  import opened PlanFacts
  import opened WriteBoosterFacts
  import opened Comparison
  import opened BuiltInScheme

  // --- a scheme that names no active side ---------------------------------------------

  /** The built-in scheme with its active boot LU set to none still validates and plans
      on the repository's 64 GB part, and its own bytes do not match it. */
  lemma NoActiveSideMismatches()
    ensures var spec := SchemeNaming(BOOT_NONE);
            && WRITTEN.(activeBootLu := "none").Valid() && SpecOf(WRITTEN.(activeBootLu := "none")) == spec
            && Planned(spec, FORESEE_DEVICE, FORESEE_GEOMETRY)
            && var plan := PlanOf(spec, FORESEE_DEVICE, FORESEE_GEOMETRY).value;
               CompareOf(plan, plan.descriptor, plan.bootLunEn, []) != []
  {
    WrittenIsBuiltIn();
    NoneDecodes();
    ForeseeSuits();
    BuiltInSchemePlans(BOOT_NONE, FORESEE_DEVICE, FORESEE_GEOMETRY);
    var spec := SchemeNaming(BOOT_NONE);
    PlanMatchesItselfExactly(spec, FORESEE_DEVICE, FORESEE_GEOMETRY);
    hide PlanOf, CompareOf, PlanWriteBooster, Suits;
    assert spec.lus[1].bootId == BOOT_A;
  }

  lemma NoneDecodes()
    requires WRITTEN.Valid() && SpecOf(WRITTEN) == SCHEME
    ensures var scheme := WRITTEN.(activeBootLu := "none");
            scheme.Valid() && SpecOf(scheme) == SchemeNaming(BOOT_NONE)
  {
    var scheme := WRITTEN.(activeBootLu := "none");
    NoneIsNone(scheme);
    hide SchemeLu.Ok, LuSpecOf, Scheme.BootLunEn;
    assert SpecOf(scheme).lus == SpecOf(WRITTEN).lus;
  }

  lemma NoneIsNone(scheme: Scheme)
    requires scheme.activeBootLu == "none"
    ensures scheme.BootLunEn() == Some(BOOT_NONE)
  {
    assert Text.ToUpper("none") == "NONE";
    assert |"NONE"| == 4;
  }

  // --- schemes of one LU ------------------------------------------------------------------

  function Lone(active: u8, dedicated: bool, id: u8, bootId: u8): Spec {
    Spec(true, active, Max, dedicated, [Lu(id, NORMAL, None, bootId)])
  }

  lemma LoneIsValid(active: u8, dedicated: bool, id: u8, bootId: u8)
    requires id < LUS && bootId <= BOOT_B && (active == BOOT_NONE || active == bootId)
    ensures Lone(active, dedicated, id, bootId).Valid()
  {
    var spec := Lone(active, dedicated, id, bootId);
    assert spec.lus[0].sizeMib.None? && OthersSized(spec.lus, 0);
    assert spec.lus[0].bootId == bootId;
  }

  lemma LoneEntries(spec: Spec, geo: GeometryDescriptor, wb: WbPlan)
    requires geo.Valid() && spec.Valid() && |spec.lus| == 1
    requires spec.lus[0].memoryType == NORMAL && spec.lus[0].sizeMib.None?
    requires geo.SupportsMemoryType(NORMAL) && wb.cost < geo.TotalAllocUnits()
    ensures EntriesOf(spec, geo, wb) == Success([Entry(spec.lus[0], geo.TotalAllocUnits() - wb.cost)])
  {
    var e := Entry(spec.lus[0], 0);
    var rest := geo.TotalAllocUnits() - wb.cost;
    var given := [Entry(spec.lus[0], rest)];
    hide GeometryDescriptor.TotalAllocUnits, GeometryDescriptor.SupportsMemoryType;
    assert FixedUnits(spec.lus[0], geo) == Success(0);
    assert [] + [e] == [e];
    assert SizeFrom(spec.lus, geo, 0, []) == SizeFrom(spec.lus, geo, 1, [e]);
    SumOfNone();
    SumUnitsAppend([], e);
    assert GiveRest([e], rest) == given;
    OthersUnused(given);
    CeilingCheckExact(given, geo);
    hide SizeFrom, FixedUnits, CeilingsFrom, FirstOver, TypeUnits, GeometryDescriptor.MaxAllocUnits;
    assert geo.MaxAllocUnits(NORMAL).None? by {
      NormalHasNoCeiling(geo);
    }
  }

  lemma NormalHasNoCeiling(geo: GeometryDescriptor)
    requires geo.Valid()
    ensures geo.MaxAllocUnits(NORMAL).None?
  {
  }

  lemma OthersUnused(entries: seq<Entry>)
    requires |entries| == 1 && entries[0].lu.memoryType == NORMAL
    ensures forall t: u8 :: t != NORMAL ==> TypeUnits(entries, t) == 0
  {
    forall t: u8 | t != NORMAL
      ensures TypeUnits(entries, t) == 0
    {
      UnusedTypeIsZero(entries, t);
    }
  }

  /** A scheme of one normal LU plans wherever the rest holds 4 GiB. */
  lemma LonePlans(spec: Spec, dev: DeviceDescriptor, geo: GeometryDescriptor)
    requires dev.Valid() && geo.Valid() && spec.Valid() && |spec.lus| == 1
    requires spec.lus[0].memoryType == NORMAL && spec.lus[0].sizeMib.None?
    requires geo.SupportsMemoryType(NORMAL) && geo.AllocUnitSectors() == 8192
    requires PlanWriteBooster(spec, dev, geo).Success?
    requires WbOf(spec, dev, geo).cost + 1024 <= geo.TotalAllocUnits() < 0x1_0000_0000
    ensures Planned(spec, dev, geo)
  {
    var wb := WbOf(spec, dev, geo);
    LoneEntries(spec, geo, wb);
    var entries := [Entry(spec.lus[0], geo.TotalAllocUnits() - wb.cost)];
    MainIsBigEnough(geo, Wanted(entries[0], wb));
    hide EntriesOf, PlanWriteBooster, GeometryDescriptor.TotalAllocUnits;
    PackSucceedsExactly(entries, 0, HeaderDesc(spec, dev, wb), wb, geo);
    hide PackFrom, HeaderDesc;
  }

  lemma ForeseeUnits(geo: GeometryDescriptor)
    requires geo == FORESEE_GEOMETRY.(wbUserSpaceTypes := geo.wbUserSpaceTypes)
    ensures geo.Valid() && geo.AllocUnitSectors() == 8192 && geo.TotalAllocUnits() == 15260
    ensures geo.SupportsMemoryType(NORMAL)
  {
    ForeseeSuits();
  }

  // --- a layout whose first LU starts inside the WriteBooster header ----------------------

  const LOW_DEVICE: DeviceDescriptor := DeviceDescriptor(0x10, 0x1A, 0xC002_0983)

  /** A device descriptor the parser accepts, with LU blocks from 0x10. */
  const LOW_BYTES: seq<u8> :=
    Zeros(0x1A) + [0x10, 0x1A] + Zeros(0x33) + [0xC0, 0x02, 0x09, 0x83]

  /** On that layout a scheme listing only LU 1, and flagging no boot LU, packs an LU 0
      that is enabled, carries units and is flagged as boot LU A; its own bytes do not
      match the plan. */
  lemma SpillEnablesLuZero()
    ensures ParseDevice(LOW_BYTES) == Success(LOW_DEVICE)
    ensures var spec := Lone(BOOT_NONE, false, 1, BOOT_NONE);
            && Planned(spec, LOW_DEVICE, FORESEE_GEOMETRY) && !spec.Claims(0)
            && var plan := PlanOf(spec, LOW_DEVICE, FORESEE_GEOMETRY).value;
               && plan.descriptor.Lu(0).Enabled()
               && plan.descriptor.Lu(0).units > 0 && plan.descriptor.Lu(0).bootLunId == BOOT_A
               && CompareOf(plan, plan.descriptor, plan.bootLunEn, []) != []
  {
    LowParses();
    var spec := Lone(BOOT_NONE, false, 1, BOOT_NONE);
    LoneIsValid(BOOT_NONE, false, 1, BOOT_NONE);
    LowBuffer(spec);
    var wb := WbOf(spec, LOW_DEVICE, FORESEE_GEOMETRY);
    ForeseeUnits(FORESEE_GEOMETRY);
    LonePlans(spec, LOW_DEVICE, FORESEE_GEOMETRY);
    SpillOfLow(wb);
    hide PlanOf, CompareOf, PlanWriteBooster, HeaderDesc, Desc.Lu, Spilled, SpillUnits, ParseDevice;
    UnclaimedKeepsHeader(spec, LOW_DEVICE, FORESEE_GEOMETRY, 0);
    HeaderSpill(spec, LOW_DEVICE, wb);
    HeaderUnits(spec, LOW_DEVICE, wb, 0);
    PlanMatchesItselfExactly(spec, LOW_DEVICE, FORESEE_GEOMETRY);
  }

  lemma LowParses()
    ensures ParseDevice(LOW_BYTES) == Success(LOW_DEVICE)
  {
    assert |LOW_BYTES| == 0x53;
    assert LOW_BYTES[0x1A] == 0x10 && LOW_BYTES[0x1B] == 0x1A;
    assert LOW_BYTES[0x4F] == 0xC0 && LOW_BYTES[0x50] == 0x02 && LOW_BYTES[0x51] == 0x09 && LOW_BYTES[0x52] == 0x83;
  }

  lemma LowBuffer(spec: Spec)
    requires spec.wb == Max && !spec.dedicated
    ensures PlanWriteBooster(spec, LOW_DEVICE, FORESEE_GEOMETRY) == Success(WbPlan(Shared, 3815, 1, 0))
  {
    assert LOW_DEVICE.extendedFeatures / 0x100 == 0xC00209;
  }

  lemma SpillOfLow(wb: WbPlan)
    requires wb == WbPlan(Shared, 3815, 1, 0)
    ensures Spilled(LOW_DEVICE, wb, 0) == 1 && Spilled(LOW_DEVICE, wb, 1) == BOOT_A
    ensures SpillUnits(LOW_DEVICE, wb) > 0
  {
    assert WbHeader(wb)[0] == 1 && WbHeader(wb)[1] == 1;
  }

  // --- a dedicated buffer nothing carries ---------------------------------------------------

  /** The 64 GB part, if it could not preserve user space. */
  const CHARGING_GEOMETRY: GeometryDescriptor := FORESEE_GEOMETRY.(wbUserSpaceTypes := 0)

  /** A scheme whose only LU is a boot LU, asking for a dedicated buffer, is charged
      11445 of the part's 15260 units for a buffer no LU carries. */
  lemma ChargedForNoBuffer()
    ensures var spec := Lone(BOOT_A, true, 0, BOOT_A);
            && Planned(spec, FORESEE_DEVICE, CHARGING_GEOMETRY)
            && WbOf(spec, FORESEE_DEVICE, CHARGING_GEOMETRY) == WbPlan(Dedicated, 3815, 0, 11445)
            && var d := PlanOf(spec, FORESEE_DEVICE, CHARGING_GEOMETRY).value.descriptor;
               forall j :: 0 <= j < LUS ==> d.Lu(j).wbUnits == 0
  {
    var spec := Lone(BOOT_A, true, 0, BOOT_A);
    LoneIsValid(BOOT_A, true, 0, BOOT_A);
    ChargedBuffer(spec);
    ForeseeUnits(CHARGING_GEOMETRY);
    LonePlans(spec, FORESEE_DEVICE, CHARGING_GEOMETRY);
    hide PlanOf, PlanWriteBooster, Desc.Lu;
    DedicatedBufferPlacedExactly(spec, FORESEE_DEVICE, CHARGING_GEOMETRY);
    assert !RemainderCanCarry(spec);
  }

  lemma ChargedBuffer(spec: Spec)
    requires spec.wb == Max && spec.dedicated
    ensures PlanWriteBooster(spec, FORESEE_DEVICE, CHARGING_GEOMETRY) == Success(WbPlan(Dedicated, 3815, 0, 11445))
  {
    assert FORESEE_DEVICE.extendedFeatures / 0x100 == 0xC00209;
  }
}
