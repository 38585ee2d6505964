/** The scheme compiled into the installer (config/flipperos-ufs.toml) on the devices it
    was written for: it plans, converges, and gives the layout provisioned by hand. */
module BuiltInScheme {
  import opened Wrappers
  import opened Bytes
  import opened Text
  import opened Arithmetic
  import opened Ufs
  import opened SchemeModel
  import opened Planning
  import opened PlanFacts
  import opened Reprovision
  import opened ReprovisionFacts

  const ENHANCED1: u8 := 0x03
  const THIN: u8 := 0x02

  function Lu(id: u8, memoryType: u8, sizeMib: Option<nat>, bootId: u8): LuSpec {
    LuSpec(id, memoryType, sizeMib, bootId, true, THIN, 12)
  }

  const LUS_LISTED: seq<LuSpec> :=
    [Lu(0, NORMAL, None, BOOT_NONE), Lu(1, ENHANCED1, Some(16), BOOT_A),
     Lu(2, ENHANCED1, Some(16), BOOT_B), Lu(3, ENHANCED1, Some(128), BOOT_NONE)]

  /** The scheme with a given active boot LU. */
  function SchemeNaming(active: u8): Spec {
    Spec(true, active, Max, false, LUS_LISTED)
  }

  const SCHEME: Spec := SchemeNaming(BOOT_A)

  lemma SchemeIsValid(active: u8)
    requires active <= BOOT_B
    ensures SchemeNaming(active).Valid() && SchemeNaming(active).Claims(0)
  {
    assert LUS_LISTED[0].sizeMib.None? && OthersSized(LUS_LISTED, 0);
    assert LUS_LISTED[1].bootId == BOOT_A && LUS_LISTED[2].bootId == BOOT_B && LUS_LISTED[0].id == 0;
  }

  // --- as written -------------------------------------------------------------------

  function Written(id: u8, memoryType: string, sizeMib: Option<nat>, bootLun: Option<string>): SchemeLu {
    SchemeLu(id, memoryType, sizeMib, bootLun, true, "thin", 4096)
  }

  const LUS_WRITTEN: seq<SchemeLu> :=
    [Written(0, "normal", None, None), Written(1, "enhanced1", Some(16), Some("A")),
     Written(2, "enhanced1", Some(16), Some("B")), Written(3, "enhanced1", Some(128), None)]

  /** The file's own names, with the defaults it leaves out. */
  const WRITTEN: Scheme := Scheme(true, "A", Keyword("max"), "shared", LUS_WRITTEN)

  lemma NamesDecode()
    ensures MemoryTypeFromName("normal") == Some(NORMAL) && MemoryTypeFromName("enhanced1") == Some(ENHANCED1)
    ensures ToUpper("thin") == "THIN" && ToUpper("A") == "A" && ToUpper("B") == "B" && "A" != "B"
    ensures EqIgnoreCase("max", "max") && !EqIgnoreCase("shared", "lu")
  {
    assert FindName("normal", 0) == Some(0);
    assert "enhanced1"[0] == 'e' && ToUpper("enhanced1")[0] == 'E' && |ToUpper("enhanced1")| == 9;
    assert ToUpper("normal")[0] == 'N' && |ToUpper("system code")| == 11 && |ToUpper("non-persistent")| == 14;
    assert FindName("enhanced1", 3) == Some(3);
    assert FindName("enhanced1", 2) == FindName("enhanced1", 3);
    assert FindName("enhanced1", 1) == FindName("enhanced1", 2);
    assert FindName("enhanced1", 0) == FindName("enhanced1", 1);
    assert |ToUpper("shared")| == 6 && |ToUpper("lu")| == 2;
  }

  lemma WrittenDecodes(lu: SchemeLu, memoryType: u8, bootId: u8)
    requires lu.id < LUS && lu.provisioning == "thin" && lu.blockSize == 4096
    requires MemoryTypeFromName(lu.memoryType) == Some(memoryType)
    requires lu.BootLunCode() == Some(bootId)
    ensures lu.Ok() && LuSpecOf(lu) == LuSpec(lu.id, memoryType, lu.sizeMib, bootId, lu.dataReliability, THIN, 12)
  {
    NamesDecode();
    hide MemoryTypeFromName, SchemeLu.BootLunCode;
    BlockExponentExact(4096, 12);
  }

  /** The built-in file is a valid scheme and stands for `SCHEME`. */
  lemma WrittenIsBuiltIn()
    ensures WRITTEN.Valid() && SpecOf(WRITTEN) == SCHEME
  {
    NamesDecode();
    hide MemoryTypeFromName, ToUpper, SchemeLu.ProvisioningCode, SchemeLu.BlockExponent;
    var w := LUS_WRITTEN;
    assert w[0].BootLunCode() == w[3].BootLunCode() == Some(BOOT_NONE);
    assert w[1].BootLunCode() == Some(BOOT_A) && w[2].BootLunCode() == Some(BOOT_B);
    WrittenDecodes(w[0], NORMAL, BOOT_NONE);
    WrittenDecodes(w[1], ENHANCED1, BOOT_A);
    WrittenDecodes(w[2], ENHANCED1, BOOT_B);
    WrittenDecodes(w[3], ENHANCED1, BOOT_NONE);
    assert WRITTEN.BootLunEn() == Some(BOOT_A);
    assert WRITTEN.Flags(BOOT_A);
    assert w[0].sizeMib.None? && SizedExcept(w, 0);
    hide SchemeLu.Ok, LuSpecOf, SchemeLu.BootLunCode, Scheme.BootLunEn;
    assert forall k :: 0 <= k < |w| ==> w[k].Ok();
    assert SpecOf(WRITTEN).lus == LUS_LISTED;
  }

  // --- where it fits ------------------------------------------------------------------

  /** A part with 4 MiB allocation units whose enhanced memory costs three units for
      one, with room for the fixed LUs, for 4 GiB besides, and for the WriteBooster
      without charging for it. */
  ghost predicate Suits(dev: DeviceDescriptor, geo: GeometryDescriptor) {
    && dev.Valid() && geo.Valid()
    && geo.AllocUnitSectors() == 8192
    && geo.SupportsMemoryType(NORMAL) && geo.SupportsMemoryType(ENHANCED1)
    && geo.CapAdj(ENHANCED1) == Some(3)
    && geo.MaxAllocUnits(ENHANCED1).Some? && geo.MaxAllocUnits(ENHANCED1).value >= 120
    && geo.CanPreserveUserSpace()
    && 120 + 1024 <= geo.TotalAllocUnits() < 0x1_0000_0000
  }

  function Entries(rest: nat): seq<Entry> {
    [Entry(LUS_LISTED[0], rest), Entry(LUS_LISTED[1], 12), Entry(LUS_LISTED[2], 12), Entry(LUS_LISTED[3], 96)]
  }

  lemma FixedSizes()
    ensures AllocUnitsFor(16 * MIB, 3, 8192) == 12
    ensures AllocUnitsFor(128 * MIB, 3, 8192) == 96
  {
    assert 16 * MIB == 32768 * 512 && 128 * MIB == 262144 * 512;
    DivCeilExact(32768, 512);
    DivCeilExact(262144, 512);
    DivCeilExact(12, 8192);
    DivCeilExact(96, 8192);
  }

  lemma Sizes(geo: GeometryDescriptor)
    requires geo.Valid() && geo.AllocUnitSectors() == 8192 && geo.CapAdj(ENHANCED1) == Some(3)
    requires geo.SupportsMemoryType(NORMAL) && geo.SupportsMemoryType(ENHANCED1)
    ensures SizeFrom(LUS_LISTED, geo, 0, []) == Success(Entries(0))
  {
    FixedSizes();
    hide GeometryDescriptor.SupportsMemoryType, GeometryDescriptor.CapAdj, GeometryDescriptor.AllocUnitSectors, AllocUnitsFor;
    var e := Entries(0);
    assert FixedUnits(LUS_LISTED[0], geo) == Success(0);
    assert FixedUnits(LUS_LISTED[1], geo) == FixedUnits(LUS_LISTED[2], geo) == Success(12);
    assert FixedUnits(LUS_LISTED[3], geo) == Success(96);
    hide FixedUnits;
    assert e[..3] + [e[3]] == e && e[..2] + [e[2]] == e[..3] && e[..1] + [e[1]] == e[..2] && [] + [e[0]] == e[..1];
    assert SizeFrom(LUS_LISTED, geo, 3, e[..3]) == SizeFrom(LUS_LISTED, geo, 4, e);
    assert SizeFrom(LUS_LISTED, geo, 2, e[..2]) == SizeFrom(LUS_LISTED, geo, 3, e[..3]);
    assert SizeFrom(LUS_LISTED, geo, 1, e[..1]) == SizeFrom(LUS_LISTED, geo, 2, e[..2]);
  }

  lemma InOrder(rest: nat)
    ensures var e := Entries(rest); [] + [e[0]] + [e[1]] + [e[2]] + [e[3]] == e
  {
  }

  lemma TypeUnitsAppend(entries: seq<Entry>, e: Entry, t: u8)
    ensures TypeUnits(entries + [e], t) == TypeUnits(entries, t) + if e.lu.memoryType == t then e.units else 0
  {
    assert (entries + [e])[..|entries|] == entries;
  }

  lemma TotalsOf(rest: nat, t: u8)
    ensures SumUnits(Entries(rest)) == rest + 120
    ensures TypeUnits(Entries(rest), t) == if t == NORMAL then rest else if t == ENHANCED1 then 120 else 0
  {
    var e := Entries(rest);
    InOrder(rest);
    SumOfNone();
    assert TypeUnits([], t) == 0;
    hide SumUnits, TypeUnits;
    SumUnitsAppend([], e[0]);
    SumUnitsAppend([] + [e[0]], e[1]);
    SumUnitsAppend([] + [e[0]] + [e[1]], e[2]);
    SumUnitsAppend([] + [e[0]] + [e[1]] + [e[2]], e[3]);
    TypeUnitsAppend([], e[0], t);
    TypeUnitsAppend([] + [e[0]], e[1], t);
    TypeUnitsAppend([] + [e[0]] + [e[1]], e[2], t);
    TypeUnitsAppend([] + [e[0]] + [e[1]] + [e[2]], e[3], t);
  }

  lemma Sums(rest: nat)
    ensures SumUnits(Entries(rest)) == rest + 120
    ensures forall t: u8 ::
              TypeUnits(Entries(rest), t) == if t == NORMAL then rest else if t == ENHANCED1 then 120 else 0
    ensures GiveRest(Entries(0), rest) == Entries(rest)
    ensures Packable(Entries(rest))
  {
    hide SumUnits, TypeUnits;
    TotalsOf(rest, NORMAL);
    forall t: u8
      ensures TypeUnits(Entries(rest), t) == if t == NORMAL then rest else if t == ENHANCED1 then 120 else 0
    {
      TotalsOf(rest, t);
    }
  }

  lemma EntriesFound(active: u8, dev: DeviceDescriptor, geo: GeometryDescriptor)
    requires Suits(dev, geo) && active <= BOOT_B
    ensures var spec := SchemeNaming(active);
            && spec.Valid() && PlanWriteBooster(spec, dev, geo).Success?
            && EntriesOf(spec, geo, WbOf(spec, dev, geo)) == Success(Entries(geo.TotalAllocUnits() - 120))
  {
    SchemeIsValid(active);
    var rest := geo.TotalAllocUnits() - 120;
    Sizes(geo);
    Sums(0);
    Sums(rest);
    assert WbOf(SchemeNaming(active), dev, geo).cost == 0;
    CeilingCheckExact(Entries(rest), geo);
    assert WithinCeilings(Entries(rest), geo);
    hide SizeFrom, SumUnits, GiveRest, CeilingsFrom, FirstOver, TypeUnits, PlanWriteBooster, GeometryDescriptor.TotalAllocUnits;
  }

  /** The built-in scheme plans on every such part, gives the boot LUs 12 units and the
      recovery LU 96, as provisioned by hand, and the main LU everything else. */
  lemma BuiltInSchemePlans(active: u8, dev: DeviceDescriptor, geo: GeometryDescriptor)
    requires Suits(dev, geo) && active <= BOOT_B
    ensures var spec := SchemeNaming(active);
            && Planned(spec, dev, geo)
            && var d := PlanOf(spec, dev, geo).value.descriptor;
               && d.Lu(0).units == geo.TotalAllocUnits() - 120
               && d.Lu(1).units == 12 && d.Lu(2).units == 12 && d.Lu(3).units == 96
  {
    var spec := SchemeNaming(active);
    EntriesFound(active, dev, geo);
    var entries := Entries(geo.TotalAllocUnits() - 120);
    var wb := WbOf(spec, dev, geo);
    Sums(geo.TotalAllocUnits() - 120);
    MainIsBigEnough(geo, Wanted(entries[0], wb));
    hide EntriesOf, PlanWriteBooster, GeometryDescriptor.TotalAllocUnits;
    PackSucceedsExactly(entries, 0, HeaderDesc(spec, dev, wb), wb, geo);
    hide PackFrom, HeaderDesc;
    assert Planned(spec, dev, geo);
    Decoded(active, dev, geo, 0);
    Decoded(active, dev, geo, 1);
    Decoded(active, dev, geo, 2);
    Decoded(active, dev, geo, 3);
  }

  lemma MainIsBigEnough(geo: GeometryDescriptor, c: LuConfig)
    requires geo.Valid() && geo.AllocUnitSectors() == 8192 && c.memoryType == NORMAL && c.units >= 1024
    ensures c.SizeBytes(geo) >= MIN_TARGET
  {
    Scale(1024, c.units, 8192 * 512);
  }

  lemma Decoded(active: u8, dev: DeviceDescriptor, geo: GeometryDescriptor, k: nat)
    requires Suits(dev, geo) && active <= BOOT_B && Planned(SchemeNaming(active), dev, geo) && k < 4
    ensures PlanOf(SchemeNaming(active), dev, geo).value.descriptor.Lu(k).units
            == Entries(geo.TotalAllocUnits() - 120)[k].units
  {
    EntriesFound(active, dev, geo);
    PlanDecodes(SchemeNaming(active), dev, geo, k);
    hide PlanOf, EntriesOf, PlanWriteBooster, LuAt, GeometryDescriptor.TotalAllocUnits, LuConfig.SizeBytes;
    ClaimOf(Entries(geo.TotalAllocUnits() - 120), k);
  }

  /** A part that has never been provisioned holds an empty descriptor. */
  ghost predicate Blank(d: Device) {
    && d.dev.Valid() && d.dev.ConfigDescLen() <= 255
    && 0 in d.config && d.config[0] == EmptyDesc(d.dev).bytes
    && d.pending == map[] && !d.locked
  }

  lemma BlankIsSound(d: Device, spec: Spec)
    requires Blank(d) && Planned(spec, d.dev, d.geo)
    ensures Legal(d, spec) && Sound(d, spec)
  {
    var bytes := EmptyDesc(d.dev).bytes;
    assert |bytes| == d.dev.ConfigDescLen() && bytes[0] == |bytes|;
    ReadsBack(bytes);
    hide PlanOf, EmptyDesc, ReadBytes;
  }

  /** One undisturbed `apply` after any number of failed ones provisions a blank part
      of this kind. */
  lemma BlankPartIsProvisioned(d: Device, ws: seq<World>, w: World)
    requires Suits(d.dev, d.geo) && Blank(d) && Faultless(w)
    ensures Legal(d, SCHEME) && Sound(d, SCHEME)
    ensures var before := ApplyAll(d, SCHEME, ws, |ws|);
            && before.dev == d.dev && before.geo == d.geo
            && ApplyOf(before, SCHEME, w).0.Success?
            && ApplyOf(before, SCHEME, w).1.dev == d.dev && ApplyOf(before, SCHEME, w).1.geo == d.geo
            && Provisioned(ApplyOf(before, SCHEME, w).1, SCHEME)
  {
    BuiltInSchemePlans(BOOT_A, d.dev, d.geo);
    BlankIsSound(d, SCHEME);
    hide PlanOf, Suits, PlanWriteBooster, Blank, Sound, Faultless, ApplyAll, ApplyOf, Provisioned, ExtraEnabled, Spec.Valid;
    ConvergesAfterAnyHistory(d, SCHEME, ws, w);
  }

  /** The 64 GB Foresee part of the repository's tests. */
  const FORESEE_DEVICE: DeviceDescriptor := DeviceDescriptor(0x16, 0x1A, 0xC002_0983)

  const FORESEE_GEOMETRY: GeometryDescriptor :=
    GeometryDescriptor(125009920, 1, 8192, 1, 0x8009, [0, 0, 0, 7486, 0, 0, 0], [0, 0, 0, 768, 0, 0, 0], 3815, 3, 1, 2)

  lemma ForeseeSuits()
    ensures Suits(FORESEE_DEVICE, FORESEE_GEOMETRY)
    ensures FORESEE_GEOMETRY.TotalAllocUnits() == 15260
  {
    var g := FORESEE_GEOMETRY;
    assert g.AllocUnitSectors() == 8192 * 1;
    assert 125009920 / 8192 == 15260;
    MemoryTypeIndexIsCode(NORMAL);
    MemoryTypeIndexIsCode(ENHANCED1);
    assert 0x8009 / 1 % 2 == 1 && 0x8009 / 8 % 2 == 1;
    assert 768 / 256 == 3;
  }
}
