/** What a successful plan guarantees: optimal sizing, conservation of allocation
    units, ceilings, and that the packed bytes decode to what was planned. */
module PlanFacts {
  import opened Wrappers
  import opened Bytes
  import opened Arithmetic
  import opened Ufs
  import opened SchemeModel
  import opened Planning

  // --- sizing is optimal ------------------------------------------------------

  lemma CeilAtMost(a: nat, d: nat, n: nat)
    requires d > 0
    ensures DivCeil(a, d) <= n <==> a <= n * d
  {
    var r: int := DivCeil(a, d);
    Scale(r, n, d);
    Scale(n, r - 1, d);
  }

  lemma DivCeilExact(k: nat, d: nat)
    requires d > 0
    ensures DivCeil(k * d, d) == k
  {
    CeilAtMost(k * d, d, k);
    Scale(DivCeil(k * d, d), k, d);
  }

  lemma ScaledCompare(n: nat, sectors: nat, s: nat, adj: nat)
    ensures n * (sectors * 512) >= (512 * s) * adj <==> s * adj <= n * sectors
  {
    assert n * (sectors * 512) == 512 * (n * sectors);
    assert (512 * s) * adj == 512 * (s * adj);
  }

  /** A count is enough for a size exactly when it is at least the computed one: the
      computed count is the least sufficient, for sizes in whole sectors. */
  lemma AllocUnitsLeast(sectors: nat, geo: GeometryDescriptor, c: LuConfig)
    requires geo.Valid() && geo.CapAdj(c.memoryType).Some?
    ensures c.SizeBytes(geo) >= 512 * sectors
            <==> c.units >= AllocUnitsFor(512 * sectors, geo.CapAdj(c.memoryType).value, geo.AllocUnitSectors())
  {
    var adj := geo.CapAdj(c.memoryType).value;
    var au := geo.AllocUnitSectors();
    DivCeilExact(sectors, 512);
    FloorAtLeast(c.units * geo.AllocUnitBytes(), adj, 512 * sectors);
    ScaledCompare(c.units, au, sectors, adj);
    CeilAtMost(sectors * adj, au, c.units);
  }

  /** `alloc_units_for` on the sizes a scheme can name. */
  lemma AllocUnitsOptimal(mib: nat, geo: GeometryDescriptor, c: LuConfig)
    requires geo.Valid() && geo.CapAdj(c.memoryType).Some?
    ensures c.SizeBytes(geo) >= mib * MIB
            <==> c.units >= AllocUnitsFor(mib * MIB, geo.CapAdj(c.memoryType).value, geo.AllocUnitSectors())
  {
    assert mib * MIB == 512 * (mib * 2048);
    AllocUnitsLeast(mib * 2048, geo, c);
  }

  lemma CeilScale(a: nat, d: nat, f: nat, n: nat)
    requires d > 0
    ensures n >= DivCeil(a, d) * f ==> n * d >= a * f
  {
    if n >= DivCeil(a, d) * f {
      CeilAtMost(a, d, DivCeil(a, d));
      Scale(DivCeil(a, d) * f, n, d);
      Scale(a, DivCeil(a, d) * d, f);
      assert DivCeil(a, d) * d * f == DivCeil(a, d) * f * d;
    }
  }

  /** For a size in any number of bytes a count is enough exactly when it covers the
      scaled bytes, and the computed count always is. */
  lemma AllocUnitsSuffice(bytes: nat, geo: GeometryDescriptor, c: LuConfig)
    requires geo.Valid() && geo.CapAdj(c.memoryType).Some?
    ensures c.SizeBytes(geo) >= bytes <==> c.units * geo.AllocUnitBytes() >= bytes * geo.CapAdj(c.memoryType).value
    ensures c.units >= AllocUnitsFor(bytes, geo.CapAdj(c.memoryType).value, geo.AllocUnitSectors()) ==>
              c.SizeBytes(geo) >= bytes
  {
    var adj := geo.CapAdj(c.memoryType).value;
    var au := geo.AllocUnitSectors();
    FloorAtLeast(c.units * geo.AllocUnitBytes(), adj, bytes);
    CeilAtMost(DivCeil(bytes, 512) * adj, au, c.units);
    CeilScale(bytes, 512, adj, c.units * au);
    assert c.units * geo.AllocUnitBytes() == c.units * au * 512;
  }

  // --- entries ---------------------------------------------------------------

  ghost predicate EntryOf(e: Entry, lu: LuSpec, geo: GeometryDescriptor, rest: nat)
    requires geo.Valid()
  {
    && e.lu == lu
    && geo.SupportsMemoryType(e.lu.memoryType)
    && (lu.sizeMib.None? ==> e.units == rest)
    && (lu.sizeMib.Some? ==>
          && geo.CapAdj(e.lu.memoryType).Some?
          && e.units == AllocUnitsFor(lu.sizeMib.value * MIB, geo.CapAdj(e.lu.memoryType).value, geo.AllocUnitSectors()))
  }

  ghost predicate AllEntries(entries: seq<Entry>, lus: seq<LuSpec>, geo: GeometryDescriptor, rest: nat)
    requires geo.Valid()
  {
    |entries| <= |lus| && forall k :: 0 <= k < |entries| ==> EntryOf(entries[k], lus[k], geo, rest)
  }

  lemma {:induction false} SizeFromEntries(lus: seq<LuSpec>, geo: GeometryDescriptor, i: nat, acc: seq<Entry>)
    requires geo.Valid() && i <= |lus|
    requires |acc| == i && AllEntries(acc, lus, geo, 0)
    ensures SizeFrom(lus, geo, i, acc).Success? ==>
              |SizeFrom(lus, geo, i, acc).value| == |lus| && AllEntries(SizeFrom(lus, geo, i, acc).value, lus, geo, 0)
    decreases |lus| - i
  {
    if i < |lus| && FixedUnits(lus[i], geo).Success? {
      var e := Entry(lus[i], FixedUnits(lus[i], geo).value);
      assert EntryOf(e, lus[i], geo, 0);
      SizeFromEntries(lus, geo, i + 1, acc + [e]);
    }
  }

  /** Handing the rest to the entries without a size adds it once for each of them. */
  lemma {:induction false} SumAfterRest(entries: seq<Entry>, rest: nat)
    requires forall k :: 0 <= k < |entries| && entries[k].lu.sizeMib.None? ==> entries[k].units == 0
    ensures SumUnits(GiveRest(entries, rest))
            == SumUnits(entries) + rest * UnsizedEntries(entries)
  {
    if entries != [] {
      var n := |entries| - 1;
      SumAfterRest(entries[..n], rest);
      assert GiveRest(entries, rest)[..n] == GiveRest(entries[..n], rest);
      assert rest * (UnsizedEntries(entries[..n]) + 1) == rest * UnsizedEntries(entries[..n]) + rest;
    }
  }

  function UnsizedEntries(entries: seq<Entry>): nat {
    if entries == [] then 0
    else UnsizedEntries(entries[..|entries| - 1]) + (if entries[|entries| - 1].lu.sizeMib.None? then 1 else 0)
  }

  lemma {:induction false} UnsizedEntryAt(entries: seq<Entry>, k: nat)
    requires k < |entries| && entries[k].lu.sizeMib.None?
    requires forall j :: 0 <= j < |entries| && j != k ==> entries[j].lu.sizeMib.Some?
    ensures UnsizedEntries(entries) == 1
  {
    var n := |entries| - 1;
    if k < n {
      UnsizedEntryAt(entries[..n], k);
    } else {
      NoUnsizedEntry(entries[..n]);
    }
  }

  lemma {:induction false} NoUnsizedEntry(entries: seq<Entry>)
    requires forall j :: 0 <= j < |entries| ==> entries[j].lu.sizeMib.Some?
    ensures UnsizedEntries(entries) == 0
  {
    if entries != [] {
      NoUnsizedEntry(entries[..|entries| - 1]);
    }
  }

  lemma GiveRestEntries(entries: seq<Entry>, lus: seq<LuSpec>, geo: GeometryDescriptor, rest: nat)
    requires geo.Valid()
    requires |entries| == |lus| && AllEntries(entries, lus, geo, 0)
    ensures AllEntries(GiveRest(entries, rest), lus, geo, rest)
  {
    forall k | 0 <= k < |entries|
      ensures EntryOf(GiveRest(entries, rest)[k], lus[k], geo, rest)
    {
      assert EntryOf(entries[k], lus[k], geo, 0);
    }
  }

  ghost function RestOf(spec: Spec, geo: GeometryDescriptor, wb: WbPlan): nat
    requires geo.Valid() && spec.Valid() && EntriesOf(spec, geo, wb).Success?
  {
    SizeFromOk(spec.lus, geo, 0, []);
    geo.TotalAllocUnits() - (wb.cost + SumUnits(SizeFrom(spec.lus, geo, 0, []).value))
  }

  lemma RestHandedOut(entries: seq<Entry>, lus: seq<LuSpec>, geo: GeometryDescriptor, rest: nat)
    requires geo.Valid()
    requires |entries| == |lus| && AllEntries(entries, lus, geo, 0) && OneRemainder(lus)
    ensures SumUnits(GiveRest(entries, rest)) == SumUnits(entries) + rest
    ensures AllEntries(GiveRest(entries, rest), lus, geo, rest)
  {
    hide AllocUnitsFor;
    forall k | 0 <= k < |entries|
      ensures entries[k].lu == lus[k] && (entries[k].lu.sizeMib.None? ==> entries[k].units == 0)
    {
      assert EntryOf(entries[k], lus[k], geo, 0);
    }
    SumAfterRest(entries, rest);
    var k :| 0 <= k < |lus| && lus[k].sizeMib.None? && OthersSized(lus, k);
    UnsizedEntryAt(entries, k);
    GiveRestEntries(entries, lus, geo, rest);
  }

  /** Every unit is handed out once: the entries and the buffer's cost add up to the
      device, and the LU taking the rest gets something. */
  lemma EntriesConserve(spec: Spec, geo: GeometryDescriptor, wb: WbPlan)
    requires geo.Valid() && spec.Valid() && EntriesOf(spec, geo, wb).Success?
    ensures SumUnits(EntriesOf(spec, geo, wb).value) + wb.cost == geo.TotalAllocUnits()
    ensures RestOf(spec, geo, wb) > 0
    ensures AllEntries(EntriesOf(spec, geo, wb).value, spec.lus, geo, RestOf(spec, geo, wb))
  {
    hide FixedUnits, GeometryDescriptor.TotalAllocUnits, FirstOver, CeilingsFrom;
    hide AllEntries, GiveRest, SumUnits, SizeFrom;
    assert AllEntries([], spec.lus, geo, 0) by {
      NoEntries(spec.lus, geo);
    }
    SizeFromOk(spec.lus, geo, 0, []);
    SizeFromEntries(spec.lus, geo, 0, []);
    RestHandedOut(SizeFrom(spec.lus, geo, 0, []).value, spec.lus, geo, RestOf(spec, geo, wb));
  }

  lemma NoEntries(lus: seq<LuSpec>, geo: GeometryDescriptor)
    requires geo.Valid()
    ensures AllEntries([], lus, geo, 0)
  {
  }

  // --- ceilings --------------------------------------------------------------

  ghost predicate Lists(ceilings: seq<(u8, u32)>, t: u8) {
    exists k :: 0 <= k < |ceilings| && ceilings[k].0 == t
  }

  ghost predicate Genuine(ceilings: seq<(u8, u32)>, geo: GeometryDescriptor)
    requires geo.Valid()
  {
    forall k :: 0 <= k < |ceilings| ==> geo.MaxAllocUnits(ceilings[k].0) == Some(ceilings[k].1)
  }

  ghost predicate Covers(ceilings: seq<(u8, u32)>, entries: seq<Entry>, geo: GeometryDescriptor, n: nat)
    requires geo.Valid() && n <= |entries|
  {
    forall k :: 0 <= k < n && geo.MaxAllocUnits(entries[k].lu.memoryType).Some? ==> Lists(ceilings, entries[k].lu.memoryType)
  }

  lemma CeilingAdded(acc: seq<(u8, u32)>, entries: seq<Entry>, geo: GeometryDescriptor, i: nat, ceiling: u32)
    requires geo.Valid() && i < |entries| && Genuine(acc, geo) && Covers(acc, entries, geo, i)
    requires geo.MaxAllocUnits(entries[i].lu.memoryType) == Some(ceiling)
    ensures Genuine(acc + [(entries[i].lu.memoryType, ceiling)], geo)
    ensures Covers(acc + [(entries[i].lu.memoryType, ceiling)], entries, geo, i + 1)
  {
    hide GeometryDescriptor.MaxAllocUnits;
    var t := entries[i].lu.memoryType;
    var r := acc + [(t, ceiling)];
    assert r[|acc|].0 == t;
    forall k | 0 <= k < i && Lists(acc, entries[k].lu.memoryType)
      ensures Lists(r, entries[k].lu.memoryType)
    {
      var m :| 0 <= m < |acc| && acc[m].0 == entries[k].lu.memoryType;
      assert r[m].0 == entries[k].lu.memoryType;
    }
  }

  /** The find-or-insert loop lists every type that publishes a ceiling, with it. */
  lemma {:induction false} CeilingsComplete(entries: seq<Entry>, geo: GeometryDescriptor, i: nat, acc: seq<(u8, u32)>)
    requires geo.Valid() && i <= |entries| && Genuine(acc, geo) && Covers(acc, entries, geo, i)
    ensures Genuine(CeilingsFrom(entries, geo, i, acc), geo)
    ensures Covers(CeilingsFrom(entries, geo, i, acc), entries, geo, |entries|)
    decreases |entries| - i
  {
    hide GeometryDescriptor.MaxAllocUnits, Genuine;
    if i < |entries| {
      var t := entries[i].lu.memoryType;
      var ceiling := geo.MaxAllocUnits(t);
      if Lists(acc, t) || ceiling.None? {
        CeilingsComplete(entries, geo, i + 1, acc);
      } else {
        CeilingAdded(acc, entries, geo, i, ceiling.value);
        CeilingsComplete(entries, geo, i + 1, acc + [(t, ceiling.value)]);
      }
    }
  }

  lemma {:induction false} NoneOver(ceilings: seq<(u8, u32)>, entries: seq<Entry>, i: nat)
    requires i <= |ceilings|
    ensures FirstOver(ceilings, entries, i).None?
            <==> forall k :: i <= k < |ceilings| ==> TypeUnits(entries, ceilings[k].0) <= ceilings[k].1
    decreases |ceilings| - i
  {
    if i < |ceilings| {
      NoneOver(ceilings, entries, i + 1);
    }
  }

  lemma {:induction false} UnusedTypeIsZero(entries: seq<Entry>, t: u8)
    requires forall k :: 0 <= k < |entries| ==> entries[k].lu.memoryType != t
    ensures TypeUnits(entries, t) == 0
  {
    if entries != [] {
      UnusedTypeIsZero(entries[..|entries| - 1], t);
    }
  }

  ghost predicate WithinCeilings(entries: seq<Entry>, geo: GeometryDescriptor)
    requires geo.Valid()
  {
    forall t: u8 :: geo.MaxAllocUnits(t).Some? ==> TypeUnits(entries, t) <= geo.MaxAllocUnits(t).value
  }

  /** The ceiling check passes exactly when every memory type's total is within what
      the device allows for it. */
  lemma CeilingCheckExact(entries: seq<Entry>, geo: GeometryDescriptor)
    requires geo.Valid()
    ensures FirstOver(CeilingsFrom(entries, geo, 0, []), entries, 0).None? <==> WithinCeilings(entries, geo)
  {
    hide GeometryDescriptor.MaxAllocUnits, CeilingsFrom, TypeUnits;
    var ceilings := CeilingsFrom(entries, geo, 0, []);
    CeilingsComplete(entries, geo, 0, []);
    NoneOver(ceilings, entries, 0);
    if FirstOver(ceilings, entries, 0).None? {
      forall t: u8 | geo.MaxAllocUnits(t).Some?
        ensures TypeUnits(entries, t) <= geo.MaxAllocUnits(t).value
      {
        if Lists(ceilings, t) {
          var k :| 0 <= k < |ceilings| && ceilings[k].0 == t;
        } else {
          UnusedTypeIsZero(entries, t);
        }
      }
    }
  }

  // --- packing decodes -------------------------------------------------------

  /** The entry packed into block `j` by the loop from `i` on: ids are distinct. */
  function ClaimFrom(entries: seq<Entry>, i: nat, j: nat): (r: Option<nat>)
    requires i <= |entries|
    ensures r.Some? ==> i <= r.value < |entries| && entries[r.value].lu.id == j
    ensures r.None? ==> forall k :: i <= k < |entries| ==> entries[k].lu.id != j
    decreases |entries| - i
  {
    if i == |entries| then None
    else if entries[i].lu.id == j then Some(i)
    else ClaimFrom(entries, i + 1, j)
  }

  ghost predicate Packable(entries: seq<Entry>) {
    && (forall k :: 0 <= k < |entries| ==> entries[k].lu.id < LUS)
    && (forall j, k :: 0 <= j < k < |entries| ==> entries[j].lu.id != entries[k].lu.id)
  }

  /** Packing succeeds only when every count fits its field and the remainder is big
      enough, and it never touches the header. */
  lemma {:induction false} PackFits(entries: seq<Entry>, i: nat, d: Desc, wb: WbPlan, geo: GeometryDescriptor)
    requires geo.Valid() && d.Valid() && i <= |entries| && Packable(entries)
    requires PackFrom(entries, i, d, wb, geo).Success?
    ensures var r := PackFrom(entries, i, d, wb, geo).value;
            && r.Valid() && r.base == d.base && r.stride == d.stride && |r.bytes| == |d.bytes|
            && (forall k :: 0 <= k < d.base ==> r.bytes[k] == d.bytes[k])
            && (forall k :: i <= k < |entries| ==> entries[k].units < 0x1_0000_0000)
            && (forall k :: i <= k < |entries| && entries[k].lu.sizeMib.None? ==>
                  Wanted(entries[k], wb).SizeBytes(geo) >= MIN_TARGET)
    decreases |entries| - i
  {
    hide LuAt, PutLu, Wanted, LuConfig.SizeBytes;
    if i < |entries| {
      var e := entries[i];
      LuReadOverWrite(d, e.lu.id, Wanted(e, wb), 0);
      PackFits(entries, i + 1, WithLu(d, e.lu.id, Wanted(e, wb)), wb, geo);
    }
  }

  /** Packing succeeds exactly when every count fits and the remainder is big enough:
      the layout never gets in the way. */
  lemma {:induction false} PackSucceedsExactly(entries: seq<Entry>, i: nat, d: Desc, wb: WbPlan, geo: GeometryDescriptor)
    requires geo.Valid() && d.Valid() && i <= |entries| && Packable(entries)
    ensures PackFrom(entries, i, d, wb, geo).Success?
            <==> forall k :: i <= k < |entries| ==>
                   entries[k].units < 0x1_0000_0000
                   && (entries[k].lu.sizeMib.None? ==> Wanted(entries[k], wb).SizeBytes(geo) >= MIN_TARGET)
    decreases |entries| - i
  {
    hide LuAt, PutLu, Wanted, LuConfig.SizeBytes;
    if i < |entries| {
      var e := entries[i];
      if e.units < 0x1_0000_0000 {
        PackSucceedsExactly(entries, i + 1, WithLu(d, e.lu.id, Wanted(e, wb)), wb, geo);
      }
    }
  }

  /** Reading a packed descriptor gives back every entry, and the starting descriptor
      everywhere else. */
  lemma {:induction false} PackDecodes(entries: seq<Entry>, i: nat, d: Desc, wb: WbPlan, geo: GeometryDescriptor, j: nat)
    requires geo.Valid() && d.Valid() && i <= |entries| && Packable(entries) && j < LUS
    requires PackFrom(entries, i, d, wb, geo).Success?
    requires forall k :: i <= k < |entries| ==> entries[k].units < 0x1_0000_0000
    ensures PackFrom(entries, i, d, wb, geo).value.Lu(j)
            == match ClaimFrom(entries, i, j)
               case Some(k) => Stored(Wanted(entries[k], wb), d.HasLuWriteBooster())
               case None => d.Lu(j)
    decreases |entries| - i
  {
    hide Desc.Lu, PutLu, Wanted, LuConfig.SizeBytes, Stored;
    if i < |entries| {
      var e := entries[i];
      LuReadOverWrite(d, e.lu.id, Wanted(e, wb), j);
      PackDecodes(entries, i + 1, WithLu(d, e.lu.id, Wanted(e, wb)), wb, geo, j);
      if e.lu.id == j {
        assert ClaimFrom(entries, i + 1, j).None?;
      }
    }
  }

  // --- the header ------------------------------------------------------------

  lemma ZeroBlock(s: seq<u8>, at: nat, wb: bool)
    requires forall k :: at <= k < |s| ==> s[k] == 0
    ensures LuAt(s, at, wb) == ABSENT
  {
  }

  /** The six WriteBooster header bytes of a plan. */
  function WbHeader(wb: WbPlan): (r: seq<u8>)
    ensures |r| == 6
  {
    match wb.placement
    case NoBuffer => [0, 0, 0, 0, 0, 0]
    case Shared => [wb.preserve, 0x01] + Be32(wb.units)
    case Dedicated => [wb.preserve, 0x00, 0, 0, 0, 0]
  }

  function ModesDesc(spec: Spec, dev: DeviceDescriptor): (d: Desc)
    requires dev.Valid()
    ensures d.Valid() && d.base == dev.base && d.stride == dev.stride && |d.bytes| == dev.ConfigDescLen()
  {
    WithHeader(EmptyDesc(dev), if spec.bootEnable then 1 else 0, 0x00, 0x01, 0x7F, 0x00, 0x00, 0x0000)
  }

  lemma ModesBytes(spec: Spec, dev: DeviceDescriptor)
    requires dev.Valid()
    ensures var h := ModesDesc(spec, dev).bytes;
            && |h| >= 0x90
            && h[0] == dev.ConfigDescLen() % 0x100 && h[1] == 0x01 && h[2] == 0x00
            && h[3..11] == [if spec.bootEnable then 1 else 0, 0x00, 0x01, 0x7F, 0x00, 0x00, 0x00, 0x00]
            && (forall k :: 0x0B <= k < |h| ==> h[k] == 0)
  {
  }

  lemma HeaderBytes(spec: Spec, dev: DeviceDescriptor, wb: WbPlan)
    requires dev.Valid()
    ensures var h := HeaderDesc(spec, dev, wb).bytes;
            && |h| >= 0x90
            && h[0] == dev.ConfigDescLen() % 0x100 && h[1] == 0x01 && h[2] == 0x00
            && h[3..11] == [if spec.bootEnable then 1 else 0, 0x00, 0x01, 0x7F, 0x00, 0x00, 0x00, 0x00]
            && (forall k :: 0x0B <= k < 0x10 ==> h[k] == 0)
            && (forall k :: 0x10 <= k < 0x16 ==> h[k] == WbHeader(wb)[k - 0x10])
            && (forall k :: 0x16 <= k < |h| ==> h[k] == 0)
  {
    var m := ModesDesc(spec, dev).bytes;
    ModesBytes(spec, dev);
    var h := HeaderDesc(spec, dev, wb).bytes;
    assert wb.placement == Shared ==> h == Splice(m, 0x10, [wb.preserve, 0x01] + Be32(wb.units));
    assert wb.placement == Dedicated ==> h == Splice(m, 0x10, [wb.preserve, 0x00]);
    assert wb.placement == NoBuffer ==> h == m;
    hide HeaderDesc, ModesDesc, Be32;
    assert h[3..11] == m[3..11];
  }

  /** Whether the WriteBooster header fields keep clear of LU 0: they end at 0x16 and
      an LU block may start at 0x10. */
  predicate HeaderClear(spec: Spec, dev: DeviceDescriptor, wb: WbPlan) {
    wb.placement == NoBuffer || dev.base >= WB_HEADER_END || spec.Claims(0)
  }

  lemma HeaderZeroFrom(spec: Spec, dev: DeviceDescriptor, wb: WbPlan, at: nat)
    requires dev.Valid()
    requires at >= WB_HEADER_END || (wb.placement == NoBuffer && at >= 0x10)
    ensures forall k :: at <= k < |HeaderDesc(spec, dev, wb).bytes| ==> HeaderDesc(spec, dev, wb).bytes[k] == 0
  {
    HeaderBytes(spec, dev, wb);
    hide HeaderDesc;
  }

  lemma HeaderLus(spec: Spec, dev: DeviceDescriptor, wb: WbPlan, j: nat)
    requires dev.Valid() && j < LUS
    requires j > 0 || wb.placement == NoBuffer || dev.base >= WB_HEADER_END
    ensures HeaderDesc(spec, dev, wb).Lu(j) == ABSENT
  {
    hide HeaderDesc, LuAt;
    var h := HeaderDesc(spec, dev, wb);
    if j > 0 {
      Scale(1, j, h.stride);
    }
    HeaderZeroFrom(spec, dev, wb, h.LuOffset(j));
    ZeroBlock(h.bytes, h.LuOffset(j), h.HasLuWriteBooster());
  }

  // --- the plan as a whole ---------------------------------------------------

  ghost predicate Planned(spec: Spec, dev: DeviceDescriptor, geo: GeometryDescriptor)
  {
    dev.Valid() && geo.Valid() && spec.Valid() && PlanOf(spec, dev, geo).Success?
  }

  function WbOf(spec: Spec, dev: DeviceDescriptor, geo: GeometryDescriptor): WbPlan
    requires geo.Valid() && PlanWriteBooster(spec, dev, geo).Success?
  {
    PlanWriteBooster(spec, dev, geo).value
  }

  function PlannedEntries(spec: Spec, dev: DeviceDescriptor, geo: GeometryDescriptor): seq<Entry>
    requires Planned(spec, dev, geo)
  {
    EntriesOf(spec, geo, WbOf(spec, dev, geo)).value
  }

  /** The shape of the packed descriptor, and the header it keeps below LU 0. */
  lemma PlanLayout(spec: Spec, dev: DeviceDescriptor, geo: GeometryDescriptor)
    requires Planned(spec, dev, geo)
    ensures var d := PlanOf(spec, dev, geo).value.descriptor;
            && d.Valid() && d.base == dev.base && d.stride == dev.stride && |d.bytes| == dev.ConfigDescLen()
            && (forall k :: 0 <= k < dev.base ==>
                  d.bytes[k] == HeaderDesc(spec, dev, WbOf(spec, dev, geo)).bytes[k])
  {
    var wb := WbOf(spec, dev, geo);
    hide HeaderDesc, Wanted, PackFrom, PlanWriteBooster;
    PackFits(PlannedEntries(spec, dev, geo), 0, HeaderDesc(spec, dev, wb), wb, geo);
  }

  /** Every claimed block decodes to what the scheme asked for, with the sizes the
      planner computed; the others decode as the header left them. */
  lemma PlanDecodes(spec: Spec, dev: DeviceDescriptor, geo: GeometryDescriptor, j: nat)
    requires Planned(spec, dev, geo) && j < LUS
    ensures var wb := WbOf(spec, dev, geo);
            var entries := PlannedEntries(spec, dev, geo);
            var d := PlanOf(spec, dev, geo).value.descriptor;
            && d.Valid() && d.base == dev.base && d.stride == dev.stride && |d.bytes| == dev.ConfigDescLen()
            && Packable(entries)
            && (forall k :: 0 <= k < |entries| ==> entries[k].units < 0x1_0000_0000)
            && (forall k :: 0 <= k < |entries| && entries[k].lu.sizeMib.None? ==>
                  Wanted(entries[k], wb).SizeBytes(geo) >= MIN_TARGET)
            && (forall k :: 0 <= k < dev.base ==> d.bytes[k] == HeaderDesc(spec, dev, wb).bytes[k])
            && d.Lu(j) == match ClaimFrom(entries, 0, j)
                          case Some(k) => Stored(Wanted(entries[k], wb), d.HasLuWriteBooster())
                          case None => HeaderDesc(spec, dev, wb).Lu(j)
  {
    var wb := WbOf(spec, dev, geo);
    PackFits(PlannedEntries(spec, dev, geo), 0, HeaderDesc(spec, dev, wb), wb, geo);
    PackDecodes(PlannedEntries(spec, dev, geo), 0, HeaderDesc(spec, dev, wb), wb, geo, j);
  }

  lemma EntriesFollowScheme(spec: Spec, geo: GeometryDescriptor, wb: WbPlan)
    requires geo.Valid() && spec.Valid() && EntriesOf(spec, geo, wb).Success?
    ensures |EntriesOf(spec, geo, wb).value| == |spec.lus|
    ensures forall k :: 0 <= k < |spec.lus| ==> EntriesOf(spec, geo, wb).value[k].lu == spec.lus[k]
  {
  }

  // --- when there is a plan ------------------------------------------------------------

  /** A way to lay the scheme out: every LU as asked, everything else to the LU without a
      size, all types within their ceilings, counts that fit the descriptor, and room to
      install onto. */
  ghost predicate Allots(spec: Spec, geo: GeometryDescriptor, wb: WbPlan, entries: seq<Entry>, rest: nat)
    requires geo.Valid()
  {
    && |entries| == |spec.lus| && AllEntries(entries, spec.lus, geo, rest)
    && rest > 0 && SumUnits(entries) + wb.cost == geo.TotalAllocUnits()
    && WithinCeilings(entries, geo)
    && (forall k :: 0 <= k < |entries| ==> entries[k].units < 0x1_0000_0000)
    && (forall k :: 0 <= k < |entries| && entries[k].lu.sizeMib.None? ==>
          Wanted(entries[k], wb).SizeBytes(geo) >= MIN_TARGET)
  }

  lemma {:induction false} SizedIfSizable(lus: seq<LuSpec>, geo: GeometryDescriptor, i: nat, acc: seq<Entry>, entries: seq<Entry>, rest: nat)
    requires geo.Valid() && i <= |lus| == |entries| && AllEntries(entries, lus, geo, rest)
    requires |acc| == i && AllEntries(acc, lus, geo, 0)
    ensures SizeFrom(lus, geo, i, acc).Success?
    ensures |SizeFrom(lus, geo, i, acc).value| == |lus| && AllEntries(SizeFrom(lus, geo, i, acc).value, lus, geo, 0)
    decreases |lus| - i
  {
    hide AllocUnitsFor, GeometryDescriptor.SupportsMemoryType, GeometryDescriptor.CapAdj;
    if i < |lus| {
      assert EntryOf(entries[i], lus[i], geo, rest);
      var e := Entry(lus[i], FixedUnits(lus[i], geo).value);
      assert EntryOf(e, lus[i], geo, 0);
      SizedIfSizable(lus, geo, i + 1, acc + [e], entries, rest);
    }
  }

  lemma OnlyAllotment(base: seq<Entry>, entries: seq<Entry>, lus: seq<LuSpec>, geo: GeometryDescriptor, rest: nat)
    requires geo.Valid() && |base| == |entries| == |lus|
    requires AllEntries(base, lus, geo, 0) && AllEntries(entries, lus, geo, rest)
    ensures GiveRest(base, rest) == entries
  {
    hide AllocUnitsFor, GeometryDescriptor.SupportsMemoryType, GeometryDescriptor.CapAdj;
    forall k | 0 <= k < |base|
      ensures GiveRest(base, rest)[k] == entries[k]
    {
      assert EntryOf(base[k], lus[k], geo, 0) && EntryOf(entries[k], lus[k], geo, rest);
    }
  }

  lemma RestIsGiven(spec: Spec, geo: GeometryDescriptor, wb: WbPlan, base: seq<Entry>, rest: nat)
    requires geo.Valid() && spec.Valid() && SizeFrom(spec.lus, geo, 0, []) == Success(base)
    requires rest > 0 && wb.cost + SumUnits(base) + rest == geo.TotalAllocUnits()
    requires FirstOver(CeilingsFrom(GiveRest(base, rest), geo, 0, []), GiveRest(base, rest), 0).None?
    ensures EntriesOf(spec, geo, wb) == Success(GiveRest(base, rest))
  {
    hide GeometryDescriptor.TotalAllocUnits, FirstOver, CeilingsFrom, GiveRest, SumUnits, SizeFrom, Spec.Valid;
  }

  lemma AllotmentIsFound(spec: Spec, geo: GeometryDescriptor, wb: WbPlan, entries: seq<Entry>, rest: nat)
    requires geo.Valid() && spec.Valid() && Allots(spec, geo, wb, entries, rest)
    ensures EntriesOf(spec, geo, wb) == Success(entries)
  {
    NoEntries(spec.lus, geo);
    assert AllEntries([], spec.lus, geo, 0);
    hide FixedUnits, GeometryDescriptor.TotalAllocUnits, FirstOver, CeilingsFrom, WithinCeilings, GiveRest, SumUnits, SizeFrom;
    hide LuConfig.SizeBytes, Wanted, EntriesOf, AllEntries;
    SizedIfSizable(spec.lus, geo, 0, [], entries, rest);
    var base := SizeFrom(spec.lus, geo, 0, []).value;
    OnlyAllotment(base, entries, spec.lus, geo, rest);
    RestHandedOut(base, spec.lus, geo, rest);
    CeilingCheckExact(entries, geo);
    RestIsGiven(spec, geo, wb, base, rest);
  }

  lemma AllotmentPlans(spec: Spec, dev: DeviceDescriptor, geo: GeometryDescriptor, entries: seq<Entry>, rest: nat)
    requires dev.Valid() && geo.Valid() && spec.Valid() && PlanWriteBooster(spec, dev, geo).Success?
    requires Allots(spec, geo, PlanWriteBooster(spec, dev, geo).value, entries, rest)
    ensures PlanOf(spec, dev, geo).Success?
  {
    var wb := PlanWriteBooster(spec, dev, geo).value;
    AllotmentIsFound(spec, geo, wb, entries, rest);
    hide EntriesOf, HeaderDesc, PackFrom, PlanWriteBooster, LuConfig.SizeBytes, Wanted, WithinCeilings, AllEntries, SumUnits;
    PackSucceedsExactly(entries, 0, HeaderDesc(spec, dev, wb), wb, geo);
  }

  /** The planner finds a plan exactly when there is a way to lay the scheme out. */
  lemma PlanSucceedsExactly(spec: Spec, dev: DeviceDescriptor, geo: GeometryDescriptor)
    requires dev.Valid() && geo.Valid() && spec.Valid()
    ensures PlanOf(spec, dev, geo).Success?
            <==> PlanWriteBooster(spec, dev, geo).Success?
                 && exists entries, rest :: Allots(spec, geo, PlanWriteBooster(spec, dev, geo).value, entries, rest)
  {
    if PlanOf(spec, dev, geo).Success? {
      PlanAllots(spec, dev, geo);
    }
    hide Allots, EntriesOf, PackFrom, HeaderDesc;
    if PlanWriteBooster(spec, dev, geo).Success? {
      if entries, rest :| Allots(spec, geo, PlanWriteBooster(spec, dev, geo).value, entries, rest) {
        AllotmentPlans(spec, dev, geo, entries, rest);
      }
    }
  }

  lemma PlanAllots(spec: Spec, dev: DeviceDescriptor, geo: GeometryDescriptor)
    requires Planned(spec, dev, geo)
    ensures var wb := WbOf(spec, dev, geo);
            Allots(spec, geo, wb, PlannedEntries(spec, dev, geo), RestOf(spec, geo, wb))
  {
    var wb := WbOf(spec, dev, geo);
    EntriesConserve(spec, geo, wb);
    PlanDecodes(spec, dev, geo, 0);
    EntriesFollowScheme(spec, geo, wb);
    hide FixedUnits, GeometryDescriptor.TotalAllocUnits, FirstOver, CeilingsFrom, WithinCeilings, SumUnits, LuConfig.SizeBytes, Wanted, HeaderDesc, AllEntries;
    CeilingCheckExact(PlannedEntries(spec, dev, geo), geo);
  }

  /** An LU block byte by byte up to its buffer size, at the offsets of table 14-12:
      enabled, unprotected, with the scheme's boot role, memory type, reliability, block
      size and provisioning. */
  ghost predicate HoldsBlock(b: seq<u8>, at: nat, lu: LuSpec, units: nat) {
    && at + 0x10 <= |b|
    && b[at] == 0x01 && b[at + 1] == lu.bootId && b[at + 2] == 0x00 && b[at + 3] == lu.memoryType
    && U32At(b, at + 4) == units
    && b[at + 8] == (if lu.reliable then 0x01 else 0x00)
    && b[at + 9] == lu.exponent && b[at + 0x0A] == lu.provisioning
    && U16At(b, at + 0x0B) == 0
  }

  lemma BlockHolds(d: Desc, j: nat, e: Entry, wb: WbPlan)
    requires d.Valid() && j < LUS && e.units < 0x1_0000_0000
    requires d.Lu(j) == Stored(Wanted(e, wb), d.HasLuWriteBooster())
    ensures HoldsBlock(d.bytes, d.LuOffset(j), e.lu, e.units)
  {
    BlockInside(d.base, d.stride, j);
    hide CarriesBuffer;
  }

  lemma ListedDecodes(spec: Spec, dev: DeviceDescriptor, geo: GeometryDescriptor, k: nat) returns (e: Entry)
    requires Planned(spec, dev, geo) && k < |spec.lus|
    ensures var d := PlanOf(spec, dev, geo).value.descriptor;
            && d.Valid() && d.base == dev.base && d.stride == dev.stride
            && e.lu == spec.lus[k] && e.units < 0x1_0000_0000
            && d.Lu(spec.lus[k].id) == Stored(Wanted(e, WbOf(spec, dev, geo)), d.HasLuWriteBooster())
  {
    var wb := WbOf(spec, dev, geo);
    var entries := PlannedEntries(spec, dev, geo);
    e := entries[k];
    PlanDecodes(spec, dev, geo, spec.lus[k].id);
    EntriesFollowScheme(spec, geo, wb);
    hide PlanOf, EntriesOf, PlanWriteBooster, HeaderDesc, Wanted, Desc.Lu;
    ClaimOf(entries, k);
  }

  /** The block of every LU the scheme lists says what the scheme says. */
  lemma ListedBlockBytes(spec: Spec, dev: DeviceDescriptor, geo: GeometryDescriptor, k: nat, at: nat)
    requires k < |spec.lus| && at == dev.base + spec.lus[k].id * dev.stride
    requires Planned(spec, dev, geo)
    ensures var d := PlanOf(spec, dev, geo).value.descriptor;
            HoldsBlock(d.bytes, at, spec.lus[k], d.Lu(spec.lus[k].id).units)
  {
    var d := PlanOf(spec, dev, geo).value.descriptor;
    var wb := WbOf(spec, dev, geo);
    var e := ListedDecodes(spec, dev, geo, k);
    assert spec.lus[k].id < LUS;
    hide PlanOf, PlanWriteBooster, Wanted, Desc.Lu, HoldsBlock, Desc.HasLuWriteBooster, Planned, WbOf;
    WantedUnits(e, wb, d.HasLuWriteBooster());
    BlockHolds(d, spec.lus[k].id, e, wb);
  }

  lemma WantedUnits(e: Entry, wb: WbPlan, long: bool)
    requires e.units < 0x1_0000_0000
    ensures Stored(Wanted(e, wb), long).units == e.units
  {
  }

  lemma UnclaimedKeepsHeader(spec: Spec, dev: DeviceDescriptor, geo: GeometryDescriptor, j: nat)
    requires Planned(spec, dev, geo) && j < LUS && !spec.Claims(j)
    ensures PlanOf(spec, dev, geo).value.descriptor.Lu(j) == HeaderDesc(spec, dev, WbOf(spec, dev, geo)).Lu(j)
  {
    PlanDecodes(spec, dev, geo, j);
    EntriesFollowScheme(spec, geo, WbOf(spec, dev, geo));
    hide HeaderDesc, EntriesOf, PlanWriteBooster, LuAt, PackFrom;
  }

  lemma UnclaimedAbsent(spec: Spec, dev: DeviceDescriptor, geo: GeometryDescriptor, j: nat)
    requires Planned(spec, dev, geo) && j < LUS && !spec.Claims(j)
    requires HeaderClear(spec, dev, WbOf(spec, dev, geo))
    ensures PlanOf(spec, dev, geo).value.descriptor.Lu(j) == ABSENT
  {
    UnclaimedKeepsHeader(spec, dev, geo, j);
    HeaderLus(spec, dev, WbOf(spec, dev, geo), j);
  }

  /** The byte the WriteBooster header leaves at an offset of LU 0's block. */
  function Spilled(dev: DeviceDescriptor, wb: WbPlan, offset: nat): u8
    requires dev.base >= 0x10
  {
    if dev.base as nat + offset < WB_HEADER_END then WbHeader(wb)[dev.base as nat + offset - 0x10] else 0
  }

  /** The byte left where LU 0's enable byte belongs. */
  function SpillByte(dev: DeviceDescriptor, wb: WbPlan): u8
    requires dev.base >= 0x10
  {
    Spilled(dev, wb, 0)
  }

  /** What the header leaves in LU 0's block. The buffer size of the block lies beyond
      the header. */
  lemma HeaderSpill(spec: Spec, dev: DeviceDescriptor, wb: WbPlan)
    requires dev.Valid()
    ensures var c := HeaderDesc(spec, dev, wb).Lu(0);
            && c.enable == Spilled(dev, wb, 0)
            && c.bootLunId == Spilled(dev, wb, 1)
            && c.memoryType == Spilled(dev, wb, 3)
            && c.wbUnits == 0
  {
    HeaderBytes(spec, dev, wb);
    var h := HeaderDesc(spec, dev, wb);
    assert h.LuOffset(0) == dev.base;
    SpillsAt(h.bytes, dev, wb, 0);
    SpillsAt(h.bytes, dev, wb, 1);
    SpillsAt(h.bytes, dev, wb, 3);
    assert h.HasLuWriteBooster() ==> U32At(h.bytes, dev.base as nat + LU_WB_UNITS) == 0;
    hide HeaderDesc, WbHeader, Spilled;
  }

  lemma SpillsAt(s: seq<u8>, dev: DeviceDescriptor, wb: WbPlan, offset: nat)
    requires dev.Valid() && |s| == dev.ConfigDescLen() && offset < 0x10
    requires forall k :: 0x10 <= k < 0x16 ==> s[k] == WbHeader(wb)[k - 0x10]
    requires forall k :: 0x16 <= k < |s| ==> s[k] == 0
    ensures U8At(s, dev.base as nat + offset) == Spilled(dev, wb, offset)
  {
    hide WbHeader;
  }

  lemma HeaderEnables(spec: Spec, dev: DeviceDescriptor, wb: WbPlan, j: nat)
    requires dev.Valid() && j < LUS
    ensures HeaderDesc(spec, dev, wb).Lu(j).Enabled() <==> j == 0 && SpillByte(dev, wb) != 0
  {
    if j > 0 {
      HeaderLus(spec, dev, wb, j);
    } else {
      HeaderSpill(spec, dev, wb);
      hide HeaderDesc, Spilled;
    }
  }

  /** The LUs a scheme does not list are gone after packing exactly when the scheme
      lists LU 0 or the header leaves a zero in its enable byte. The parser admits
      layouts where it does not: LU 0 may start at 0x10 while the WriteBooster fields
      reach to 0x16. */
  lemma UnlistedAreGoneExactly(spec: Spec, dev: DeviceDescriptor, geo: GeometryDescriptor)
    requires Planned(spec, dev, geo)
    ensures (forall j :: 0 <= j < LUS && !spec.Claims(j) ==>
               !PlanOf(spec, dev, geo).value.descriptor.Lu(j).Enabled())
            <==> spec.Claims(0) || SpillByte(dev, WbOf(spec, dev, geo)) == 0
  {
    var wb := WbOf(spec, dev, geo);
    var d := PlanOf(spec, dev, geo).value.descriptor;
    hide PlanOf, SpillByte, Desc.Lu, PlanWriteBooster, Spec.Claims, HeaderDesc;
    forall j | 0 <= j < LUS && !spec.Claims(j)
      ensures d.Lu(j).Enabled() <==> j == 0 && SpillByte(dev, wb) != 0
    {
      UnclaimedKeepsHeader(spec, dev, geo, j);
      HeaderEnables(spec, dev, wb, j);
    }
  }

  function SumDecoded(d: Desc, n: nat): nat {
    if n == 0 then 0 else SumDecoded(d, n - 1) + d.Lu(n - 1).units
  }

  function SumSlots(entries: seq<Entry>, n: nat): nat {
    if n == 0 then 0
    else SumSlots(entries, n - 1) + SlotUnits(entries, n - 1)
  }

  lemma {:induction false} ClaimInit(entries: seq<Entry>, i: nat, j: nat)
    requires 0 <= i < |entries| && Packable(entries)
    ensures ClaimFrom(entries, i, j) ==
            if entries[|entries| - 1].lu.id == j then Some(|entries| - 1)
            else ClaimFrom(entries[..|entries| - 1], i, j)
    decreases |entries| - i
  {
    if i < |entries| - 1 {
      ClaimInit(entries, i + 1, j);
    } else {
      assert ClaimFrom(entries, i + 1, j).None?;
    }
  }

  lemma {:induction false} SumSlotsInit(entries: seq<Entry>, n: nat)
    requires entries != [] && Packable(entries)
    ensures SumSlots(entries, n) == SumSlots(entries[..|entries| - 1], n)
                                    + if entries[|entries| - 1].lu.id < n then entries[|entries| - 1].units else 0
  {
    hide ClaimFrom;
    if n > 0 {
      SumSlotsInit(entries, n - 1);
      ClaimInit(entries, 0, n - 1);
    }
  }

  lemma {:induction false} SumSlotsEmpty(n: nat)
    ensures SumSlots([], n) == 0
  {
    if n > 0 {
      SumSlotsEmpty(n - 1);
    }
  }

  /** Summing over the eight blocks is summing over the entries. */
  lemma {:induction false} SumSlotsIsSum(entries: seq<Entry>)
    requires Packable(entries)
    ensures SumSlots(entries, LUS) == SumUnits(entries)
  {
    if entries == [] {
      SumSlotsEmpty(LUS);
    } else {
      SumSlotsIsSum(entries[..|entries| - 1]);
      SumSlotsInit(entries, LUS);
    }
  }

  function SlotUnits(entries: seq<Entry>, j: nat): nat {
    match ClaimFrom(entries, 0, j) case Some(k) => entries[k].units case None => 0
  }

  /** The units the WriteBooster header leaves where LU 0's unit count belongs: the
      low bytes of a shared buffer's size, when LU 0 starts at 0x10 or 0x11. */
  function SpillUnits(dev: DeviceDescriptor, wb: WbPlan): nat {
    if wb.placement != Shared || dev.base >= 0x12 then 0
    else if dev.base == 0x10 then wb.units % 0x1_0000 * 0x1_0000
    else wb.units % 0x100 * 0x100_0000
  }

  lemma HeaderUnits(spec: Spec, dev: DeviceDescriptor, wb: WbPlan, j: nat)
    requires dev.Valid() && j < LUS
    ensures HeaderDesc(spec, dev, wb).Lu(j).units == if j == 0 then SpillUnits(dev, wb) else 0
  {
    if j > 0 {
      HeaderLus(spec, dev, wb, j);
    } else {
      HeaderBytes(spec, dev, wb);
      SpillReads(HeaderDesc(spec, dev, wb).bytes, dev, wb);
      hide HeaderDesc, WbHeader, SpillUnits, U32At;
    }
  }

  lemma SpillReads(s: seq<u8>, dev: DeviceDescriptor, wb: WbPlan)
    requires dev.Valid() && |s| >= 0x90
    requires forall k :: 0x10 <= k < 0x16 ==> s[k] == WbHeader(wb)[k - 0x10]
    requires forall k :: 0x16 <= k < |s| ==> s[k] == 0
    ensures dev.base as nat + 8 <= |s| ==> U32At(s, dev.base as nat + 4) == SpillUnits(dev, wb)
  {
    SharedTail(wb);
    assert s[0x14] == WbHeader(wb)[4] && s[0x15] == WbHeader(wb)[5];
    hide WbHeader;
  }

  lemma SharedTail(wb: WbPlan)
    ensures wb.placement != Shared ==> forall k :: 2 <= k < 6 ==> WbHeader(wb)[k] == 0
    ensures wb.placement == Shared ==>
              (WbHeader(wb)[4] as int) * 0x100 + WbHeader(wb)[5] as int == wb.units as int % 0x1_0000 && WbHeader(wb)[5] == wb.units % 0x100
  {
    var units: int := wb.units;
    assert wb.placement == Shared ==> WbHeader(wb)[4] == Be32(wb.units)[2] && WbHeader(wb)[5] == Be32(wb.units)[3];
  }

  function SpillAt(spec: Spec, dev: DeviceDescriptor, wb: WbPlan, n: nat): nat {
    if n == 0 || spec.Claims(0) then 0 else SpillUnits(dev, wb)
  }

  lemma ClaimedSlot(spec: Spec, dev: DeviceDescriptor, geo: GeometryDescriptor, j: nat)
    requires Planned(spec, dev, geo) && j < LUS && spec.Claims(j)
    ensures PlanOf(spec, dev, geo).value.descriptor.Lu(j).units == SlotUnits(PlannedEntries(spec, dev, geo), j)
  {
    PlanDecodes(spec, dev, geo, j);
    EntriesFollowScheme(spec, geo, WbOf(spec, dev, geo));
    hide PlanOf, LuAt, PackFrom, HeaderDesc, EntriesOf, PlanWriteBooster, LuConfig.SizeBytes;
    var k :| 0 <= k < |spec.lus| && spec.lus[k].id == j;
    ClaimOf(PlannedEntries(spec, dev, geo), k);
  }

  lemma UnclaimedSlot(spec: Spec, dev: DeviceDescriptor, geo: GeometryDescriptor, j: nat)
    requires Planned(spec, dev, geo) && j < LUS && !spec.Claims(j)
    ensures SlotUnits(PlannedEntries(spec, dev, geo), j) == 0
  {
    EntriesFollowScheme(spec, geo, WbOf(spec, dev, geo));
    hide PlanOf, EntriesOf, PlanWriteBooster;
  }

  lemma SlotDecoded(spec: Spec, dev: DeviceDescriptor, geo: GeometryDescriptor, j: nat)
    requires Planned(spec, dev, geo) && j < LUS
    ensures PlanOf(spec, dev, geo).value.descriptor.Lu(j).units
            == SlotUnits(PlannedEntries(spec, dev, geo), j)
               + if j == 0 && !spec.Claims(0) then SpillUnits(dev, WbOf(spec, dev, geo)) else 0
  {
    var wb := WbOf(spec, dev, geo);
    hide PlanOf, Desc.Lu, HeaderDesc, EntriesOf, PlanWriteBooster, SpillUnits, SlotUnits;
    if spec.Claims(j) {
      ClaimedSlot(spec, dev, geo, j);
    } else {
      UnclaimedSlot(spec, dev, geo, j);
      UnclaimedKeepsHeader(spec, dev, geo, j);
      HeaderUnits(spec, dev, wb, j);
    }
  }

  lemma {:induction false} SumDecodedIsSlots(spec: Spec, dev: DeviceDescriptor, geo: GeometryDescriptor, n: nat)
    requires Planned(spec, dev, geo) && n <= LUS
    ensures SumDecoded(PlanOf(spec, dev, geo).value.descriptor, n)
            == SumSlots(PlannedEntries(spec, dev, geo), n) + SpillAt(spec, dev, WbOf(spec, dev, geo), n)
  {
    hide PlanOf, EntriesOf, PlanWriteBooster, ClaimFrom, LuAt, SlotUnits, Desc.Lu, SpillUnits, Spec.Claims;
    if n > 0 {
      SumDecodedIsSlots(spec, dev, geo, n - 1);
      SlotDecoded(spec, dev, geo, n - 1);
    }
  }

  /** A successful plan hands out every allocation unit exactly once, as read back from
      the bytes: the blocks and the buffer's cost are the device, short only of what the
      WriteBooster header spills into an unlisted LU 0. */
  lemma PlanConserves(spec: Spec, dev: DeviceDescriptor, geo: GeometryDescriptor)
    requires Planned(spec, dev, geo)
    ensures SumDecoded(PlanOf(spec, dev, geo).value.descriptor, LUS) + WbOf(spec, dev, geo).cost
            == geo.TotalAllocUnits() + if spec.Claims(0) then 0 else SpillUnits(dev, WbOf(spec, dev, geo))
  {
    var wb := WbOf(spec, dev, geo);
    var entries := PlannedEntries(spec, dev, geo);
    EntriesConserve(spec, geo, wb);
    SumDecodedIsSlots(spec, dev, geo, LUS);
    PlanDecodes(spec, dev, geo, 0);
    SumSlotsIsSum(entries);
    hide HeaderDesc, PlanWriteBooster, PackFrom, Desc.Lu, Stored, Wanted, LuConfig.SizeBytes, SumUnits, SumDecoded;
    hide SpillUnits, Spec.Claims;
  }

  // --- ceilings, in the bytes ---------------------------------------------------

  /** The units of the enabled LUs of one memory type, as decoded. */
  function TypeDecoded(d: Desc, memoryType: u8, n: nat): nat {
    if n == 0 then 0
    else TypeDecoded(d, memoryType, n - 1) + UnitsIfType(d.Lu(n - 1), memoryType)
  }

  /** The entries with the units of other memory types taken out. */
  function Only(entries: seq<Entry>, memoryType: u8): (r: seq<Entry>)
    ensures |r| == |entries|
  {
    seq(|entries|, k requires 0 <= k < |entries| =>
      if entries[k].lu.memoryType == memoryType then entries[k] else entries[k].(units := 0))
  }

  lemma {:induction false} OnlySums(entries: seq<Entry>, memoryType: u8)
    ensures SumUnits(Only(entries, memoryType)) == TypeUnits(entries, memoryType)
  {
    if entries != [] {
      var n := |entries| - 1;
      OnlySums(entries[..n], memoryType);
      assert Only(entries, memoryType)[..n] == Only(entries[..n], memoryType);
    }
  }

  lemma {:induction false} OnlyClaims(entries: seq<Entry>, memoryType: u8, i: nat, j: nat)
    requires i <= |entries|
    ensures ClaimFrom(Only(entries, memoryType), i, j) == ClaimFrom(entries, i, j)
    decreases |entries| - i
  {
    if i < |entries| {
      OnlyClaims(entries, memoryType, i + 1, j);
    }
  }

  /** The units of a memory type the header spills into an unlisted LU 0. */
  function SpillOfType(spec: Spec, dev: DeviceDescriptor, wb: WbPlan, memoryType: u8): nat
    requires dev.base >= 0x10
  {
    if spec.Claims(0) || Spilled(dev, wb, 0) == 0 || Spilled(dev, wb, 3) != memoryType then 0
    else SpillUnits(dev, wb)
  }

  function UnitsIfType(c: LuConfig, memoryType: u8): nat {
    if c.Enabled() && c.memoryType == memoryType then c.units else 0
  }

  lemma ClaimedTypeSlot(spec: Spec, dev: DeviceDescriptor, geo: GeometryDescriptor, memoryType: u8, j: nat)
    requires Planned(spec, dev, geo) && j < LUS && spec.Claims(j)
    ensures UnitsIfType(PlanOf(spec, dev, geo).value.descriptor.Lu(j), memoryType)
            == SlotUnits(Only(PlannedEntries(spec, dev, geo), memoryType), j)
  {
    PlanDecodes(spec, dev, geo, j);
    EntriesFollowScheme(spec, geo, WbOf(spec, dev, geo));
    OnlyClaims(PlannedEntries(spec, dev, geo), memoryType, 0, j);
    hide PlanOf, LuAt, PackFrom, HeaderDesc, EntriesOf, PlanWriteBooster, LuConfig.SizeBytes;
    var k :| 0 <= k < |spec.lus| && spec.lus[k].id == j;
    ClaimOf(PlannedEntries(spec, dev, geo), k);
  }

  lemma UnclaimedTypeSlot(spec: Spec, dev: DeviceDescriptor, geo: GeometryDescriptor, memoryType: u8, j: nat)
    requires Planned(spec, dev, geo) && j < LUS && !spec.Claims(j)
    ensures SlotUnits(Only(PlannedEntries(spec, dev, geo), memoryType), j) == 0
    ensures UnitsIfType(PlanOf(spec, dev, geo).value.descriptor.Lu(j), memoryType)
            == if j == 0 then SpillOfType(spec, dev, WbOf(spec, dev, geo), memoryType) else 0
  {
    var wb := WbOf(spec, dev, geo);
    OnlyClaims(PlannedEntries(spec, dev, geo), memoryType, 0, j);
    EntriesFollowScheme(spec, geo, wb);
    UnclaimedKeepsHeader(spec, dev, geo, j);
    hide PlanOf, EntriesOf, PlanWriteBooster, HeaderDesc, Desc.Lu, Spilled, SpillUnits;
    HeaderUnits(spec, dev, wb, j);
    if j == 0 {
      HeaderSpill(spec, dev, wb);
    } else {
      HeaderLus(spec, dev, wb, j);
    }
  }

  lemma TypeSlotDecoded(spec: Spec, dev: DeviceDescriptor, geo: GeometryDescriptor, memoryType: u8, j: nat)
    requires Planned(spec, dev, geo) && j < LUS
    ensures UnitsIfType(PlanOf(spec, dev, geo).value.descriptor.Lu(j), memoryType)
            == SlotUnits(Only(PlannedEntries(spec, dev, geo), memoryType), j)
               + if j == 0 then SpillOfType(spec, dev, WbOf(spec, dev, geo), memoryType) else 0
  {
    hide PlanOf, EntriesOf, PlanWriteBooster, Desc.Lu, Spilled, SpillUnits, Only, SlotUnits, UnitsIfType;
    if spec.Claims(j) {
      ClaimedTypeSlot(spec, dev, geo, memoryType, j);
    } else {
      UnclaimedTypeSlot(spec, dev, geo, memoryType, j);
    }
  }

  lemma {:induction false} TypeDecodedIsSlots(d: Desc, entries: seq<Entry>, memoryType: u8, spill: nat, n: nat)
    requires forall j: nat :: j < n ==>
               UnitsIfType(d.Lu(j), memoryType) == SlotUnits(entries, j) + if j == 0 then spill else 0
    ensures TypeDecoded(d, memoryType, n) == SumSlots(entries, n) + if n == 0 then 0 else spill
  {
    hide Desc.Lu, SlotUnits, UnitsIfType;
    if n > 0 {
      TypeDecodedIsSlots(d, entries, memoryType, spill, n - 1);
    }
  }

  /** The LUs of a packed plan take of each memory type what was planned, which is
      within what the device allows, and what the header spills into an unlisted LU 0. */
  lemma CeilingsHold(spec: Spec, dev: DeviceDescriptor, geo: GeometryDescriptor, memoryType: u8)
    requires Planned(spec, dev, geo)
    ensures TypeDecoded(PlanOf(spec, dev, geo).value.descriptor, memoryType, LUS)
            == TypeUnits(PlannedEntries(spec, dev, geo), memoryType)
               + SpillOfType(spec, dev, WbOf(spec, dev, geo), memoryType)
    ensures geo.MaxAllocUnits(memoryType).Some? ==>
              TypeUnits(PlannedEntries(spec, dev, geo), memoryType) <= geo.MaxAllocUnits(memoryType).value
  {
    var entries := PlannedEntries(spec, dev, geo);
    PlannedWithin(spec, dev, geo);
    var d := PlanOf(spec, dev, geo).value.descriptor;
    var spill := SpillOfType(spec, dev, WbOf(spec, dev, geo), memoryType);
    hide PlanOf, EntriesOf, PlanWriteBooster, Desc.Lu, GeometryDescriptor.MaxAllocUnits, SpillOfType, UnitsIfType, SlotUnits;
    forall j: nat | j < LUS
      ensures UnitsIfType(d.Lu(j), memoryType)
              == SlotUnits(Only(entries, memoryType), j) + if j == 0 then spill else 0
    {
      TypeSlotDecoded(spec, dev, geo, memoryType, j);
    }
    TypeDecodedIsSlots(d, Only(entries, memoryType), memoryType, spill, LUS);
    OnlySums(entries, memoryType);
    OnlyPackable(entries, memoryType);
    hide Packable, Only, SumSlots, TypeDecoded, SumUnits, TypeUnits;
    SumSlotsIsSum(Only(entries, memoryType));
  }

  lemma PlannedWithin(spec: Spec, dev: DeviceDescriptor, geo: GeometryDescriptor)
    requires Planned(spec, dev, geo)
    ensures WithinCeilings(PlannedEntries(spec, dev, geo), geo) && Packable(PlannedEntries(spec, dev, geo))
  {
    PlanDecodes(spec, dev, geo, 0);
    CeilingCheckExact(PlannedEntries(spec, dev, geo), geo);
    hide HeaderDesc, PlanWriteBooster, PackFrom, Desc.Lu, Stored, Wanted, WithinCeilings, Packable;
  }

  lemma OnlyPackable(entries: seq<Entry>, memoryType: u8)
    requires Packable(entries)
    ensures Packable(Only(entries, memoryType))
  {
  }

  /** The LU without a size takes the rest: something, and enough to install onto. */
  lemma RemainderBigEnough(spec: Spec, dev: DeviceDescriptor, geo: GeometryDescriptor, k: nat)
    requires Planned(spec, dev, geo) && k < |spec.lus| && spec.lus[k].sizeMib.None?
    ensures PlanOf(spec, dev, geo).value.descriptor.Lu(spec.lus[k].id).units > 0
    ensures PlanOf(spec, dev, geo).value.descriptor.Lu(spec.lus[k].id).SizeBytes(geo) >= MIN_TARGET
  {
    var wb := WbOf(spec, dev, geo);
    var entries := PlannedEntries(spec, dev, geo);
    EntriesConserve(spec, geo, wb);
    EntriesFollowScheme(spec, geo, wb);
    PlanDecodes(spec, dev, geo, spec.lus[k].id);
    hide PlanOf, EntriesOf, PlanWriteBooster, Desc.Lu, LuConfig.SizeBytes, Stored, RestOf;
    ClaimOf(entries, k);
    assert EntryOf(entries[k], spec.lus[k], geo, RestOf(spec, geo, wb));
    StoredSize(Wanted(entries[k], wb), PlanOf(spec, dev, geo).value.descriptor.HasLuWriteBooster(), geo);
  }

  lemma StoredSize(c: LuConfig, wb: bool, geo: GeometryDescriptor)
    requires geo.Valid()
    ensures Stored(c, wb).SizeBytes(geo) == c.SizeBytes(geo) && Stored(c, wb).units == c.units
  {
  }

  lemma ClaimOf(entries: seq<Entry>, k: nat)
    requires Packable(entries) && k < |entries|
    ensures ClaimFrom(entries, 0, entries[k].lu.id) == Some(k)
  {
    var r := ClaimFrom(entries, 0, entries[k].lu.id);
    assert r.Some?;
  }

  /** A sized LU decodes with the least unit count holding the size asked for. */
  lemma SizedLuIsOptimal(spec: Spec, dev: DeviceDescriptor, geo: GeometryDescriptor, k: nat, c: LuConfig)
    requires Planned(spec, dev, geo) && k < |spec.lus| && spec.lus[k].sizeMib.Some?
    requires c.memoryType == spec.lus[k].memoryType
    ensures c.SizeBytes(geo) >= spec.lus[k].sizeMib.value * MIB
            <==> c.units >= PlanOf(spec, dev, geo).value.descriptor.Lu(spec.lus[k].id).units
  {
    var wb := WbOf(spec, dev, geo);
    var entries := PlannedEntries(spec, dev, geo);
    EntriesConserve(spec, geo, wb);
    PlanDecodes(spec, dev, geo, spec.lus[k].id);
    ClaimOf(entries, k);
    assert EntryOf(entries[k], spec.lus[k], geo, RestOf(spec, geo, wb));
    AllocUnitsOptimal(spec.lus[k].sizeMib.value, geo, c);
  }
}
