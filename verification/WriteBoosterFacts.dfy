/** What WriteBooster planning promises (src/core/provision.rs:398-429, 529-607;
    JESD220C-2.2 section 13.4.14.2). */
module WriteBoosterFacts {
  import opened Bytes
  import opened Ufs
  import opened SchemeModel
  import opened Planning
  import opened PlanFacts

  lemma CostZero(units: nat, factor: nat)
    requires units > 0 && factor > 0
    ensures units * factor > 0
  {
  }

  /** The buffer stays within the device's maximum and sits only where the device and
      the layout allow it; it costs capacity exactly when it exists and user space
      cannot be preserved. */
  lemma BufferRespectsDevice(spec: Spec, dev: DeviceDescriptor, geo: GeometryDescriptor)
    requires geo.Valid() && PlanWriteBooster(spec, dev, geo).Success?
    ensures var wb := PlanWriteBooster(spec, dev, geo).value;
            && wb.units <= geo.wbMaxAllocUnits
            && (wb.placement != NoBuffer ==> dev.WriteBoosterSupported() && wb.units > 0)
            && (wb.placement == NoBuffer ==> wb == NO_WB)
            && (wb.placement == Shared ==> geo.SupportsShared())
            && (wb.placement == Dedicated ==> geo.wbBufferTypes != 0x01 && dev.LuBlockHasWriteBooster())
            && (wb.placement == Dedicated ==> spec.dedicated || !geo.SupportsShared())
            && (wb.cost == 0 <==> wb.placement == NoBuffer || geo.CanPreserveUserSpace())
            && (wb.placement != NoBuffer ==> (wb.preserve == 1 <==> geo.CanPreserveUserSpace()))
  {
    var wb := PlanWriteBooster(spec, dev, geo).value;
    if wb.placement != NoBuffer {
      RequestedPositive(spec, geo);
      hide WbRequested, WbPlacement, Planning.NO_WB;
      var requested := WbRequested(spec, geo).value;
      if !geo.CanPreserveUserSpace() {
        CostZero(requested, if geo.wbCapAdjFac == 0 then 1 else geo.wbCapAdjFac);
      }
    }
    PlacementOffered(spec, dev, geo);
  }

  /** Whether there is a buffer at all, where it sits, whether it preserves user space and
      what it is charged for, from the scheme and the published fields: bit 8 of
      dExtendedUFSFeaturesSupport, the length of an LU block, the supported buffer types
      and the supported ways of keeping user space. */
  lemma PlacementExact(spec: Spec, dev: DeviceDescriptor, geo: GeometryDescriptor)
    requires geo.Valid()
    ensures PlanWriteBooster(spec, dev, geo).Failure? <==>
              dev.extendedFeatures / 0x100 % 2 == 1 && geo.wbMaxAllocUnits > 0 && spec.wb == UnknownKeyword
    ensures PlanWriteBooster(spec, dev, geo).Success? ==>
              var wb := PlanWriteBooster(spec, dev, geo).value;
              var wanted := dev.extendedFeatures / 0x100 % 2 == 1 && geo.wbMaxAllocUnits > 0 && spec.wb != Sized(0);
              var shared := geo.wbBufferTypes == 0x01 || geo.wbBufferTypes == 0x02;
              var room := dev.stride >= 0x1A;
              var preserved := geo.wbUserSpaceTypes == 0x01 || geo.wbUserSpaceTypes == 0x02;
              && (wb.placement == NoBuffer <==> !wanted || (!shared && !room))
              && (wb.placement == Dedicated <==>
                    wanted && room && geo.wbBufferTypes != 0x01 && (spec.dedicated || geo.wbBufferTypes != 0x02))
              && (wb.placement == Shared <==>
                    wanted && shared && (!spec.dedicated || !room || geo.wbBufferTypes == 0x01))
              && (wb.placement != NoBuffer ==>
                    && wb.preserve == (if preserved then 1 else 0)
                    && wb.cost == (if preserved then 0
                                   else wb.units * (if geo.wbCapAdjFac == 0 then 1 else geo.wbCapAdjFac))
                    && (spec.wb == Max ==> wb.units == geo.wbMaxAllocUnits))
  {
    hide DivCeil;
    var factor := if geo.wbCapAdjFac == 0 then 1 else geo.wbCapAdjFac;
    if PlanWriteBooster(spec, dev, geo).Success? && WbRequested(spec, geo).Success? {
      var requested := WbRequested(spec, geo).value;
      assert PlanWriteBooster(spec, dev, geo).value.cost in {0, requested * factor};
    }
  }

  lemma PlacementOffered(spec: Spec, dev: DeviceDescriptor, geo: GeometryDescriptor)
    ensures WbPlacement(spec, dev, geo) == Shared ==> geo.SupportsShared()
    ensures WbPlacement(spec, dev, geo) == Dedicated ==>
              && geo.wbBufferTypes != 0x01 && dev.LuBlockHasWriteBooster()
              && (spec.dedicated || !geo.SupportsShared())
  {
  }

  lemma RequestedPositive(spec: Spec, geo: GeometryDescriptor)
    requires geo.Valid() && geo.wbMaxAllocUnits > 0 && spec.wb != Sized(0) && WbRequested(spec, geo).Success?
    ensures 0 < WbRequested(spec, geo).value <= geo.wbMaxAllocUnits
  {
    if spec.wb.Sized? {
      CeilAtMost(spec.wb.mib * MIB, geo.AllocUnitBytes(), 0);
    }
  }

  /** A size in MiB asks for the least number of units holding it, capped at what the
      device has. */
  lemma RequestedLeast(spec: Spec, geo: GeometryDescriptor, n: nat)
    requires geo.Valid() && spec.wb.Sized? && n <= geo.wbMaxAllocUnits
    ensures WbRequested(spec, geo).Success?
    ensures n >= WbRequested(spec, geo).value
            <==> n * geo.AllocUnitBytes() >= spec.wb.mib * MIB || n == geo.wbMaxAllocUnits
  {
    CeilAtMost(spec.wb.mib * MIB, geo.AllocUnitBytes(), n);
  }

  ghost predicate RemainderCanCarry(spec: Spec) {
    exists k :: 0 <= k < |spec.lus| && spec.lus[k].sizeMib.None?
      && spec.lus[k].memoryType == NORMAL && spec.lus[k].bootId == BOOT_NONE
  }

  lemma HeaderNoBuffer(spec: Spec, dev: DeviceDescriptor, wb: WbPlan, j: nat)
    requires dev.Valid() && j < LUS
    ensures HeaderDesc(spec, dev, wb).Lu(j).wbUnits == 0
  {
    hide HeaderDesc, Desc.Lu, Spilled;
    if j > 0 {
      HeaderLus(spec, dev, wb, j);
    } else {
      HeaderSpill(spec, dev, wb);
    }
  }

  /** The decoded buffer size of every LU: the planned one on a normal, non-boot
      remainder LU of a dedicated plan, and zero everywhere else. */
  lemma BufferOnLu(spec: Spec, dev: DeviceDescriptor, geo: GeometryDescriptor, j: nat)
    requires Planned(spec, dev, geo) && j < LUS
    ensures var wb := WbOf(spec, dev, geo);
            PlanOf(spec, dev, geo).value.descriptor.Lu(j).wbUnits
            == if exists k :: 0 <= k < |spec.lus| && spec.lus[k].id == j && CarriesBuffer(spec.lus[k], wb)
               then wb.units else 0
  {
    var wb := WbOf(spec, dev, geo);
    var entries := PlannedEntries(spec, dev, geo);
    PlanDecodes(spec, dev, geo, j);
    EntriesFollowScheme(spec, geo, wb);
    BufferRespectsDevice(spec, dev, geo);
    if spec.Claims(j) {
      var k :| 0 <= k < |spec.lus| && spec.lus[k].id == j;
      hide PlanOf, EntriesOf, PlanWriteBooster, LuAt;
      ClaimOf(entries, k);
    } else {
      UnclaimedKeepsHeader(spec, dev, geo, j);
      HeaderNoBuffer(spec, dev, wb, j);
    }
  }

  /** No two LUs carry a buffer. */
  lemma AtMostOneBuffer(spec: Spec, dev: DeviceDescriptor, geo: GeometryDescriptor, i: nat, j: nat)
    requires Planned(spec, dev, geo) && i < LUS && j < LUS && i != j
    ensures PlanOf(spec, dev, geo).value.descriptor.Lu(i).wbUnits == 0
            || PlanOf(spec, dev, geo).value.descriptor.Lu(j).wbUnits == 0
  {
    BufferOnLu(spec, dev, geo, i);
    BufferOnLu(spec, dev, geo, j);
    OneCarrier(spec.lus, WbOf(spec, dev, geo), i, j);
    hide PlanOf, PlanWriteBooster, Desc.Lu, WbOf, CarriesBuffer, OneRemainder;
  }

  lemma OneCarrier(lus: seq<LuSpec>, wb: WbPlan, i: nat, j: nat)
    requires OneRemainder(lus) && i != j
    ensures !((exists k :: 0 <= k < |lus| && lus[k].id == i && CarriesBuffer(lus[k], wb))
              && (exists k :: 0 <= k < |lus| && lus[k].id == j && CarriesBuffer(lus[k], wb)))
  {
    var k :| 0 <= k < |lus| && lus[k].sizeMib.None? && OthersSized(lus, k);
    assert forall m :: 0 <= m < |lus| && CarriesBuffer(lus[m], wb) ==> m == k;
  }

  /** A dedicated buffer reaches the device exactly when the LU taking the rest is
      normal memory and not a boot LU. Otherwise the plan charges for a buffer that
      no LU carries. */
  lemma DedicatedBufferPlacedExactly(spec: Spec, dev: DeviceDescriptor, geo: GeometryDescriptor)
    requires Planned(spec, dev, geo) && WbOf(spec, dev, geo).placement == Dedicated
    ensures (exists j :: 0 <= j < LUS && PlanOf(spec, dev, geo).value.descriptor.Lu(j).wbUnits != 0)
            <==> RemainderCanCarry(spec)
  {
    var wb := WbOf(spec, dev, geo);
    var d := PlanOf(spec, dev, geo).value.descriptor;
    BufferRespectsDevice(spec, dev, geo);
    hide PlanOf, PlanWriteBooster, Desc.Lu;
    forall j | 0 <= j < LUS
      ensures d.Lu(j).wbUnits != 0 <==>
              exists k :: 0 <= k < |spec.lus| && spec.lus[k].id == j && CarriesBuffer(spec.lus[k], wb)
    {
      BufferOnLu(spec, dev, geo, j);
    }
    if RemainderCanCarry(spec) {
      var k :| 0 <= k < |spec.lus| && spec.lus[k].sizeMib.None?
        && spec.lus[k].memoryType == NORMAL && spec.lus[k].bootId == BOOT_NONE;
      assert CarriesBuffer(spec.lus[k], wb);
      assert d.Lu(spec.lus[k].id).wbUnits != 0;
    }
  }

  lemma WbHeaderReadsBack(d: Desc, wb: WbPlan)
    requires |d.bytes| >= 0x16 && forall k :: 0x10 <= k < 0x16 ==> d.bytes[k] == WbHeader(wb)[k - 0x10]
    requires wb.placement == NoBuffer ==> wb == NO_WB
    ensures d.WbPreserve() == wb.preserve
    ensures d.WbBufferType() == (if wb.placement == Shared then 1 else 0)
    ensures d.WbSharedUnits() == (if wb.placement == Shared then wb.units else 0)
  {
    Be32RoundTrip(wb.units);
    var h := WbHeader(wb);
    assert d.bytes[0x10] == h[0] && d.bytes[0x11] == h[1];
    assert d.bytes[0x12] == h[2] && d.bytes[0x13] == h[3] && d.bytes[0x14] == h[4] && d.bytes[0x15] == h[5];
    if wb.placement == Shared {
      assert h[2..] == Be32(wb.units);
    }
  }

  /** The shared header fields read back as planned when LU 0 starts after them. */
  lemma SharedHeaderReadsBack(spec: Spec, dev: DeviceDescriptor, geo: GeometryDescriptor)
    requires Planned(spec, dev, geo) && dev.base >= WB_HEADER_END
    ensures var wb := WbOf(spec, dev, geo);
            var d := PlanOf(spec, dev, geo).value.descriptor;
            && d.WbPreserve() == wb.preserve
            && d.WbBufferType() == (if wb.placement == Shared then 1 else 0)
            && d.WbSharedUnits() == (if wb.placement == Shared then wb.units else 0)
  {
    var wb := WbOf(spec, dev, geo);
    var d := PlanOf(spec, dev, geo).value.descriptor;
    PlanLayout(spec, dev, geo);
    HeaderBytes(spec, dev, wb);
    BufferRespectsDevice(spec, dev, geo);
    hide HeaderDesc, PlanOf, PlanWriteBooster, WbHeader, Desc.Lu, EntriesOf;
    WbHeaderReadsBack(d, wb);
  }
}
