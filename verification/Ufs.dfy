/** The UFS descriptors provisioning reads and writes (src/core/ufs.rs).

    Multi-byte fields are big-endian. Field offsets follow JESD220C-2.2 tables
    14-4 (device), 14-10 and 14-12 (configuration) and 14-13 (geometry). */
module Ufs {
  import opened Wrappers
  import opened Bytes
  import opened Text

  const LUS: nat := 8

  const NORMAL: u8 := 0x00
  const BOOT_NONE: u8 := 0x00
  const BOOT_A: u8 := 0x01
  const BOOT_B: u8 := 0x02
  const MAX_NUMBER_LU_32: u8 := 0x01

  // --- memory types -----------------------------------------------------

  datatype MemoryType = MemoryType(code: u8, bit: u16, name: string)

  const MEMORY_TYPES: seq<MemoryType> := [
    MemoryType(0x00, 0x01, "normal"),
    MemoryType(0x01, 0x02, "system code"),
    MemoryType(0x02, 0x04, "non-persistent"),
    MemoryType(0x03, 0x08, "enhanced1"),
    MemoryType(0x04, 0x10, "enhanced2"),
    MemoryType(0x05, 0x20, "enhanced3"),
    MemoryType(0x06, 0x40, "enhanced4")
  ]

  function FindCode(code: u8, from: nat): Option<nat>
    requires from <= |MEMORY_TYPES|
    decreases |MEMORY_TYPES| - from
  {
    if from == |MEMORY_TYPES| then None
    else if MEMORY_TYPES[from].code == code then Some(from)
    else FindCode(code, from + 1)
  }

  function FindName(name: string, from: nat): Option<nat>
    requires from <= |MEMORY_TYPES|
    decreases |MEMORY_TYPES| - from
  {
    if from == |MEMORY_TYPES| then None
    else if EqIgnoreCase(MEMORY_TYPES[from].name, name) then Some(from)
    else FindName(name, from + 1)
  }

  function MemoryTypeIndex(code: u8): Option<nat> {
    FindCode(code, 0)
  }

  function MemoryTypeName(code: u8): string {
    var i := MemoryTypeIndex(code);
    if i.Some? && i.value < |MEMORY_TYPES| then MEMORY_TYPES[i.value].name else "unknown"
  }

  function MemoryTypeFromName(name: string): Option<u8> {
    var i := FindName(name, 0);
    if i.Some? && i.value < |MEMORY_TYPES| then Some(MEMORY_TYPES[i.value].code) else None
  }

  /** The table is indexed by `bMemoryType`, and knows exactly the codes below 7. */
  lemma MemoryTypeIndexIsCode(code: u8)
    ensures MemoryTypeIndex(code) == if code < 7 then Some(code) else None
  {
    FindCodeFrom(code, 0);
  }

  lemma {:induction false} FindCodeFrom(code: u8, from: nat)
    requires from <= 7
    ensures FindCode(code, from) == if from <= code < 7 then Some(code) else None
    decreases 7 - from
  {
    if from < 7 {
      assert MEMORY_TYPES[from].code == from;
      FindCodeFrom(code, from + 1);
    }
  }

  lemma {:induction false} FindNameInTable(name: string, from: nat)
    requires from <= 7
    ensures FindName(name, from).Some? ==> FindName(name, from).value < 7
    decreases 7 - from
  {
    if from < 7 {
      FindNameInTable(name, from + 1);
    }
  }

  lemma MemoryTypeFromNameKnown(name: string)
    requires MemoryTypeFromName(name).Some?
    ensures MemoryTypeFromName(name).value < 7
  {
    FindNameInTable(name, 0);
  }

  /** Comparing two memory types by name, as `compare` does, compares the types
      whenever one of them is a type the table knows. */
  lemma MemoryTypeNameInjective(a: u8, b: u8)
    requires a < 7
    ensures MemoryTypeName(a) == MemoryTypeName(b) <==> a == b
  {
    MemoryTypeIndexIsCode(a);
    MemoryTypeIndexIsCode(b);
    assert "normal"[0] == 'n' && "system code"[0] == 's' && "non-persistent"[0] == 'n';
    assert "enhanced1"[8] == '1' && "enhanced2"[8] == '2' && "enhanced3"[8] == '3' && "enhanced4"[8] == '4';
    assert |"normal"| == 6 && |"system code"| == 11 && |"non-persistent"| == 14;
    assert |"unknown"| == 7;
  }

  // --- device descriptor --------------------------------------------------

  datatype DeviceDescriptor = DeviceDescriptor(base: u8, stride: u8, extendedFeatures: u32) {

    /** What `DeviceDescriptor::parse` lets through. */
    predicate Valid() {
      base >= 0x10 && stride >= 0x10
    }

    predicate WriteBoosterSupported() {
      extendedFeatures / 0x100 % 2 == 1
    }

    function ConfigDescLen(): nat {
      base + LUS * stride
    }

    predicate LuBlockHasWriteBooster() {
      stride >= LU_WB_UNITS + 4
    }
  }

  datatype ParseError = TooShort | UnusableLayout | ZeroAllocationUnit

  /** `DeviceDescriptor::parse`: the layout bytes must be there and leave room for the
      header and for an LU block; the feature word is zero when the buffer ends before. */
  function ParseDevice(buf: seq<u8>): (r: Result<DeviceDescriptor, ParseError>)
    ensures r == Failure(TooShort) <==> |buf| < 0x1C
    ensures r == Failure(UnusableLayout) <==> |buf| >= 0x1C && (buf[0x1A] < 0x10 || buf[0x1B] < 0x10)
    ensures r.Failure? ==> r.error != ZeroAllocationUnit
    ensures r.Success? ==> r.value.base == buf[0x1A] && r.value.stride == buf[0x1B]
    ensures r.Success? ==>
              r.value.extendedFeatures
              == if |buf| < 0x53 then 0
                 else 0x100_0000 * buf[0x4F] as int + 0x1_0000 * buf[0x50] as int + 0x100 * buf[0x51] as int + buf[0x52] as int
  {
    if |buf| < 0x1C then Failure(TooShort)
    else
      var d := DeviceDescriptor(U8At(buf, 0x1A), U8At(buf, 0x1B), U32At(buf, 0x4F));
      if d.Valid() then Success(d) else Failure(UnusableLayout)
  }

  // --- geometry descriptor ------------------------------------------------

  datatype GeometryDescriptor = GeometryDescriptor(
    totalRawCapacity: nat,
    maxNumberLu: u8,
    segmentSize: u32,
    allocationUnitSize: u8,
    supportedMemoryTypes: u16,
    maxAllocUnits: seq<u32>,
    capAdjFac: seq<u16>,
    wbMaxAllocUnits: u32,
    wbCapAdjFac: u8,
    wbUserSpaceTypes: u8,
    wbBufferTypes: u8)
  {
    /** What `GeometryDescriptor::parse` lets through. */
    predicate Valid() {
      segmentSize != 0 && allocationUnitSize != 0 && |maxAllocUnits| == 7 && |capAdjFac| == 7
    }

    function AllocUnitSectors(): (r: nat)
      requires Valid()
      ensures r > 0
    {
      ProductPositive(segmentSize, allocationUnitSize);
      segmentSize * allocationUnitSize
    }

    function AllocUnitBytes(): nat
      requires Valid()
    {
      AllocUnitSectors() * 512
    }

    function TotalAllocUnits(): nat
      requires Valid()
    {
      QuotientNonNegative(totalRawCapacity, AllocUnitSectors());
      totalRawCapacity / AllocUnitSectors()
    }

    /** Raw units one usable unit of a memory type costs; `None` for an unknown
        type or a published factor below one. */
    function CapAdj(code: u8): (r: Option<nat>)
      requires Valid()
      ensures r.Some? ==> r.value > 0
      ensures code == 0x00 ==> r == Some(1)
      ensures 1 <= code < 7 ==> (r.Some? <==> capAdjFac[code] >= 0x100)
      ensures code >= 7 ==> r.None?
    {
      if MemoryTypeIndex(code).None? then None
      else if code == NORMAL then Some(1)
      else
        MemoryTypeIndexIsCode(code);
        var f := capAdjFac[code] / 256;
        if f == 0 then None else Some(f)
    }

    /** The allocation ceiling of a memory type; Normal publishes none. */
    function MaxAllocUnits(code: u8): (r: Option<u32>)
      requires Valid()
      ensures r.Some? <==> 1 <= code < 7
    {
      MemoryTypeIndexIsCode(code);
      if MemoryTypeIndex(code).None? || code == NORMAL then None
      else
        MemoryTypeIndexIsCode(code);
        Some(maxAllocUnits[code])
    }

    predicate SupportsMemoryType(code: u8) {
      MemoryTypeIndexIsCode(code);
      MemoryTypeIndex(code).Some? && supportedMemoryTypes / MEMORY_TYPES[code].bit % 2 == 1
    }

    predicate CanPreserveUserSpace() {
      wbUserSpaceTypes == 0x01 || wbUserSpaceTypes == 0x02
    }

    predicate SupportsShared() {
      wbBufferTypes == 0x01 || wbBufferTypes == 0x02
    }
  }

  lemma ProductPositive(a: nat, b: nat)
    requires a > 0 && b > 0
    ensures a * b > 0
  {
  }

  lemma QuotientNonNegative(a: nat, b: nat)
    requires b > 0
    ensures a / b >= 0
  {
  }

  /** Where each memory type's ceiling sits; its cost factor follows four bytes on. */
  const MEMORY_TYPE_OFFSETS: seq<Option<nat>> :=
    [None, Some(0x20), Some(0x26), Some(0x2C), Some(0x32), Some(0x38), Some(0x3E)]

  /** `GeometryDescriptor::parse`: the per-type tables are filled in a loop over the
      offsets. Normal keeps zeroes, and the rest lie at a six-byte stride from 0x20. */
  method ParseGeometry(buf: seq<u8>) returns (r: Result<GeometryDescriptor, ParseError>)
    ensures r == Failure(TooShort) <==> |buf| < 0x21
    ensures r == Failure(ZeroAllocationUnit) <==>
              |buf| >= 0x21 && (U32At(buf, 0x0D) == 0 || U8At(buf, 0x11) == 0)
    ensures r.Failure? ==> r.error != UnusableLayout
    ensures r.Success? ==>
              && r.value.Valid()
              && r.value.totalRawCapacity == U64At(buf, 0x04)
              && r.value.maxNumberLu == U8At(buf, 0x0C)
              && r.value.segmentSize == U32At(buf, 0x0D)
              && r.value.allocationUnitSize == U8At(buf, 0x11)
              && r.value.supportedMemoryTypes == U16At(buf, 0x1E)
              && r.value.maxAllocUnits[0] == 0 && r.value.capAdjFac[0] == 0
              && (forall t :: 1 <= t < 7 ==>
                    && r.value.maxAllocUnits[t] == U32At(buf, 0x1A + 6 * t)
                    && r.value.capAdjFac[t] == U16At(buf, 0x1E + 6 * t))
              && r.value.wbMaxAllocUnits == U32At(buf, 0x4F)
              && r.value.wbCapAdjFac == U8At(buf, 0x54)
              && r.value.wbUserSpaceTypes == U8At(buf, 0x55)
              && r.value.wbBufferTypes == U8At(buf, 0x56)
  {
    if |buf| < 0x21 {
      return Failure(TooShort);
    }
    var ceilings := new u32[7](_ => 0);
    var factors := new u16[7](_ => 0);
    for i := 0 to 7
      invariant ceilings[0] == 0 && factors[0] == 0
      invariant forall t :: 1 <= t < i ==> ceilings[t] == U32At(buf, 0x1A + 6 * t)
      invariant forall t :: 1 <= t < i ==> factors[t] == U16At(buf, 0x1E + 6 * t)
    {
      match MEMORY_TYPE_OFFSETS[i]
      case None =>
      case Some(at) =>
        assert at == 0x1A + 6 * i;
        ceilings[i] := U32At(buf, at);
        factors[i] := U16At(buf, at + 4);
    }
    var g := GeometryDescriptor(
      U64At(buf, 0x04), U8At(buf, 0x0C), U32At(buf, 0x0D), U8At(buf, 0x11), U16At(buf, 0x1E),
      ceilings[..], factors[..],
      U32At(buf, 0x4F), U8At(buf, 0x54), U8At(buf, 0x55), U8At(buf, 0x56));
    if g.segmentSize == 0 || g.allocationUnitSize == 0 {
      return Failure(ZeroAllocationUnit);
    }
    return Success(g);
  }

  // --- logical units --------------------------------------------------------

  datatype LuConfig = LuConfig(
    enable: u8,
    bootLunId: u8,
    writeProtect: u8,
    memoryType: u8,
    units: u32,
    dataReliability: u8,
    blockSize: u8,
    provisioning: u8,
    context: u16,
    wbUnits: u32)
  {
    predicate Enabled() {
      enable != 0
    }

    /** Usable capacity in bytes. */
    function SizeBytes(geo: GeometryDescriptor): nat
      requires geo.Valid()
    {
      var adj := match geo.CapAdj(memoryType) case Some(f) => f case None => 1;
      QuotientNonNegative(units * geo.AllocUnitBytes(), adj);
      units * geo.AllocUnitBytes() / adj
    }
  }

  const ABSENT: LuConfig := LuConfig(0, 0, 0, 0, 0, 0, 0, 0, 0, 0)

  // --- configuration descriptor: values -------------------------------------

  const LU_WB_UNITS: nat := 0x16
  /** The shared WriteBooster fields end here; an LU block may start sooner. */
  const WB_HEADER_END: nat := 0x16

  /** The contents of a configuration descriptor and the layout it is read with. */
  datatype Desc = Desc(bytes: seq<u8>, base: nat, stride: nat) {

    predicate Valid() {
      base >= 0x10 && stride >= 0x10 && |bytes| >= base + LUS * stride
    }

    predicate HasLuWriteBooster() {
      stride >= LU_WB_UNITS + 4
    }

    function LuOffset(i: nat): nat {
      base + i * stride
    }

    function Lu(i: nat): LuConfig {
      LuAt(bytes, LuOffset(i), HasLuWriteBooster())
    }

    function BootEnable(): u8 { U8At(bytes, 0x03) }
    function DescrAccessEn(): u8 { U8At(bytes, 0x04) }
    function InitPowerMode(): u8 { U8At(bytes, 0x05) }
    function HighPriorityLun(): u8 { U8At(bytes, 0x06) }
    function SecureRemovalType(): u8 { U8At(bytes, 0x07) }
    function InitActiveIccLevel(): u8 { U8At(bytes, 0x08) }
    function PeriodicRtcUpdate(): u16 { U16At(bytes, 0x09) }
    function WbPreserve(): u8 { U8At(bytes, 0x10) }
    function WbBufferType(): u8 { U8At(bytes, 0x11) }
    function WbSharedUnits(): u32 { U32At(bytes, 0x12) }
  }

  /** Decode the LU block at `at`. */
  function LuAt(s: seq<u8>, at: nat, wb: bool): LuConfig {
    LuConfig(
      U8At(s, at), U8At(s, at + 0x01), U8At(s, at + 0x02), U8At(s, at + 0x03),
      U32At(s, at + 0x04), U8At(s, at + 0x08), U8At(s, at + 0x09), U8At(s, at + 0x0A),
      U16At(s, at + 0x0B), if wb then U32At(s, at + LU_WB_UNITS) else 0)
  }

  /** The thirteen bytes an LU block starts with. */
  function LuHead(c: LuConfig): seq<u8> {
    [c.enable, c.bootLunId, c.writeProtect, c.memoryType] + Be32(c.units)
    + [c.dataReliability, c.blockSize, c.provisioning] + Be16(c.context)
  }

  function PutLu(s: seq<u8>, at: nat, wb: bool, c: LuConfig): (r: seq<u8>)
    requires at + (if wb then LU_WB_UNITS + 4 else 0x10) <= |s|
    ensures |r| == |s|
  {
    var head := Splice(s, at, LuHead(c));
    if wb then Splice(head, at + LU_WB_UNITS, Be32(c.wbUnits)) else head
  }

  /** `LuConfig` as the layout can store it: no WriteBooster size in a short block. */
  function Stored(c: LuConfig, wb: bool): LuConfig {
    if wb then c else c.(wbUnits := 0)
  }

  lemma PutLuReadBack(s: seq<u8>, at: nat, wb: bool, c: LuConfig)
    requires at + (if wb then LU_WB_UNITS + 4 else 0x10) <= |s|
    ensures LuAt(PutLu(s, at, wb, c), at, wb) == Stored(c, wb)
  {
    Be32RoundTrip(c.units);
    Be16RoundTrip(c.context);
    Be32RoundTrip(c.wbUnits);
  }

  lemma PutLuFrame(s: seq<u8>, at: nat, wb: bool, c: LuConfig, k: nat)
    requires at + (if wb then LU_WB_UNITS + 4 else 0x10) <= |s|
    requires k < |s|
    requires !(at <= k < at + 0x0D) && !(wb && at + LU_WB_UNITS <= k < at + LU_WB_UNITS + 4)
    ensures PutLu(s, at, wb, c)[k] == s[k]
  {
  }

  lemma LuAtDependsOn(s: seq<u8>, t: seq<u8>, at: nat, wb: bool)
    requires |s| == |t|
    requires forall k :: at <= k < at + (if wb then LU_WB_UNITS + 4 else 0x10) && k < |s| ==> s[k] == t[k]
    ensures LuAt(s, at, wb) == LuAt(t, at, wb)
  {
  }

  /** Blocks of different LUs do not overlap, and none leaves the buffer. */
  lemma BlocksApart(base: nat, stride: nat, i: nat, j: nat)
    requires i < j < LUS
    ensures base + i * stride + stride <= base + j * stride
    ensures base + j * stride + stride <= base + LUS * stride
  {
    assert (j - i) * stride >= stride;
    assert (LUS - j) * stride >= stride;
  }

  lemma BlockInside(base: nat, stride: nat, i: nat)
    requires i < LUS
    ensures base + i * stride + stride <= base + LUS * stride
  {
    assert (LUS - i) * stride >= stride;
  }

  function WithLu(d: Desc, i: nat, c: LuConfig): (r: Desc)
    requires d.Valid() && i < LUS
    ensures r.Valid() && r.base == d.base && r.stride == d.stride && |r.bytes| == |d.bytes|
  {
    BlockInside(d.base, d.stride, i);
    d.(bytes := PutLu(d.bytes, d.LuOffset(i), d.HasLuWriteBooster(), c))
  }

  lemma WithLuFrame(d: Desc, i: nat, c: LuConfig, k: nat)
    requires d.Valid() && i < LUS && k < |d.bytes|
    requires !(d.LuOffset(i) <= k < d.LuOffset(i) + d.stride)
    ensures WithLu(d, i, c).bytes[k] == d.bytes[k]
  {
    BlockInside(d.base, d.stride, i);
    PutLuFrame(d.bytes, d.LuOffset(i), d.HasLuWriteBooster(), c, k);
  }

  lemma WithLuOther(d: Desc, i: nat, c: LuConfig, j: nat)
    requires d.Valid() && i < LUS && j < LUS && i != j
    ensures WithLu(d, i, c).Lu(j) == d.Lu(j)
  {
    var r := WithLu(d, i, c);
    if i < j {
      BlocksApart(d.base, d.stride, i, j);
    } else {
      BlocksApart(d.base, d.stride, j, i);
    }
    forall k | d.LuOffset(j) <= k < d.LuOffset(j) + d.stride && k < |d.bytes|
      ensures r.bytes[k] == d.bytes[k]
    {
      WithLuFrame(d, i, c, k);
    }
    LuAtDependsOn(d.bytes, r.bytes, d.LuOffset(j), d.HasLuWriteBooster());
  }

  /** Read over write for whole logical units, and the frame around the block: the
      law the byte layout has to keep for every base and stride. */
  lemma LuReadOverWrite(d: Desc, i: nat, c: LuConfig, j: nat)
    requires d.Valid() && i < LUS && j < LUS
    ensures WithLu(d, i, c).Lu(j) == if i == j then Stored(c, d.HasLuWriteBooster()) else d.Lu(j)
    ensures forall k :: 0 <= k < d.base ==> WithLu(d, i, c).bytes[k] == d.bytes[k]
    ensures d.LuOffset(i) + d.stride <= |d.bytes|
    ensures forall k :: 0 <= k < |d.bytes| && !(d.LuOffset(i) <= k < d.LuOffset(i) + d.stride) ==>
              WithLu(d, i, c).bytes[k] == d.bytes[k]
  {
    hide PutLu, LuAt;
    BlockInside(d.base, d.stride, i);
    assert 0 <= i * d.stride;
    forall k | 0 <= k < |d.bytes| && !(d.LuOffset(i) <= k < d.LuOffset(i) + d.stride)
      ensures WithLu(d, i, c).bytes[k] == d.bytes[k]
    {
      WithLuFrame(d, i, c, k);
    }
    if i == j {
      PutLuReadBack(d.bytes, d.LuOffset(i), d.HasLuWriteBooster(), c);
    } else {
      WithLuOther(d, i, c, j);
    }
  }

  /** An all-zero descriptor carrying only its length and type bytes. */
  function EmptyDesc(dev: DeviceDescriptor): (r: Desc)
    requires dev.Valid()
    ensures r.Valid() && r.base == dev.base && r.stride == dev.stride && |r.bytes| == dev.ConfigDescLen()
  {
    Desc([dev.ConfigDescLen() % 0x100, 0x01] + Zeros(dev.ConfigDescLen() - 2), dev.base, dev.stride)
  }

  function WithHeader(d: Desc, bootEnable: u8, access: u8, power: u8, priority: u8,
                      removal: u8, icc: u8, rtc: u16): (r: Desc)
    requires d.Valid()
    ensures r.Valid() && r.base == d.base && r.stride == d.stride && |r.bytes| == |d.bytes|
  {
    d.(bytes := Splice(d.bytes, 0x03, [bootEnable, access, power, priority, removal, icc] + Be16(rtc)))
  }

  function WithSharedWb(d: Desc, preserve: u8, units: u32): (r: Desc)
    requires d.Valid()
    ensures r.Valid() && r.base == d.base && r.stride == d.stride && |r.bytes| == |d.bytes|
  {
    d.(bytes := Splice(d.bytes, 0x10, [preserve, 0x01] + Be32(units)))
  }

  function WithDedicatedWb(d: Desc, preserve: u8): (r: Desc)
    requires d.Valid()
    ensures r.Valid() && r.base == d.base && r.stride == d.stride && |r.bytes| == |d.bytes|
  {
    d.(bytes := Splice(d.bytes, 0x10, [preserve, 0x00]))
  }

  // --- configuration descriptor: the buffer ----------------------------------

  /** A descriptor buffer, written in place field by field. */
  class ConfigDescriptor {
    const bytes: array<u8>
    const base: nat
    const stride: nat

    ghost predicate Valid()
      reads this, bytes
    {
      Value().Valid()
    }

    function Value(): Desc
      reads this, bytes
    {
      Desc(bytes[..], base, stride)
    }

    /** `ConfigDescriptor::empty`: zeroes of the device's length. */
    constructor (dev: DeviceDescriptor)
      requires dev.Valid()
      ensures Valid() && fresh(bytes)
      ensures Value() == EmptyDesc(dev)
    {
      var len := dev.ConfigDescLen();
      bytes := new u8[len](_ => 0);
      base := dev.base;
      stride := dev.stride;
      new;
      bytes[0] := len % 0x100;
      bytes[1] := 0x01;
      assert bytes[..] == EmptyDesc(dev).bytes;
    }

    method Put(at: nat, bs: seq<u8>)
      requires at + |bs| <= bytes.Length
      modifies bytes
      ensures bytes[..] == Splice(old(bytes[..]), at, bs)
    {
      for i := 0 to |bs|
        invariant forall k :: 0 <= k < bytes.Length ==>
                    bytes[k] == if at <= k < at + i then bs[k - at] else old(bytes[k])
      {
        bytes[at + i] := bs[i];
      }
    }

    method SetConfDescContinue(value: u8)
      requires Valid()
      modifies bytes
      ensures Value() == old(Value()).(bytes := Splice(old(bytes[..]), 0x02, [value]))
    {
      Put(0x02, [value]);
    }

    method PutModes(bootEnable: u8, access: u8, power: u8, priority: u8, removal: u8, icc: u8)
      requires bytes.Length >= 0x10
      modifies bytes
      ensures bytes[..] == Splice(old(bytes[..]), 0x03, [bootEnable, access, power, priority, removal, icc])
    {
      bytes[0x03] := bootEnable;
      bytes[0x04] := access;
      bytes[0x05] := power;
      bytes[0x06] := priority;
      bytes[0x07] := removal;
      bytes[0x08] := icc;
      assert bytes[..] == Splice(old(bytes[..]), 0x03, [bootEnable, access, power, priority, removal, icc]);
    }

    method SetHeader(bootEnable: u8, access: u8, power: u8, priority: u8, removal: u8, icc: u8, rtc: u16)
      requires Valid()
      modifies bytes
      ensures Value() == WithHeader(old(Value()), bootEnable, access, power, priority, removal, icc, rtc)
    {
      ghost var s := bytes[..];
      PutModes(bootEnable, access, power, priority, removal, icc);
      Put(0x09, Be16(rtc));
      SpliceAdjacent(s, 3, [bootEnable, access, power, priority, removal, icc], Be16(rtc));
    }

    method SetSharedWriteBooster(preserve: u8, units: u32)
      requires Valid()
      modifies bytes
      ensures Value() == WithSharedWb(old(Value()), preserve, units)
    {
      ghost var s := bytes[..];
      Put(0x10, [preserve]);
      Put(0x11, [0x01]);
      SpliceAdjacent(s, 0x10, [preserve], [0x01]);
      Put(0x12, Be32(units));
      SpliceAdjacent(s, 0x10, [preserve, 0x01], Be32(units));
    }

    method SetLuDedicatedWriteBooster(preserve: u8)
      requires Valid()
      modifies bytes
      ensures Value() == WithDedicatedWb(old(Value()), preserve)
    {
      ghost var s := bytes[..];
      Put(0x10, [preserve]);
      Put(0x11, [0x00]);
      SpliceAdjacent(s, 0x10, [preserve], [0x00]);
    }

    method PutLuKind(at: nat, c: LuConfig)
      requires at + 4 <= bytes.Length
      modifies bytes
      ensures bytes[..] == Splice(old(bytes[..]), at, [c.enable, c.bootLunId, c.writeProtect, c.memoryType])
    {
      bytes[at] := c.enable;
      bytes[at + 0x01] := c.bootLunId;
      bytes[at + 0x02] := c.writeProtect;
      bytes[at + 0x03] := c.memoryType;
      assert bytes[..] == Splice(old(bytes[..]), at, [c.enable, c.bootLunId, c.writeProtect, c.memoryType]);
    }

    method PutLuPolicy(at: nat, c: LuConfig)
      requires at + 0x10 <= bytes.Length
      modifies bytes
      ensures bytes[..] == Splice(old(bytes[..]), at + 0x08, [c.dataReliability, c.blockSize, c.provisioning])
    {
      bytes[at + 0x08] := c.dataReliability;
      bytes[at + 0x09] := c.blockSize;
      bytes[at + 0x0A] := c.provisioning;
      assert bytes[..] == Splice(old(bytes[..]), at + 0x08, [c.dataReliability, c.blockSize, c.provisioning]);
    }

    /** The thirteen leading bytes of an LU block, one field after the other. */
    method PutLuHead(at: nat, c: LuConfig)
      requires at + 0x10 <= bytes.Length
      modifies bytes
      ensures bytes[..] == Splice(old(bytes[..]), at, LuHead(c))
    {
      ghost var s := bytes[..];
      ghost var kind := [c.enable, c.bootLunId, c.writeProtect, c.memoryType];
      ghost var policy := [c.dataReliability, c.blockSize, c.provisioning];
      PutLuKind(at, c);
      Put(at + 0x04, Be32(c.units));
      SpliceAdjacent(s, at, kind, Be32(c.units));
      PutLuPolicy(at, c);
      SpliceAdjacent(s, at, kind + Be32(c.units), policy);
      Put(at + 0x0B, Be16(c.context));
      SpliceAdjacent(s, at, kind + Be32(c.units) + policy, Be16(c.context));
    }

    method PutBlock(at: nat, c: LuConfig)
      requires at + (if stride >= LU_WB_UNITS + 4 then LU_WB_UNITS + 4 else 0x10) <= bytes.Length
      modifies bytes
      ensures bytes[..] == PutLu(old(bytes[..]), at, stride >= LU_WB_UNITS + 4, c)
    {
      PutLuHead(at, c);
      if stride >= LU_WB_UNITS + 4 {
        Put(at + LU_WB_UNITS, Be32(c.wbUnits));
      }
    }

    /** `set_lu`: the block sits at `base + lu * stride`. */
    method SetLu(i: nat, c: LuConfig)
      requires Valid() && i < LUS
      modifies bytes
      ensures Value() == WithLu(old(Value()), i, c)
    {
      hide PutLu;
      BlockInside(base, stride, i);
      PutBlock(base + i * stride, c);
    }
  }
}
