/** Bytes, big-endian fields and overwriting part of a buffer.

    Reads outside the buffer give zero, as the descriptor accessors do
    (src/core/ufs.rs:783-807). */
module Bytes {

  type u8 = x: int | 0 <= x < 0x100
  type u16 = x: int | 0 <= x < 0x1_0000
  type u32 = x: int | 0 <= x < 0x1_0000_0000

  const MIB: nat := 1024 * 1024

  function U8At(s: seq<u8>, at: nat): u8 {
    if at < |s| then s[at] else 0
  }

  function U16At(s: seq<u8>, at: nat): u16 {
    if at + 2 <= |s| then 0x100 * s[at] as int + s[at + 1] as int else 0
  }

  function U32At(s: seq<u8>, at: nat): u32 {
    if at + 4 <= |s| then
      0x100_0000 * s[at] as int + 0x1_0000 * s[at + 1] as int + 0x100 * s[at + 2] as int + s[at + 3] as int
    else 0
  }

  function U64At(s: seq<u8>, at: nat): nat {
    if at + 8 <= |s| then 0x1_0000_0000 * U32At(s, at) as int + U32At(s, at + 4) else 0
  }

  function Be16(v: u16): seq<u8> {
    [v / 0x100, v % 0x100]
  }

  function Be32(v: u32): seq<u8> {
    [v / 0x100_0000, v / 0x1_0000 % 0x100, v / 0x100 % 0x100, v % 0x100]
  }

  lemma Be16RoundTrip(v: u16)
    ensures U16At(Be16(v), 0) == v
  {
  }

  lemma Be32RoundTrip(v: u32)
    ensures U32At(Be32(v), 0) == v
  {
  }

  /** `s` with the bytes at `at` replaced by `bs`. */
  function Splice(s: seq<u8>, at: nat, bs: seq<u8>): (r: seq<u8>)
    requires at + |bs| <= |s|
    ensures |r| == |s|
    ensures forall k :: 0 <= k < |s| ==> r[k] == if at <= k < at + |bs| then bs[k - at] else s[k]
  {
    s[..at] + bs + s[at + |bs|..]
  }

  /** Writing a run of bytes field by field is writing the run. */
  lemma SpliceAdjacent(s: seq<u8>, at: nat, xs: seq<u8>, ys: seq<u8>)
    requires at + |xs| + |ys| <= |s|
    ensures Splice(Splice(s, at, xs), at + |xs|, ys) == Splice(s, at, xs + ys)
  {
  }

  function Zeros(n: nat): (r: seq<u8>)
    ensures |r| == n && forall k :: 0 <= k < n ==> r[k] == 0
  {
    seq(n, _ => 0)
  }
}
