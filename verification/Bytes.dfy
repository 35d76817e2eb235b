/** Machine words, their little-endian layout, and a byte-addressed store as a value.

    `Store` is what a bounds-checked slice write does to the bytes of the store; `Region`
    names address ranges, so that framing is linear arithmetic on their ends. */
module Bytes {
  type byte = x: int | 0 <= x < 0x100
  type u16 = x: int | 0 <= x < 0x1_0000
  type u32 = x: int | 0 <= x < 0x1_0000_0000
  type u64 = x: int | 0 <= x < 0x1_0000_0000_0000_0000

  datatype Option<+T> = None | Some(value: T)

  // ---- Little-endian words ----

  function Word16(m: seq<byte>, off: nat): u16
    requires off + 2 <= |m|
  {
    (m[off] as int) + 0x100 * (m[off + 1] as int)
  }

  function Word32(m: seq<byte>, off: nat): u32
    requires off + 4 <= |m|
  {
    Word16(m, off) + 0x1_0000 * Word16(m, off + 2)
  }

  function Word64(m: seq<byte>, off: nat): u64
    requires off + 8 <= |m|
  {
    Word32(m, off) + 0x1_0000_0000 * Word32(m, off + 4)
  }

  function Bytes16(v: u16): (s: seq<byte>)
    ensures |s| == 2
  {
    [v % 0x100, v / 0x100]
  }

  function Bytes32(v: u32): (s: seq<byte>)
    ensures |s| == 4
  {
    Bytes16(v % 0x1_0000) + Bytes16(v / 0x1_0000)
  }

  function Bytes64(v: u64): (s: seq<byte>)
    ensures |s| == 8
  {
    Bytes32(v % 0x1_0000_0000) + Bytes32(v / 0x1_0000_0000)
  }

  function Zeros(n: nat): (s: seq<byte>)
    ensures |s| == n && forall i :: 0 <= i < n ==> s[i] == 0
  {
    seq(n, _ => 0)
  }

  // ---- Address ranges ----

  datatype Region = Region(base: nat, len: nat) {
    ghost predicate Has(p: int) {
      base <= p < base + len
    }
  }

  predicate Disjoint(a: Region, b: Region) {
    a.len == 0 || b.len == 0 || a.base + a.len <= b.base || b.base + b.len <= a.base
  }

  predicate Within(a: Region, size: nat) {
    a.base + a.len <= size
  }

  predicate Inside(a: Region, b: Region) {
    b.base <= a.base && a.base + a.len <= b.base + b.len
  }

  const TWO_TO_64: nat := 0x1_0000_0000_0000_0000

  /** The end of the range is a 64-bit number, so adding up to it does not wrap. */
  predicate NoWrap(r: Region) {
    r.base + r.len < TWO_TO_64
  }

  ghost predicate Unchanged(m: seq<byte>, m': seq<byte>, r: Region)
    requires |m| == |m'|
  {
    forall p :: r.base <= p < r.base + r.len && p < |m| ==> m[p] == m'[p]
  }

  // ---- The store ----

  /** A slice write that is refused leaves every byte as it was. */
  function Store(m: seq<byte>, off: nat, d: seq<byte>): (r: seq<byte>)
    ensures |r| == |m|
    ensures off + |d| <= |m| ==>
      forall p :: 0 <= p < |m| ==> r[p] == if off <= p < off + |d| then d[p - off] else m[p]
    ensures off + |d| > |m| ==> r == m
  {
    if off + |d| > |m| then m
    else seq(|m|, p requires 0 <= p < |m| => if off <= p < off + |d| then d[p - off] else m[p])
  }

  function Load(m: seq<byte>, off: nat, n: nat): (r: Option<seq<byte>>)
    ensures r.Some? <==> off + n <= |m|
    ensures r.Some? ==> r.value == m[off..off + n]
  {
    if off + n > |m| then None else Some(m[off..off + n])
  }

  lemma StoreFrame(m: seq<byte>, off: nat, d: seq<byte>, r: Region)
    requires Disjoint(Region(off, |d|), r)
    ensures Unchanged(m, Store(m, off, d), r)
  {
  }

  lemma StoreLoad(m: seq<byte>, off: nat, d: seq<byte>)
    requires off + |d| <= |m|
    ensures Store(m, off, d)[off..off + |d|] == d
  {
  }

  lemma SliceSame(m: seq<byte>, m': seq<byte>, off: nat, n: nat)
    requires |m'| == |m| && off + n <= |m| && Unchanged(m, m', Region(off, n))
    ensures m'[off..off + n] == m[off..off + n]
  {
  }

  // ---- Words survive a store ----

  lemma Word16Same(m: seq<byte>, m': seq<byte>, off: nat)
    requires |m| == |m'| && off + 2 <= |m|
    requires Unchanged(m, m', Region(off, 2))
    ensures Word16(m, off) == Word16(m', off)
  {
  }

  lemma Word32Same(m: seq<byte>, m': seq<byte>, off: nat)
    requires |m| == |m'| && off + 4 <= |m|
    requires Unchanged(m, m', Region(off, 4))
    ensures Word32(m, off) == Word32(m', off)
  {
  }

  lemma Word64Same(m: seq<byte>, m': seq<byte>, off: nat)
    requires |m| == |m'| && off + 8 <= |m|
    requires Unchanged(m, m', Region(off, 8))
    ensures Word64(m, off) == Word64(m', off)
  {
  }

  lemma StoreWord16(m: seq<byte>, off: nat, v: u16)
    requires off + 2 <= |m|
    ensures Word16(Store(m, off, Bytes16(v)), off) == v
  {
    var m' := Store(m, off, Bytes16(v));
    assert m'[off] == Bytes16(v)[0] && m'[off + 1] == Bytes16(v)[1];
  }

  lemma StoreWord32(m: seq<byte>, off: nat, v: u32)
    requires off + 4 <= |m|
    ensures Word32(Store(m, off, Bytes32(v)), off) == v
  {
    var m' := Store(m, off, Bytes32(v));
    var lo, hi := Bytes16(v % 0x1_0000), Bytes16(v / 0x1_0000);
    assert m'[off] == lo[0] && m'[off + 1] == lo[1];
    assert m'[off + 2] == hi[0] && m'[off + 3] == hi[1];
  }

  lemma StoreWord64(m: seq<byte>, off: nat, v: u64)
    requires off + 8 <= |m|
    ensures Word64(Store(m, off, Bytes64(v)), off) == v
  {
    var m' := Store(m, off, Bytes64(v));
    var lo, hi := v % 0x1_0000_0000, v / 0x1_0000_0000;
    forall k | 0 <= k < 4
      ensures m'[off + k] == Bytes32(lo)[k] && m'[off + 4 + k] == Bytes32(hi)[k]
    {
      assert Bytes64(v)[k] == Bytes32(lo)[k] && Bytes64(v)[k + 4] == Bytes32(hi)[k];
    }
    Word32Bytes(m', off, lo);
    Word32Bytes(m', off + 4, hi);
  }

  lemma Word32Bytes(m: seq<byte>, off: nat, v: u32)
    requires off + 4 <= |m|
    requires forall k :: 0 <= k < 4 ==> m[off + k] == Bytes32(v)[k]
    ensures Word32(m, off) == v
  {
    assert m[off] == Bytes32(v)[0] && m[off + 1] == Bytes32(v)[1];
    assert m[off + 2] == Bytes32(v)[2] && m[off + 3] == Bytes32(v)[3];
  }

  // ---- Words and slices ----

  lemma Word32Of(t: seq<byte>, off: nat, v: u32)
    requires off + 4 <= |t| && t[off..off + 4] == Bytes32(v)
    ensures Word32(t, off) == v
  {
    hide Word32, Bytes32;
    forall k | 0 <= k < 4
      ensures t[off + k] == Bytes32(v)[k]
    {
      assert t[off..off + 4][k] == t[off + k];
    }
    Word32Bytes(t, off, v);
  }

  lemma SliceOfSlice(m: seq<byte>, at: nat, len: nat, from: nat, to: nat)
    requires at + len <= |m| && from <= to <= len
    ensures m[at..at + len][from..to] == m[at + from..at + to]
  {
    var a, b := m[at..at + len][from..to], m[at + from..at + to];
    assert forall i :: 0 <= i < |a| ==> a[i] == b[i];
    assert a == b;
  }

  lemma Bytes16OfWord(m: seq<byte>, off: nat)
    requires off + 2 <= |m|
    ensures Bytes16(Word16(m, off)) == m[off..off + 2]
  {
  }

  lemma Bytes32OfWord(m: seq<byte>, off: nat)
    requires off + 4 <= |m|
    ensures Bytes32(Word32(m, off)) == m[off..off + 4]
  {
    hide Word16, Bytes16;
    Bytes16OfWord(m, off);
    Bytes16OfWord(m, off + 2);
    assert m[off..off + 2] + m[off + 2..off + 4] == m[off..off + 4];
  }
}
