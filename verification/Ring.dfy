/** The split virtqueue as a first-in first-out channel.

    The rings live in guest memory and are indexed by 16-bit counters that wrap. This module
    relates the bytes to three unbounded logs: the heads the driver published, the elements the
    device completed, and how many of those the driver has taken back. Nothing here belongs to
    one device: the block and the network engines both keep `Holds`. */
module Ring {
  import opened Bytes

  /** What the driver programs into the queue registers. */
  datatype Geometry = Geometry(size: u16, desc: u64, avail: u64, used: u64)

  /** A used ring element. */
  datatype Element = Element(id: u32, len: u32)

  /** An entry of the descriptor table, 16 bytes. */
  datatype Desc = Desc(addr: u64, len: u32, flags: u16, next: u16) {
    predicate HasNext() {
      flags % 2 == 1
    }
  }

  function ReadDesc(m: seq<byte>, table: nat, idx: u16): Option<Desc> {
    var off := table + idx * 16;
    if off + 16 > |m| then None
    else Some(Desc(Word64(m, off), Word32(m, off + 8), Word16(m, off + 12), Word16(m, off + 14)))
  }

  /** The entry in 16 bytes cut out of memory. */
  function DescOf(b: seq<byte>): Desc
    requires |b| == 16
  {
    Desc(Word64(b, 0), Word32(b, 8), Word16(b, 12), Word16(b, 14))
  }

  lemma DescOfSlice(m: seq<byte>, table: nat, idx: u16)
    requires table + idx * 16 + 16 <= |m|
    ensures ReadDesc(m, table, idx) == Some(DescOf(m[table + idx * 16..table + idx * 16 + 16]))
  {
  }

  function Wrap(n: nat): u16 {
    n % 0x1_0000
  }

  /** How far the 16-bit cursor `from` is behind `to`. */
  function Gap(from: u16, to: u16): (d: nat)
    ensures d < 0x1_0000 && (d == 0 <==> from == to)
  {
    if from <= to then to - from else to + 0x1_0000 - from
  }

  function AvailRegion(g: Geometry): Region {
    Region(g.avail, 4 + 2 * g.size)
  }

  function UsedRegion(g: Geometry): Region {
    Region(g.used, 4 + 8 * g.size)
  }

  function TableRegion(g: Geometry): Region {
    Region(g.desc, 16 * g.size)
  }

  /** The 64-bit address sums a device forms for a queue do not wrap: those into both rings, and
      those to every descriptor a 16-bit index can name. */
  predicate QueueFits(g: Geometry) {
    NoWrap(AvailRegion(g)) && NoWrap(UsedRegion(g)) && NoWrap(Region(g.desc, 16 * 0x1_0000))
  }

  function AvailSlot(g: Geometry, k: nat): nat
    requires g.size > 0
  {
    g.avail + 4 + 2 * Slot(k, g.size)
  }

  function UsedSlot(g: Geometry, k: nat): nat
    requires g.size > 0
  {
    g.used + 4 + 8 * Slot(k, g.size)
  }

  // ---- Slots and wrapping counters ----

  /** The ring position of counter `k`: `k % size` (`SlotIsRemainder`), by repeated subtraction
      so that reasoning about positions stays linear. */
  function Slot(k: nat, size: nat): (r: nat)
    requires size > 0
    ensures r < size
  {
    if k < size then k else Slot(k - size, size)
  }

  lemma {:induction false} SlotIsRemainder(k: nat, size: nat)
    requires size > 0
    ensures Slot(k, size) == k % size
  {
    if k >= size {
      SlotIsRemainder(k - size, size);
      RemainderStep(k - size, size);
    }
  }

  lemma RemainderStep(k: nat, size: nat)
    requires size > 0
    ensures (k + size) % size == k % size
  {
    var q, r := k / size, k % size;
    var q', r' := (k + size) / size, (k + size) % size;
    assert size * q' + r' == size * q + r + size == size * (q + 1) + r;
    SameQuotient(size, q', r', q + 1, r);
  }

  lemma SameQuotient(d: nat, a: int, r: nat, b: int, s: nat)
    requires r < d && s < d && d * a + r == d * b + s
    ensures a == b && r == s
  {
    if a < b {
      MultipleAtLeast(d, b - a);
    } else if b < a {
      MultipleAtLeast(d, a - b);
    }
  }

  lemma {:induction false} MultipleAtLeast(d: nat, n: int)
    requires n >= 1
    ensures d * n >= d
  {
    if n > 1 {
      MultipleAtLeast(d, n - 1);
    }
  }

  lemma {:induction false} DistinctSlots(size: nat, j: nat, k: nat)
    requires size > 0 && j < k < j + size
    ensures Slot(j, size) != Slot(k, size)
  {
    if j >= size {
      DistinctSlots(size, j - size, k - size);
    }
  }

  lemma {:induction false} WholeTurns(size: nat, k: nat, n: nat)
    requires size > 0 && Slot(n, size) == 0
    ensures Slot(k + n, size) == Slot(k, size)
    decreases n
  {
    if n > 0 {
      WholeTurns(size, k, n - size);
    }
  }

  /** 65536 is a whole number of turns round a ring of `size` positions. */
  predicate WholeTurns16(size: nat)
    requires size > 0
  {
    Slot(0x1_0000, size) == 0
  }

  lemma WrapTurn(k: nat)
    ensures Wrap(k) == if k < 0x1_0000 then k else Wrap(k - 0x1_0000)
  {
  }

  lemma {:induction false} WrappedSlot(size: nat, k: nat)
    requires size > 0 && WholeTurns16(size)
    ensures Slot(Wrap(k), size) == Slot(k, size)
  {
    hide Wrap;
    WrapTurn(k);
    if k >= 0x1_0000 {
      WrappedSlot(size, k - 0x1_0000);
      WholeTurns(size, k - 0x1_0000, 0x1_0000);
    }
  }

  /** The device indexes its rings with `cursor % size` where `cursor` is a wrapping 16-bit
      counter. That is the position of the unbounded counter, at every count, exactly when the
      queue size divides 65536. */
  lemma SlotsSurviveWrapIff(size: nat)
    requires 0 < size < 0x1_0000
    ensures (forall k: nat :: Wrap(k) % size == k % size) <==> 0x1_0000 % size == 0
  {
    SlotIsRemainder(0x1_0000, size);
    if 0x1_0000 % size == 0 {
      forall k: nat
        ensures Wrap(k) % size == k % size
      {
        WrappedSlot(size, k);
        SlotIsRemainder(k, size);
        SlotIsRemainder(Wrap(k), size);
      }
    } else {
      assert Wrap(0x1_0000) == 0;
      assert Wrap(0x1_0000) % size != 0x1_0000 % size;
    }
  }

  // ---- The channel invariant ----

  /** What the device needs of the driver's choice of queue: a size that divides 65536, both
      rings inside memory, and the two rings apart. */
  predicate Placed(g: Geometry, memSize: nat) {
    && g.size > 0
    && WholeTurns16(g.size)
    && Within(AvailRegion(g), memSize)
    && Within(UsedRegion(g), memSize)
    && Disjoint(AvailRegion(g), UsedRegion(g))
  }

  function AvailIdx(g: Geometry, m: seq<byte>): u16
    requires Placed(g, |m|)
  {
    Word16(m, g.avail + 2)
  }

  function UsedIdx(g: Geometry, m: seq<byte>): u16
    requires Placed(g, |m|)
  {
    Word16(m, g.used + 2)
  }

  function HeadIn(g: Geometry, m: seq<byte>, k: nat): u16
    requires Placed(g, |m|)
  {
    Word16(m, AvailSlot(g, k))
  }

  function ElementIn(g: Geometry, m: seq<byte>, k: nat): Element
    requires Placed(g, |m|)
  {
    Element(Word32(m, UsedSlot(g, k)), Word32(m, UsedSlot(g, k) + 4))
  }

  ghost predicate HeadsFrom(g: Geometry, m: seq<byte>, published: seq<u16>, lo: nat)
    requires Placed(g, |m|)
  {
    forall k :: lo <= k < |published| ==> HeadIn(g, m, k) == published[k]
  }

  ghost predicate ElementsFrom(g: Geometry, m: seq<byte>, done: seq<Element>, lo: nat)
    requires Placed(g, |m|)
  {
    forall k :: lo <= k < |done| ==> ElementIn(g, m, k) == done[k]
  }

  /** The completed ids are a prefix of the published heads. */
  ghost predicate InOrder(done: seq<Element>, published: seq<u16>) {
    |done| <= |published| && forall k :: 0 <= k < |done| ==> done[k].id == published[k]
  }

  /** Guest memory `m` and the device cursor `last` represent the channel: `published` heads,
      of which the first `|done|` were completed and the first `taken` of those collected. */
  ghost predicate Holds(g: Geometry, m: seq<byte>, last: u16,
                        published: seq<u16>, done: seq<Element>, taken: nat)
  {
    && Placed(g, |m|)
    && taken <= |done| && |published| <= taken + g.size
    && last == Wrap(|done|)
    && AvailIdx(g, m) == Wrap(|published|)
    && UsedIdx(g, m) == Wrap(|done|)
    && HeadsFrom(g, m, published, |done|)
    && ElementsFrom(g, m, done, taken)
    && InOrder(done, published)
  }

  /** The channel in the bytes of the split ring (VirtIO 1.2 sections 2.7.6 and 2.7.8): the indices are
      16-bit words at offset 2; available entry `k` is the 16-bit word at `4 + 2 * (k % size)`, used
      element `k` the two 32-bit words at `4 + 8 * (k % size)`, all little-endian. */
  lemma ChannelBytes(g: Geometry, m: seq<byte>, last: u16,
                     published: seq<u16>, done: seq<Element>, taken: nat)
    requires Holds(g, m, last, published, done, taken)
    ensures g.size > 0 && g.avail + 4 + 2 * g.size <= |m| && g.used + 4 + 8 * g.size <= |m|
    ensures last == |done| % 0x1_0000
    ensures m[g.avail + 2] + 0x100 * (m[g.avail + 3] as int) == |published| % 0x1_0000
    ensures m[g.used + 2] + 0x100 * (m[g.used + 3] as int) == |done| % 0x1_0000
    ensures forall k {:trigger published[k]} :: |done| <= k < |published| ==>
      g.avail + 4 + 2 * (k % g.size) + 2 <= |m| &&
      TwoBytes(m, g.avail + 4 + 2 * (k % g.size)) == published[k]
    ensures forall k {:trigger done[k]} :: taken <= k < |done| ==>
      g.used + 4 + 8 * (k % g.size) + 8 <= |m| &&
      var at := g.used + 4 + 8 * (k % g.size);
      && TwoBytes(m, at) + 0x1_0000 * TwoBytes(m, at + 2) == done[k].id
      && TwoBytes(m, at + 4) + 0x1_0000 * TwoBytes(m, at + 6) == done[k].len
  {
    hide Slot;
    forall k | |done| <= k < |published|
      ensures g.avail + 4 + 2 * (k % g.size) + 2 <= |m| && TwoBytes(m, g.avail + 4 + 2 * (k % g.size)) == published[k]
    {
      SlotIsRemainder(k, g.size);
      SlotInRing(g, k);
      assert HeadIn(g, m, k) == published[k];
    }
    forall k | taken <= k < |done|
      ensures var at := g.used + 4 + 8 * (k % g.size);
              && at + 8 <= |m|
              && TwoBytes(m, at) + 0x1_0000 * TwoBytes(m, at + 2) == done[k].id
              && TwoBytes(m, at + 4) + 0x1_0000 * TwoBytes(m, at + 6) == done[k].len
    {
      SlotIsRemainder(k, g.size);
      SlotInRing(g, k);
      assert ElementIn(g, m, k) == done[k];
    }
  }

  function TwoBytes(m: seq<byte>, at: nat): nat
    requires at + 2 <= |m|
  {
    m[at] + 0x100 * (m[at + 1] as int)
  }

  /** An empty channel: both indices and the cursor at zero. */
  lemma HoldsAtStart(g: Geometry, m: seq<byte>)
    requires Placed(g, |m|) && AvailIdx(g, m) == 0 && UsedIdx(g, m) == 0
    ensures Holds(g, m, 0, [], [], 0)
  {
  }

  lemma HeadsSame(g: Geometry, m: seq<byte>, m': seq<byte>, published: seq<u16>, lo: nat)
    requires |m'| == |m| && Placed(g, |m|) && HeadsFrom(g, m, published, lo)
    requires Unchanged(m, m', AvailRegion(g))
    ensures HeadsFrom(g, m', published, lo) && AvailIdx(g, m') == AvailIdx(g, m)
  {
    forall k | lo <= k < |published|
      ensures HeadIn(g, m', k) == published[k]
    {
      SlotInRing(g, k);
      Word16Same(m, m', AvailSlot(g, k));
    }
  }

  lemma ElementsSame(g: Geometry, m: seq<byte>, m': seq<byte>, done: seq<Element>, lo: nat)
    requires |m'| == |m| && Placed(g, |m|) && ElementsFrom(g, m, done, lo)
    requires Unchanged(m, m', UsedRegion(g))
    ensures ElementsFrom(g, m', done, lo) && UsedIdx(g, m') == UsedIdx(g, m)
  {
    forall k | lo <= k < |done|
      ensures ElementIn(g, m', k) == done[k]
    {
      SlotInRing(g, k);
      Word32Same(m, m', UsedSlot(g, k));
      Word32Same(m, m', UsedSlot(g, k) + 4);
    }
  }

  /** Memory the rings do not occupy is irrelevant to the channel. */
  lemma HoldsElsewhere(g: Geometry, m: seq<byte>, m': seq<byte>, last: u16,
                       published: seq<u16>, done: seq<Element>, taken: nat)
    requires Holds(g, m, last, published, done, taken)
    requires |m'| == |m|
    requires Unchanged(m, m', AvailRegion(g)) && Unchanged(m, m', UsedRegion(g))
    ensures Holds(g, m', last, published, done, taken)
  {
    HeadsSame(g, m, m', published, |done|);
    ElementsSame(g, m, m', done, taken);
  }

  lemma SlotInRing(g: Geometry, k: nat)
    requires g.size > 0
    ensures Inside(Region(AvailSlot(g, k), 2), AvailRegion(g))
    ensures Inside(Region(UsedSlot(g, k), 8), UsedRegion(g))
  {
  }

  lemma AvailFits(g: Geometry, k: nat)
    requires g.size > 0 && QueueFits(g)
    ensures NoWrap(Region(AvailSlot(g, k), 2)) && NoWrap(Region(g.avail + 2, 2))
  {
    hide Slot;
    SlotInRing(g, k);
  }

  lemma UsedFits(g: Geometry, k: nat)
    requires g.size > 0 && QueueFits(g)
    ensures NoWrap(Region(UsedSlot(g, k), 8)) && NoWrap(Region(g.used + 2, 2))
  {
    hide Slot;
    SlotInRing(g, k);
  }

  // ---- Publishing ----

  /** The driver's side, in its two stores: fill the slot of the next count ... */
  function Fill(g: Geometry, m: seq<byte>, head: u16): (m': seq<byte>)
    requires Placed(g, |m|)
    ensures |m'| == |m|
  {
    Store(m, AvailSlot(g, AvailIdx(g, m)), Bytes16(head))
  }

  /** ... then advance the available index. */
  function Advance(g: Geometry, m: seq<byte>): (m': seq<byte>)
    requires Placed(g, |m|)
    ensures |m'| == |m|
  {
    Store(m, g.avail + 2, Bytes16(Wrap(AvailIdx(g, m) + 1)))
  }

  lemma FillEffect(g: Geometry, m: seq<byte>, head: u16)
    requires Placed(g, |m|)
    ensures var m' := Fill(g, m, head);
            && HeadIn(g, m', AvailIdx(g, m)) == head
            && forall p :: 0 <= p < |m| && !Region(AvailSlot(g, AvailIdx(g, m)), 2).Has(p) ==> m'[p] == m[p]
  {
    hide Slot, Word16, Bytes16;
    SlotInRing(g, AvailIdx(g, m));
    StoreWord16(m, AvailSlot(g, AvailIdx(g, m)), head);
  }

  lemma FillSpares(g: Geometry, m: seq<byte>, head: u16)
    requires Placed(g, |m|)
    ensures Unchanged(m, Fill(g, m, head), UsedRegion(g))
    ensures AvailIdx(g, Fill(g, m, head)) == AvailIdx(g, m)
    ensures forall p :: 0 <= p < |m| && !AvailRegion(g).Has(p) ==> Fill(g, m, head)[p] == m[p]
  {
    hide Slot, Fill;
    FillEffect(g, m, head);
    SlotInRing(g, AvailIdx(g, m));
  }

  /** Filling the next free slot loses no pending head. */
  lemma FillHeads(g: Geometry, m: seq<byte>, published: seq<u16>, lo: nat, head: u16)
    requires Placed(g, |m|)
    requires HeadsFrom(g, m, published, lo) && AvailIdx(g, m) == Wrap(|published|)
    requires lo <= |published| < lo + g.size
    ensures HeadsFrom(g, Fill(g, m, head), published + [head], lo)
  {
    hide Slot, Fill, Wrap, Word16;
    var n, m' := |published|, Fill(g, m, head);
    FillEffect(g, m, head);
    WrappedSlot(g.size, n);
    forall k | lo <= k < n + 1
      ensures HeadIn(g, m', k) == (published + [head])[k]
    {
      if k < n {
        OtherSlot(g, m, m', k, n);
      }
    }
  }

  /** Writing slot `n` leaves the slot of another of the latest `size` counts. */
  lemma OtherSlot(g: Geometry, m: seq<byte>, m': seq<byte>, k: nat, n: nat)
    requires Placed(g, |m|) && |m'| == |m| && k < n < k + g.size
    requires forall p :: 0 <= p < |m| && !Region(AvailSlot(g, n), 2).Has(p) ==> m'[p] == m[p]
    ensures HeadIn(g, m', k) == HeadIn(g, m, k)
  {
    hide Slot, Word16;
    SlotInRing(g, k);
    DistinctSlots(g.size, k, n);
    Word16Same(m, m', AvailSlot(g, k));
  }

  lemma AdvanceEffect(g: Geometry, m: seq<byte>)
    requires Placed(g, |m|)
    ensures AvailIdx(g, Advance(g, m)) == Wrap(AvailIdx(g, m) + 1)
    ensures forall p :: 0 <= p < |m| && !Region(g.avail + 2, 2).Has(p) ==> Advance(g, m)[p] == m[p]
  {
    hide Bytes16, Word16, Wrap;
    StoreWord16(m, g.avail + 2, Wrap(AvailIdx(g, m) + 1));
  }

  lemma AdvanceSpares(g: Geometry, m: seq<byte>)
    requires Placed(g, |m|)
    ensures Unchanged(m, Advance(g, m), UsedRegion(g))
    ensures forall p :: 0 <= p < |m| && !AvailRegion(g).Has(p) ==> Advance(g, m)[p] == m[p]
  {
    hide Advance;
    AdvanceEffect(g, m);
  }

  lemma AdvanceHeads(g: Geometry, m: seq<byte>, published: seq<u16>, lo: nat)
    requires Placed(g, |m|) && HeadsFrom(g, m, published, lo)
    ensures HeadsFrom(g, Advance(g, m), published, lo)
  {
    hide Slot, Advance, Word16;
    AdvanceEffect(g, m);
    forall k | lo <= k < |published|
      ensures HeadIn(g, Advance(g, m), k) == published[k]
    {
      SlotInRing(g, k);
      Word16Same(m, Advance(g, m), AvailSlot(g, k));
    }
  }

  /** Between the two stores: `staged` is in the slot after the published heads, where the device
      does not look yet, and none of the pending heads was lost for it. */
  ghost predicate Staged(g: Geometry, m: seq<byte>, published: seq<u16>, taken: nat, staged: Option<u16>)
    requires Placed(g, |m|)
  {
    staged.Some? ==> |published| < taken + g.size && HeadIn(g, m, |published|) == staged.value
  }

  /** The driver may fill a slot while fewer than `size` requests are outstanding. */
  lemma FillStages(g: Geometry, m: seq<byte>, last: u16,
                   published: seq<u16>, done: seq<Element>, taken: nat, head: u16)
    requires Holds(g, m, last, published, done, taken)
    requires |published| < taken + g.size
    ensures Holds(g, Fill(g, m, head), last, published, done, taken)
    ensures Staged(g, Fill(g, m, head), published, taken, Some(head))
  {
    hide Slot, Fill, Word16, ElementsFrom, HeadIn;
    var m' := Fill(g, m, head);
    FillSpares(g, m, head);
    FillHeads(g, m, published, |done|, head);
    HeadsPrefix(g, m', published, head, |done|);
    ElementsSame(g, m, m', done, taken);
  }

  lemma HeadsPrefix(g: Geometry, m: seq<byte>, published: seq<u16>, head: u16, lo: nat)
    requires Placed(g, |m|) && lo <= |published|
    ensures HeadsFrom(g, m, published + [head], lo) <==>
      HeadsFrom(g, m, published, lo) && HeadIn(g, m, |published|) == head
  {
    hide HeadIn;
    var longer := published + [head];
    assert forall k :: 0 <= k < |published| ==> longer[k] == published[k];
    assert longer[|published|] == head;
  }

  /** Advancing the index appends the staged head to the channel. */
  lemma AdvanceAppends(g: Geometry, m: seq<byte>, last: u16,
                       published: seq<u16>, done: seq<Element>, taken: nat, head: u16)
    requires Holds(g, m, last, published, done, taken)
    requires Staged(g, m, published, taken, Some(head))
    ensures Holds(g, Advance(g, m), last, published + [head], done, taken)
  {
    hide Slot, Advance, Word16, ElementsFrom, HeadIn, Wrap;
    AdvanceEffect(g, m);
    AdvanceSpares(g, m);
    WrapNext(|published|);
    HeadsPrefix(g, m, published, head, |done|);
    AdvanceHeads(g, m, published + [head], |done|);
    ElementsSame(g, m, Advance(g, m), done, taken);
  }

  /** The two stores together, when nothing comes between them. */
  lemma PublishAppends(g: Geometry, m: seq<byte>, last: u16,
                       published: seq<u16>, done: seq<Element>, taken: nat, head: u16)
    requires Holds(g, m, last, published, done, taken)
    requires |published| < taken + g.size
    ensures Holds(g, Advance(g, Fill(g, m, head)), last, published + [head], done, taken)
  {
    hide Slot, Staged, Fill, Advance, HeadsFrom, ElementsFrom;
    FillStages(g, m, last, published, done, taken, head);
    AdvanceAppends(g, Fill(g, m, head), last, published, done, taken, head);
  }

  /** A staged head outlives everything that leaves the available ring alone. */
  lemma StagedSame(g: Geometry, m: seq<byte>, m': seq<byte>, published: seq<u16>, taken: nat, taken': nat,
                   staged: Option<u16>)
    requires Placed(g, |m|) && |m'| == |m| && Staged(g, m, published, taken, staged) && taken <= taken'
    requires Unchanged(m, m', AvailRegion(g))
    ensures Staged(g, m', published, taken', staged)
  {
    hide Slot, Word16;
    SlotInRing(g, |published|);
    Word16Same(m, m', AvailSlot(g, |published|));
  }

  // ---- Completing ----

  /** What a completion does to memory, whichever engine performs it: element `e` in the used
      slot of `idx`, the used index one further, and not one other byte. */
  ghost predicate Completes(g: Geometry, m: seq<byte>, m': seq<byte>, idx: u16, e: Element)
    requires Placed(g, |m|) && |m'| == |m|
  {
    && ElementIn(g, m', idx) == e
    && UsedIdx(g, m') == Wrap(idx + 1)
    && forall p :: 0 <= p < |m| && !Region(UsedSlot(g, idx), 8).Has(p) && !Region(g.used + 2, 2).Has(p)
         ==> m'[p] == m[p]
  }

  /** A cursor different from the available index stands at a pending head, the oldest one. */
  lemma OldestPending(g: Geometry, m: seq<byte>, last: u16,
                      published: seq<u16>, done: seq<Element>, taken: nat)
    requires Holds(g, m, last, published, done, taken)
    ensures last != AvailIdx(g, m) <==> |done| < |published|
    ensures |done| < |published| ==> HeadIn(g, m, last) == published[|done|]
    ensures Gap(last, AvailIdx(g, m)) == |published| - |done|
  {
    WrappedSlot(g.size, |done|);
    GapCounts(|done|, |published|);
  }

  lemma WrapSum(a: nat, b: nat)
    ensures Wrap(Wrap(a) + b) == Wrap(a + b)
  {
  }

  /** The `k`-th slot after the cursor holds the `k`-th pending head. */
  lemma PendingAt(g: Geometry, m: seq<byte>, last: u16,
                  published: seq<u16>, done: seq<Element>, taken: nat, k: nat)
    requires Holds(g, m, last, published, done, taken) && |done| + k < |published|
    ensures HeadIn(g, m, Wrap(last + k)) == published[|done| + k]
  {
    hide Slot, Wrap, ElementsFrom, InOrder;
    var n := |done| + k;
    WrapSum(|done|, k);
    WrappedSlot(g.size, n);
    assert HeadIn(g, m, n) == published[n];
  }

  lemma WrapNext(n: nat)
    ensures Wrap(Wrap(n) + 1) == Wrap(n + 1)
  {
  }

  lemma GapStep(from: u16, to: u16)
    requires from != to
    ensures Gap(Wrap(from + 1), to) == Gap(from, to) - 1
  {
  }

  lemma WrapPlus(k: nat, n: nat)
    ensures Wrap(Wrap(k + 1) + n) == Wrap(k + (n + 1))
  {
  }

  lemma WrapMoves(k: u16, n: nat)
    requires n < 0x1_0000
    ensures Wrap(k + n) == k <==> n == 0
  {
  }

  lemma GapCounts(a: nat, b: nat)
    requires a <= b < a + 0x1_0000
    ensures Gap(Wrap(a), Wrap(b)) == b - a
    ensures Wrap(a) == Wrap(b) <==> a == b
  {
  }

  lemma CompleteSpares(g: Geometry, m: seq<byte>, m': seq<byte>, idx: u16, e: Element)
    requires Placed(g, |m|) && |m'| == |m| && Completes(g, m, m', idx, e)
    ensures Unchanged(m, m', AvailRegion(g))
  {
    hide ElementIn;
    SlotInRing(g, idx);
  }

  /** Writing used slot `n` and the used index leaves the other slots. */
  lemma OtherElement(g: Geometry, m: seq<byte>, m': seq<byte>, k: nat, n: nat)
    requires Placed(g, |m|) && |m'| == |m| && k < n < k + g.size
    requires forall p :: 0 <= p < |m| && !Region(UsedSlot(g, n), 8).Has(p) && !Region(g.used + 2, 2).Has(p)
               ==> m'[p] == m[p]
    ensures ElementIn(g, m', k) == ElementIn(g, m, k)
  {
    hide Slot, Word32;
    SlotInRing(g, k);
    DistinctSlots(g.size, k, n);
    Word32Same(m, m', UsedSlot(g, k));
    Word32Same(m, m', UsedSlot(g, k) + 4);
  }

  lemma CompleteElements(g: Geometry, m: seq<byte>, m': seq<byte>, done: seq<Element>, lo: nat, e: Element)
    requires Placed(g, |m|) && |m'| == |m| && Completes(g, m, m', Wrap(|done|), e)
    requires ElementsFrom(g, m, done, lo) && |done| < lo + g.size
    ensures ElementsFrom(g, m', done + [e], lo)
  {
    hide Slot, Word32, Wrap;
    var n := |done|;
    WrappedSlot(g.size, n);
    forall k | lo <= k < n + 1
      ensures ElementIn(g, m', k) == (done + [e])[k]
    {
      if k < n {
        OtherElement(g, m, m', k, n);
      }
    }
  }

  /** Completing the oldest pending head keeps the channel and logs that head's id; the slot
      written was free, so no uncollected element is lost. */
  lemma CompleteAppends(g: Geometry, m: seq<byte>, m': seq<byte>, last: u16,
                        published: seq<u16>, done: seq<Element>, taken: nat, e: Element)
    requires Holds(g, m, last, published, done, taken)
    requires |done| < |published| && e.id == published[|done|]
    requires |m'| == |m| && Completes(g, m, m', last, e)
    ensures Holds(g, m', Wrap(last + 1), published, done + [e], taken)
  {
    hide Slot, Wrap, HeadIn, ElementIn, WholeTurns16;
    CompleteSpares(g, m, m', last, e);
    HeadsSame(g, m, m', published, |done|);
    WrapNext(|done|);
    CompleteElements(g, m, m', done, taken, e);
    var done' := done + [e];
    assert forall k :: 0 <= k < |done| ==> done'[k] == done[k];
    HeadsLater(g, m', published, |done|, |done| + 1);
  }

  lemma HeadsLater(g: Geometry, m: seq<byte>, published: seq<u16>, lo: nat, lo': nat)
    requires Placed(g, |m|) && HeadsFrom(g, m, published, lo) && lo <= lo'
    ensures HeadsFrom(g, m, published, lo')
  {
  }

  // ---- Completing in two steps ----

  /** An element stored in the used slot of `idx`, which the driver does not look at yet. */
  ghost predicate Puts(g: Geometry, m: seq<byte>, m': seq<byte>, idx: u16, e: Element)
    requires Placed(g, |m|) && |m'| == |m|
  {
    && ElementIn(g, m', idx) == e
    && forall p :: 0 <= p < |m| && !Region(UsedSlot(g, idx), 8).Has(p) ==> m'[p] == m[p]
  }

  /** The used index moved past `idx`. */
  ghost predicate Bumps(g: Geometry, m: seq<byte>, m': seq<byte>, idx: u16)
    requires Placed(g, |m|) && |m'| == |m|
  {
    && UsedIdx(g, m') == Wrap(idx + 1)
    && forall p :: 0 <= p < |m| && !Region(g.used + 2, 2).Has(p) ==> m'[p] == m[p]
  }

  lemma PutSpares(g: Geometry, m: seq<byte>, m': seq<byte>, idx: u16, e: Element)
    requires Placed(g, |m|) && |m'| == |m| && Puts(g, m, m', idx, e)
    ensures Unchanged(m, m', AvailRegion(g)) && UsedIdx(g, m') == UsedIdx(g, m)
  {
    hide ElementIn, Slot;
    SlotInRing(g, idx);
  }

  lemma PutElements(g: Geometry, m: seq<byte>, m': seq<byte>, done: seq<Element>, lo: nat, e: Element)
    requires Placed(g, |m|) && |m'| == |m| && Puts(g, m, m', Wrap(|done|), e)
    requires ElementsFrom(g, m, done, lo) && |done| < lo + g.size
    ensures ElementsFrom(g, m', done, lo) && ElementIn(g, m', |done|) == e
  {
    hide Slot, Word32, Wrap;
    var n := |done|;
    WrappedSlot(g.size, n);
    forall k | lo <= k < n
      ensures ElementIn(g, m', k) == done[k]
    {
      OtherElement(g, m, m', k, n);
    }
  }

  /** Storing an element for the oldest pending head keeps the channel as it was. */
  lemma PutStages(g: Geometry, m: seq<byte>, m': seq<byte>, last: u16,
                  published: seq<u16>, done: seq<Element>, taken: nat, e: Element)
    requires Holds(g, m, last, published, done, taken) && |done| < |published|
    requires |m'| == |m| && Puts(g, m, m', last, e)
    ensures Holds(g, m', last, published, done, taken) && ElementIn(g, m', |done|) == e
  {
    hide Slot, Wrap, HeadIn, ElementIn, WholeTurns16;
    PutSpares(g, m, m', last, e);
    HeadsSame(g, m, m', published, |done|);
    PutElements(g, m, m', done, taken, e);
  }

  lemma BumpElements(g: Geometry, m: seq<byte>, m': seq<byte>, idx: u16, done: seq<Element>, lo: nat, e: Element)
    requires Placed(g, |m|) && |m'| == |m| && Bumps(g, m, m', idx)
    requires ElementsFrom(g, m, done, lo) && ElementIn(g, m, |done|) == e
    ensures ElementsFrom(g, m', done + [e], lo)
  {
    hide Slot, Word32;
    forall k | lo <= k < |done| + 1
      ensures ElementIn(g, m', k) == (done + [e])[k]
    {
      SlotInRing(g, k);
      Word32Same(m, m', UsedSlot(g, k));
      Word32Same(m, m', UsedSlot(g, k) + 4);
    }
  }

  /** Moving the used index then completes that head: the element joins the log. */
  lemma BumpAppends(g: Geometry, m: seq<byte>, m': seq<byte>, last: u16,
                    published: seq<u16>, done: seq<Element>, taken: nat, e: Element)
    requires Holds(g, m, last, published, done, taken)
    requires |done| < |published| && e.id == published[|done|] && ElementIn(g, m, |done|) == e
    requires |m'| == |m| && Bumps(g, m, m', last)
    ensures Holds(g, m', Wrap(last + 1), published, done + [e], taken)
    ensures Unchanged(m, m', AvailRegion(g))
  {
    hide Slot, Wrap, HeadIn, ElementIn, WholeTurns16;
    HeadsSame(g, m, m', published, |done|);
    WrapNext(|done|);
    BumpElements(g, m, m', last, done, taken, e);
    var done' := done + [e];
    assert forall k :: 0 <= k < |done| ==> done'[k] == done[k];
    HeadsLater(g, m', published, |done|, |done| + 1);
  }

  // ---- Collecting ----

  /** The driver compares its own wrapping cursor with the used index; when they differ it
      finds the oldest uncollected element in that slot. */
  lemma OldestUncollected(g: Geometry, m: seq<byte>, last: u16,
                          published: seq<u16>, done: seq<Element>, taken: nat)
    requires Holds(g, m, last, published, done, taken)
    ensures Wrap(taken) != UsedIdx(g, m) <==> taken < |done|
    ensures taken < |done| ==>
      && ElementIn(g, m, Wrap(taken)) == done[taken]
      && Holds(g, m, last, published, done, taken + 1)
  {
    hide Slot, Wrap, HeadIn, Word32, HeadsFrom;
    WrappedSlot(g.size, taken);
    GapCounts(taken, |done|);
  }
}
