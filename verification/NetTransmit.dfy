/** The transmit loop in terms of guest memory as the loop finds it: which buffers it consumes
    and which frames it offers, although it completes buffers while it reads others. */
module NetTransmit {
  import opened Bytes
  import opened Ring
  import opened NetQueue

  /** How many of `heads`, from the front, have a descriptor inside memory. */
  function Readable(m: seq<byte>, table: nat, heads: seq<u16>): (n: nat)
    ensures n <= |heads|
    ensures forall k :: 0 <= k < n ==> ReadDesc(m, table, heads[k]).Some?
    ensures n < |heads| ==> ReadDesc(m, table, heads[n]).None?
  {
    if heads == [] || ReadDesc(m, table, heads[0]).None? then 0
    else 1 + Readable(m, table, heads[1..])
  }

  /** The frame a transmit descriptor asks for, if it does: the bytes after the 12 of the header, of
      a buffer longer than that and inside memory. */
  function FrameOf(m: seq<byte>, d: Desc): seq<seq<byte>> {
    if d.len > 12 && d.addr + d.len <= |m| then [m[d.addr + 12..d.addr + d.len]] else []
  }

  lemma PayloadIsFrame(m: seq<byte>, d: Desc)
    ensures FrameOf(m, d) == if Payload(m, d).Some? then [Payload(m, d).value] else []
  {
  }

  /** The frames of the heads that have a descriptor inside memory, in order. */
  function Frames(m: seq<byte>, table: nat, heads: seq<u16>): seq<seq<byte>> {
    if heads == [] then []
    else
      match ReadDesc(m, table, heads[0])
      case None => Frames(m, table, heads[1..])
      case Some(d) => FrameOf(m, d) + Frames(m, table, heads[1..])
  }

  /** The pending heads of a queue whose used ring, wherever it ends, keeps off the available ring,
      the descriptors and the buffers. */
  ghost predicate Pending(q: Queue, m: seq<byte>, heads: seq<u16>) {
    && Separate(q)
    && Within(AvailRegion(q.geo), |m|)
    && |heads| < 0x1_0000 && AvailableIdx(q, m) == Wrap(q.last + |heads|)
    && (forall k :: 0 <= k < |heads| ==> Word16(m, AvailSlot(q.geo, Wrap(q.last + k))) == heads[k])
    && (forall k :: 0 <= k < |heads| ==> Clear(q, m, heads[k]))
  }

  ghost predicate Clear(q: Queue, m: seq<byte>, head: u16) {
    && Disjoint(UsedRegion(q.geo), Region(q.geo.desc + head * 16, 16))
    && var d := ReadDesc(m, q.geo.desc, head);
    && (d.Some? ==> Disjoint(UsedRegion(q.geo), Region(d.value.addr, d.value.len)))
  }

  lemma AddUsedConfined(q: Queue, m: seq<byte>, head: u16, len: u32, p: nat)
    requires q.geo.size > 0 && p < |m| && !UsedRegion(q.geo).Has(p)
    ensures AddUsed(q, m, head, len).mem[p] == m[p]
  {
    SlotInRing(q.geo, q.last);
  }

  lemma AddUsedSpares(q: Queue, m: seq<byte>, head: u16, len: u32, region: Region)
    requires q.geo.size > 0 && Disjoint(UsedRegion(q.geo), region)
    ensures Unchanged(m, AddUsed(q, m, head, len).mem, region)
  {
    hide AddUsed;
    forall p | region.base <= p < region.base + region.len && p < |m|
      ensures AddUsed(q, m, head, len).mem[p] == m[p]
    {
      AddUsedConfined(q, m, head, len, p);
    }
  }

  lemma SameDescriptor(m: seq<byte>, m': seq<byte>, table: nat, head: u16)
    requires |m'| == |m| && Unchanged(m, m', Region(table + head * 16, 16))
    ensures ReadDesc(m', table, head) == ReadDesc(m, table, head)
  {
    var off := table + head * 16;
    if off + 16 <= |m| {
      Word64Same(m, m', off);
      Word32Same(m, m', off + 8);
      Word16Same(m, m', off + 12);
      Word16Same(m, m', off + 14);
    }
  }

  lemma ClearSame(q: Queue, m: seq<byte>, m': seq<byte>, head: u16)
    requires |m'| == |m| && Clear(q, m, head)
    requires forall p :: 0 <= p < |m| && !UsedRegion(q.geo).Has(p) ==> m'[p] == m[p]
    ensures Clear(q, m', head) && ReadDesc(m', q.geo.desc, head) == ReadDesc(m, q.geo.desc, head)
    ensures var d := ReadDesc(m, q.geo.desc, head);
            d.Some? ==> FrameOf(m', d.value) == FrameOf(m, d.value)
  {
    hide ReadDesc;
    SameDescriptor(m, m', q.geo.desc, head);
    var d := ReadDesc(m, q.geo.desc, head);
    if d.Some? && FrameOf(m, d.value) != [] {
      SliceSame(m, m', d.value.addr + 12, d.value.len - 12);
    }
  }

  /** Consuming the first pending head, if its used slot is inside memory, leaves the rest pending,
      with the same frames. */
  lemma PendingRest(s: Tx, heads: seq<u16>, d: Desc)
    requires Pending(s.q, s.mem, heads) && heads != [] && SlotIn(s.q, |s.mem|)
    ensures var s' := TxOne(s, heads[0], d);
            && Pending(s'.q, s'.mem, heads[1..])
            && s'.q.last == Wrap(s.q.last + 1)
            && (forall p :: 0 <= p < |s.mem| && !UsedRegion(s.q.geo).Has(p) ==> s'.mem[p] == s.mem[p])
            && forall k :: 0 <= k < |heads| ==> SameFrame(s.q, s.mem, s'.mem, heads[k])
  {
    hide AddUsed, Payload, FrameOf, ReadDesc, Clear, AvailableIdx, Gap, Wrap, SameFrame, Slot;
    var q, m := s.q, s.mem;
    var s' := TxOne(s, heads[0], d);
    AddUsedProgress(q, m, heads[0], 0);
    forall p | 0 <= p < |m| && !UsedRegion(q.geo).Has(p)
      ensures s'.mem[p] == m[p]
    {
      AddUsedConfined(q, m, heads[0], 0, p);
    }
    forall k | 0 <= k < |heads|
      ensures SameFrame(q, m, s'.mem, heads[k]) && Clear(s'.q, s'.mem, heads[k])
    {
      ClearSame(q, m, s'.mem, heads[k]);
      ClearGeo(q, s'.q, s'.mem, heads[k]);
      SameFrameIs(q, m, s'.mem, heads[k]);
    }
    WrapPlus(q.last, |heads| - 1);
    HeadsRest(q, s'.q, m, s'.mem, heads);
  }

  lemma HeadsRest(q: Queue, q': Queue, m: seq<byte>, m': seq<byte>, heads: seq<u16>)
    requires q.geo.size > 0 && Within(AvailRegion(q.geo), |m|) && |m'| == |m|
    requires Unchanged(m, m', AvailRegion(q.geo))
    requires q'.geo == q.geo && q'.last == Wrap(q.last + 1) && heads != []
    requires forall k :: 0 <= k < |heads| ==> Word16(m, AvailSlot(q.geo, Wrap(q.last + k))) == heads[k]
    ensures forall k :: 0 <= k < |heads| - 1 ==> Word16(m', AvailSlot(q'.geo, Wrap(q'.last + k))) == heads[1..][k]
  {
    hide Wrap;
    forall k | 0 <= k < |heads| - 1
      ensures Word16(m', AvailSlot(q'.geo, Wrap(q'.last + k))) == heads[1..][k]
    {
      WrapPlus(q.last, k);
      SlotInRing(q.geo, Wrap(q.last + (k + 1)));
      Word16Same(m, m', AvailSlot(q.geo, Wrap(q.last + (k + 1))));
    }
  }

  lemma ClearGeo(q: Queue, q': Queue, m: seq<byte>, head: u16)
    requires Clear(q, m, head) && q'.geo == q.geo
    ensures Clear(q', m, head)
  {
  }

  ghost predicate SameFrame(q: Queue, m: seq<byte>, m': seq<byte>, head: u16) {
    var d := ReadDesc(m, q.geo.desc, head);
    ReadDesc(m', q.geo.desc, head) == d && (d.Some? ==> FrameOf(m', d.value) == FrameOf(m, d.value))
  }

  lemma SameFrameIs(q: Queue, m: seq<byte>, m': seq<byte>, head: u16)
    requires var d := ReadDesc(m, q.geo.desc, head);
             ReadDesc(m', q.geo.desc, head) == d && (d.Some? ==> FrameOf(m', d.value) == FrameOf(m, d.value))
    ensures SameFrame(q, m, m', head)
  {
  }

  lemma {:induction false} FramesSame(q: Queue, m: seq<byte>, m': seq<byte>, heads: seq<u16>)
    requires forall k :: 0 <= k < |heads| ==> SameFrame(q, m, m', heads[k])
    ensures Readable(m', q.geo.desc, heads) == Readable(m, q.geo.desc, heads)
    ensures var n := Readable(m, q.geo.desc, heads);
            Frames(m', q.geo.desc, heads[..n]) == Frames(m, q.geo.desc, heads[..n])
  {
    hide ReadDesc, FrameOf;
    if heads != [] && ReadDesc(m, q.geo.desc, heads[0]).Some? {
      assert SameFrame(q, m, m', heads[0]);
      FramesSame(q, m, m', heads[1..]);
      var n := Readable(m, q.geo.desc, heads);
      assert heads[..n][1..] == heads[1..][..n - 1];
    }
  }

  /** The outcome of the loop on `heads`: it consumed the readable ones in front, offered exactly
      their frames, and changed no memory outside the used ring. */
  ghost predicate Offers(s: Tx, s': Tx, heads: seq<u16>)
    requires |s'.mem| == |s.mem|
  {
    var n := Readable(s.mem, s.q.geo.desc, heads);
    && s'.q.last == Wrap(s.q.last + n)
    && s'.offered == s.offered + Frames(s.mem, s.q.geo.desc, heads[..n])
    && forall p :: 0 <= p < |s.mem| && !UsedRegion(s.q.geo).Has(p) ==> s'.mem[p] == s.mem[p]
  }

  lemma OffersJoin(s: Tx, s2: Tx, heads: seq<u16>, d: Desc)
    requires |s2.mem| == |s.mem| && heads != []
    requires s.q.geo.size > 0 && ReadDesc(s.mem, s.q.geo.desc, heads[0]) == Some(d)
    requires var s1 := TxOne(s, heads[0], d);
             && s1.q.last == Wrap(s.q.last + 1)
             && (forall p :: 0 <= p < |s.mem| && !UsedRegion(s.q.geo).Has(p) ==> s1.mem[p] == s.mem[p])
             && (forall k :: 0 <= k < |heads| ==> SameFrame(s.q, s.mem, s1.mem, heads[k]))
             && Offers(s1, s2, heads[1..])
    ensures Offers(s, s2, heads)
  {
    hide ReadDesc, FrameOf, Wrap, TxOne, SameFrame;
    var s1 := TxOne(s, heads[0], d);
    var n := Readable(s.mem, s.q.geo.desc, heads);
    assert forall k :: 0 <= k < |heads| - 1 ==> heads[1..][k] == heads[k + 1];
    FramesSame(s.q, s.mem, s1.mem, heads[1..]);
    WrapPlus(s.q.last, n - 1);
    assert heads[..n][1..] == heads[1..][..n - 1];
    TxOneOffers(s, heads[0], d);
  }

  /** The used slots of the next `n` completions are inside memory. */
  predicate SlotsIn(g: Geometry, last: u16, n: nat, memSize: nat)
    requires g.size > 0
    decreases n
  {
    n == 0 || (UsedSlot(g, last) + 8 <= memSize && SlotsIn(g, Wrap(last + 1), n - 1, memSize))
  }

  lemma {:induction false} WholeRingIn(g: Geometry, last: u16, n: nat, memSize: nat)
    requires g.size > 0 && Within(UsedRegion(g), memSize)
    ensures SlotsIn(g, last, n, memSize)
    decreases n
  {
    hide Slot, Wrap;
    if n > 0 {
      SlotInRing(g, last);
      WholeRingIn(g, Wrap(last + 1), n - 1, memSize);
    }
  }

  /** The loop ends exactly when the used slots of the readable pending heads are inside memory;
      slots it does not come to do not matter. It then consumes the pending heads in order, each
      once, up to the first one with no descriptor in memory; it offers exactly their frames as
      memory held them at the start; and it changes no memory outside the used ring. */
  lemma {:induction false} DrainOffersFrames(s: Tx, heads: seq<u16>)
    requires Pending(s.q, s.mem, heads)
    ensures TxDrain(s).Some? <==> SlotsIn(s.q.geo, s.q.last, Readable(s.mem, s.q.geo.desc, heads), |s.mem|)
    ensures TxDrain(s).Some? ==> Offers(s, TxDrain(s).value, heads)
    decreases |heads|
  {
    hide ReadDesc, Wrap, TxOne, SameFrame, Offers, Clear, SlotIn, TxDrain, SlotsIn, Readable;
    DrainStep(s, heads);
    var d := if heads == [] then None else ReadDesc(s.mem, s.q.geo.desc, heads[0]);
    if d.None? {
      OffersNothing(s, heads);
    } else if SlotIn(s.q, |s.mem|) {
      var s1 := TxOne(s, heads[0], d.value);
      PendingRest(s, heads, d.value);
      ReadableRest(s, s1, heads);
      DrainOffersFrames(s1, heads[1..]);
      if TxDrain(s1).Some? {
        OffersJoin(s, TxDrain(s1).value, heads, d.value);
      }
    }
  }

  /** The first step of the loop on pending heads, beside the first step of `SlotsIn`. */
  lemma DrainStep(s: Tx, heads: seq<u16>)
    requires Pending(s.q, s.mem, heads)
    ensures var d := if heads == [] then None else ReadDesc(s.mem, s.q.geo.desc, heads[0]);
            var n := Readable(s.mem, s.q.geo.desc, heads);
            if d.None? then TxDrain(s) == Some(s) && n == 0 && SlotsIn(s.q.geo, s.q.last, n, |s.mem|)
            else if !SlotIn(s.q, |s.mem|) then TxDrain(s).None? && n > 0 && !SlotsIn(s.q.geo, s.q.last, n, |s.mem|)
            else
              var s1 := TxOne(s, heads[0], d.value);
              && s1.q.geo == s.q.geo && TxDrain(s) == TxDrain(s1) && n > 0
              && (SlotsIn(s.q.geo, s.q.last, n, |s.mem|) <==> SlotsIn(s.q.geo, Wrap(s.q.last + 1), n - 1, |s.mem|))
  {
    hide ReadDesc, Wrap, TxOne, Clear, NextHead, Slot, Gap;
    NextIsFirst(s, heads);
  }

  lemma ReadableRest(s: Tx, s1: Tx, heads: seq<u16>)
    requires heads != [] && ReadDesc(s.mem, s.q.geo.desc, heads[0]).Some?
    requires forall k :: 0 <= k < |heads| ==> SameFrame(s.q, s.mem, s1.mem, heads[k])
    ensures Readable(s.mem, s.q.geo.desc, heads) == 1 + Readable(s1.mem, s.q.geo.desc, heads[1..])
  {
    hide ReadDesc, SameFrame, FrameOf;
    assert forall k :: 0 <= k < |heads| - 1 ==> heads[1..][k] == heads[k + 1];
    FramesSame(s.q, s.mem, s1.mem, heads[1..]);
  }

  /** When the transmit loop of the source ends: exactly when the used slot of every readable
      pending head is inside memory. Otherwise it makes every number of turns. */
  lemma TxEndsIff(s: Tx, heads: seq<u16>)
    requires Pending(s.q, s.mem, heads)
    ensures Ends(s) <==> SlotsIn(s.q.geo, s.q.last, Readable(s.mem, s.q.geo.desc, heads), |s.mem|)
  {
    hide Readable, SlotsIn, TxDrain, Offers, Clear, Ends;
    DrainOffersFrames(s, heads);
    EndsIffDrain(s);
  }

  lemma OffersNothing(s: Tx, heads: seq<u16>)
    requires heads == [] || ReadDesc(s.mem, s.q.geo.desc, heads[0]).None?
    ensures Offers(s, s, heads)
  {
    WrapMoves(s.q.last, 0);
  }

  lemma TxOneOffers(s: Tx, head: u16, d: Desc)
    requires s.q.geo.size > 0
    ensures TxOne(s, head, d).offered ==
      s.offered + FrameOf(s.mem, d)
  {
    hide AddUsed, Payload, FrameOf;
    PayloadIsFrame(s.mem, d);
  }

  lemma NextIsFirst(s: Tx, heads: seq<u16>)
    requires Pending(s.q, s.mem, heads)
    ensures NextHead(s.q, s.mem) == if heads == [] then None else Some(heads[0])
  {
    hide Clear;
    WrapMoves(s.q.last, |heads|);
    WrapMoves(s.q.last, 0);
    if heads != [] {
      SlotInRing(s.q.geo, s.q.last);
      assert Word16(s.mem, AvailSlot(s.q.geo, Wrap(s.q.last + 0))) == heads[0];
    }
  }

  // ---- The frames of a pending head ----

  lemma {:induction false} FramesAppend(m: seq<byte>, table: nat, a: seq<u16>, b: seq<u16>)
    ensures Frames(m, table, a + b) == Frames(m, table, a) + Frames(m, table, b)
  {
    hide ReadDesc, FrameOf;
    if a == [] {
      assert a + b == b;
    } else {
      var d := ReadDesc(m, table, a[0]);
      var one := if d.Some? then FrameOf(m, d.value) else [];
      assert (a + b)[1..] == a[1..] + b;
      FramesAppend(m, table, a[1..], b);
      assert one + Frames(m, table, a[1..]) + Frames(m, table, b) == one + (Frames(m, table, a[1..]) + Frames(m, table, b));
    }
  }

  /** A readable head contributes its own frame, between those of the heads before it and those of
      the heads after it. */
  lemma FrameInPlace(m: seq<byte>, table: nat, heads: seq<u16>, j: nat, d: Desc)
    requires j < |heads| && ReadDesc(m, table, heads[j]) == Some(d)
    ensures Frames(m, table, heads) == Frames(m, table, heads[..j]) + FrameOf(m, d) + Frames(m, table, heads[j + 1..])
  {
    hide ReadDesc, FrameOf;
    var rest := heads[j..];
    assert heads == heads[..j] + rest;
    assert rest[1..] == heads[j + 1..];
    FramesAppend(m, table, heads[..j], rest);
  }

  // ---- A loop that ends and one that does not ----

  /** Two positions, of which the second used slot is outside a memory of 48 bytes. */
  const SHORT_RING := Geometry(2, 8, 0, 36)

  /** With `n` heads published, all of them 0. */
  function ShortRing(n: byte): Tx {
    Tx(Queue(SHORT_RING, true, 0), Zeros(48)[2 := n], [])
  }

  lemma ShortRingBytes(n: byte)
    ensures var m := ShortRing(n).mem;
            && |m| == 48 && Word16(m, 2) == n && Word16(m, 4) == 0 && Word16(m, 6) == 0
            && ReadDesc(m, SHORT_RING.desc, 0) == Some(Desc(0, 0, 0, 0))
    ensures AvailSlot(SHORT_RING, 0) == 4 && AvailSlot(SHORT_RING, 1) == 6
    ensures UsedSlot(SHORT_RING, 0) == 40 && UsedSlot(SHORT_RING, 1) == 48
  {
    hide Slot;
    SlotIsRemainder(0, 2);
    SlotIsRemainder(1, 2);
    var m := ShortRing(n).mem;
    assert forall p :: 0 <= p < 48 && p != 2 ==> m[p] == 0;
    assert Word64(m, 8) == 0 && Word32(m, 16) == 0;
  }

  lemma ShortRingPending(n: byte)
    requires n <= 2
    ensures Pending(ShortRing(n).q, ShortRing(n).mem, Zeros(n))
    ensures Readable(ShortRing(n).mem, SHORT_RING.desc, Zeros(n)) == n
  {
    hide Zeros, Slot, ReadDesc, AvailSlot, UsedSlot, Word16, Readable;
    ShortRingBytes(n);
    AllReadable(ShortRing(n).mem, SHORT_RING.desc, Zeros(n));
  }

  lemma {:induction false} AllReadable(m: seq<byte>, table: nat, heads: seq<u16>)
    requires forall k :: 0 <= k < |heads| ==> ReadDesc(m, table, heads[k]).Some?
    ensures Readable(m, table, heads) == |heads|
  {
    hide ReadDesc;
    if heads != [] {
      AllReadable(m, table, heads[1..]);
    }
  }

  /** One head: the loop ends, although the ring is not inside memory. Two: it never does. */
  lemma ShortRingEnds()
    ensures !Within(UsedRegion(SHORT_RING), 48)
    ensures Ends(ShortRing(1)) && !Ends(ShortRing(2))
  {
    hide Ends, Pending, Slot, Readable;
    ShortRingPending(1);
    ShortRingPending(2);
    TxEndsIff(ShortRing(1), Zeros(1));
    TxEndsIff(ShortRing(2), Zeros(2));
    ShortRingBytes(0);
    var g := SHORT_RING;
    assert SlotsIn(g, 1, 0, 48);
    assert !SlotsIn(g, Wrap(0 + 1), 1, 48);
  }
}
