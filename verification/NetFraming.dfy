/** A frame the device received, sent back from the buffer it was put in. */
module NetFraming {
  import opened Bytes
  import opened Ring
  import opened NetQueue
  import opened NetTransmit
  import opened NetRuns

  /** Descriptor `d` names the buffer a receive filled, with the length its used element reports. */
  ghost predicate Resubmits(q: Queue, m: seq<byte>, incoming: seq<seq<byte>>, d: Desc)
    requires Placed(q.geo, |m|)
  {
    RxTarget(q, m).Some? &&
    d.addr == RxTarget(q, m).value.addr && d.len == ElementIn(q.geo, RxOne(q, m, incoming).mem, q.last).len
  }

  /** The bytes after the header of that buffer are the frame, as long as nobody writes to it. */
  lemma BufferHoldsFrame(q: Queue, m: seq<byte>, incoming: seq<seq<byte>>, m': seq<byte>, d: Desc)
    requires q.ready && Placed(q.geo, |m|) && RxOne(q, m, incoming).irq
    requires Disjoint(UsedRegion(q.geo), Region(RxTarget(q, m).value.addr, RxTarget(q, m).value.len))
    requires Resubmits(q, m, incoming, d)
    requires |m'| == |m| && Unchanged(RxOne(q, m, incoming).mem, m', Region(d.addr, d.len))
    ensures FrameOf(m', d) == [Cut(incoming[0])]
  {
    hide AddUsed, NextHead, ReadDesc, Slot, Wrap, Store, Zeros, Word32, Word16;
    var target, p := RxTarget(q, m).value, Cut(incoming[0]);
    FrameStored(q, m, target, p, NextHead(q, m).value);
    SliceSame(RxOne(q, m, incoming).mem, m', d.addr + HDR_LEN, |p|);
  }

  /** The buffer of a received frame, posted again for transmission with the length its used
      element reported, makes the transmit loop offer exactly that frame, in the place of its head
      among the frames of the other pending heads, wherever the buffer lies and whatever the
      driver has done to memory outside it in the meantime. */
  lemma ReceivedFrameIsSentBack(q: Queue, m: seq<byte>, incoming: seq<seq<byte>>, later: Tx,
                                heads: seq<u16>, j: nat, d: Desc)
    requires q.ready && Placed(q.geo, |m|) && RxOne(q, m, incoming).irq
    requires Disjoint(UsedRegion(q.geo), Region(RxTarget(q, m).value.addr, RxTarget(q, m).value.len))
    requires |later.mem| == |m| && Pending(later.q, later.mem, heads) && TxDrain(later).Some?
    requires j < Readable(later.mem, later.q.geo.desc, heads)
    requires ReadDesc(later.mem, later.q.geo.desc, heads[j]) == Some(d) && Resubmits(q, m, incoming, d)
    requires Unchanged(RxOne(q, m, incoming).mem, later.mem, Region(d.addr, d.len))
    ensures var table, n := later.q.geo.desc, Readable(later.mem, later.q.geo.desc, heads);
            TxDrain(later).value.offered == later.offered
              + (Frames(later.mem, table, heads[..j]) + [Cut(incoming[0])] + Frames(later.mem, table, heads[j + 1..n]))
  {
    hide RxOne, RxTarget, ReadDesc, TxDrain, Clear, Placed, Resubmits, FrameOf, Frames, Readable;
    var n := Readable(later.mem, later.q.geo.desc, heads);
    BufferHoldsFrame(q, m, incoming, later.mem, d);
    DrainOffersFrames(later, heads);
    FrameInPlace(later.mem, later.q.geo.desc, heads[..n], j, d);
    assert heads[..n][..j] == heads[..j] && heads[..n][j + 1..] == heads[j + 1..n];
  }
}
