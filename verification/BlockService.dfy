/** The two views of the block queue together: a notify that finds the channel in order serves,
    as a sequential disk would, exactly the heads published and not yet completed, and logs each
    of them in the used ring with the length of its answer. */
module BlockService {
  import opened Bytes
  import opened Ring
  import opened BlockQueue
  import opened BlockBytes
  import opened BlockChain
  import opened BlockRefinement
  import opened VirtioBlockDevice
  import BlockProtocol

  lemma HeadInMemory(g: Geometry, m: seq<byte>, k: nat)
    requires Placed(g, |m|)
    ensures HeadAt(g, m, Wrap(k)) == Some(HeadIn(g, m, Wrap(k)))
  {
    hide Slot, Wrap;
    SlotInRing(g, Wrap(k));
  }

  lemma PendingIsBatch(g: Geometry, m: seq<byte>, last: u16, published: seq<u16>, done: seq<Element>, taken: nat)
    requires Holds(g, m, last, published, done, taken)
    requires Submitted(g, m, published[|done|..])
    ensures Batch(g, m, last, published[|done|..])
    ensures |published| - |done| < 0x1_0000
    ensures AvailIdx(g, m) == Wrap(last + |published[|done|..]|) == Wrap(|published|)
  {
    hide Submitted, Wrap, HeadsFrom, ElementsFrom, HeadAt, HeadIn, WholeTurns16;
    var heads := published[|done|..];
    forall k | 0 <= k < |heads|
      ensures HeadAt(g, m, Wrap(last + k)) == Some(heads[k])
    {
      PendingAt(g, m, last, published, done, taken, k);
      HeadInMemory(g, m, last + k);
    }
    WrapSum(|done|, |heads|);
  }

  // ---- What the driver gets back ----

  /** The used element of a request answered on a disk `d`: its head, and the number of bytes
      written to guest memory, status included, as 32 bits hold it. */
  function AnswerElement(g: Geometry, m: seq<byte>, head: u16, d: seq<byte>): Element
    requires WellFormed(g, m, head)
  {
    var r := RequestAt(g, m, head);
    Element(head, ((if r.out then 0 else Available(|d|, FirstByte(r), r.dataLen)) + 1) % 0x1_0000_0000)
  }

  /** The used elements of a batch: that of request `k` counts what the disk as of its place in
      the order gave it. */
  function Elements(g: Geometry, m: seq<byte>, heads: seq<u16>, d: seq<byte>): (es: seq<Element>)
    requires forall k :: 0 <= k < |heads| ==> WellFormed(g, m, heads[k])
    ensures |es| == |heads|
  {
    seq(|heads|, k requires 0 <= k < |heads| => AnswerElement(g, m, heads[k], RunDisk(d, Ops(g, m, heads)[..k])))
  }

  /** A request of a batch is sound in the sense of the channel. */
  lemma CompatibleIsSound(g: Geometry, m: seq<byte>, head: u16)
    requires WellFormed(g, m, head) && Compatible(g, m, head, head)
    ensures BlockProtocol.Sound(g, m, head)
  {
    hide WellFormed, RequestAt, Chain, Reading, HeaderRegion;
    WellFormedReads(g, m, head);
  }

  lemma CompletionIs(g: Geometry, b: Device, head: u16)
    requires WellFormed(g, b.mem, head) && b.disk.Some?
    ensures Chain(b.mem, g.desc, head, {}).Some?
    ensures BlockProtocol.Completion(g, b, head) == AnswerElement(g, b.mem, head, b.disk.value)
  {
    hide WellFormed, RequestAt, Chain, Reading, Answer, DiskRead, DiskOffset, FirstByte;
    WrittenIsCounted(g, b.mem, b.disk.value, head);
    OffsetIsFirstByte(RequestAt(g, b.mem, head));
  }

  lemma ElementsJoin(g: Geometry, m: seq<byte>, m1: seq<byte>, heads: seq<u16>, d: seq<byte>)
    requires Stable(g, m, m1, heads)
    requires forall k :: 0 <= k < |heads| - 1 ==> WellFormed(g, m1, heads[1..][k])
    requires Ops(g, m1, heads[1..]) == Ops(g, m, heads)[1..]
    ensures Elements(g, m, heads, d) ==
      [AnswerElement(g, m, heads[0], d)] + Elements(g, m1, heads[1..], Apply(d, OpAt(g, m, heads[0])))
  {
    hide WellFormed, RequestAt, HeaderRegion, SameAsk, OpAt, Apply, RunDisk, Compatible, DataApart, Available, FirstByte;
    var ops := Ops(g, m, heads);
    StableRest(g, m, m1, heads);
    var es := Elements(g, m, heads, d);
    var rest := Elements(g, m1, heads[1..], Apply(d, ops[0]));
    forall k | 0 <= k < |heads|
      ensures es[k] == ([AnswerElement(g, m, heads[0], d)] + rest)[k]
    {
      if k == 0 {
        RunNone(d, ops[..0]);
      } else {
        RunRest(d, ops, k);
        assert rest[k - 1] == AnswerElement(g, m1, heads[1..][k - 1], RunDisk(Apply(d, ops[0]), ops[1..][..k - 1]));
      }
    }
  }

  /** One turn on a batch, in both views. */
  lemma BatchTurn(g: Geometry, b: Device, published: seq<u16>, done: seq<Element>, taken: nat, heads: seq<u16>)
    requires Holds(g, b.mem, b.last, published, done, taken) && b.disk.Some?
    requires heads == published[|done|..] && heads != [] && Submitted(g, b.mem, heads)
    ensures WellFormed(g, b.mem, heads[0])
    ensures var b1, e := Served(g, b, heads[0]), AnswerElement(g, b.mem, heads[0], b.disk.value);
            && Drain(g, b, Wrap(|published|)) == Drain(g, b1, Wrap(|published|))
            && Holds(g, b1.mem, b1.last, published, done + [e], taken)
            && b1.disk.Some? && Submitted(g, b1.mem, heads[1..])
            && Elements(g, b.mem, heads, b.disk.value) == [e] + Elements(g, b1.mem, heads[1..], b1.disk.value)
  {
    hide Holds, Drain, Served, Elements, AnswerElement, Wrap, Compatible, DataApart, WellFormed, Answered, SameAsk;
    hide OpAt, Apply, HeadAt, BlockProtocol.Sound, BlockProtocol.Completion;
    BlockProtocol.HoldsCursor(g, b.mem, b.last, published, done, taken);
    var b1 := Served(g, b, heads[0]);
    PendingIsBatch(g, b.mem, b.last, published, done, taken);
    WrapMoves(b.last, |heads|);
    BatchFirst(g, b, heads, Wrap(|published|));
    assert Compatible(g, b.mem, heads[0], heads[0]);
    CompatibleIsSound(g, b.mem, heads[0]);
    CompletionIs(g, b, heads[0]);
    TurnHolds(g, b, published, done, taken);
    BatchRest(g, b, heads);
    ServedEffect(g, b, heads[0]);
    OpsRest(g, b.mem, b1.mem, heads);
    ElementsJoin(g, b.mem, b1.mem, heads, b.disk.value);
  }

  lemma TurnHolds(g: Geometry, b: Device, published: seq<u16>, done: seq<Element>, taken: nat)
    requires Holds(g, b.mem, b.last, published, done, taken) && |done| < |published|
    requires BlockProtocol.Sound(g, b.mem, published[|done|])
    ensures g.size > 0 && Chain(b.mem, g.desc, published[|done|], {}).Some?
    ensures var b1 := Served(g, b, published[|done|]);
            Holds(g, b1.mem, b1.last, published, done + [BlockProtocol.Completion(g, b, published[|done|])], taken)
  {
    hide Holds, Serve, Chain, BlockProtocol.Sound, BlockProtocol.Completion, Wrap;
    BlockProtocol.HoldsCursor(g, b.mem, b.last, published, done, taken);
    BlockProtocol.ServeAppends(g, b, published, done, taken);
  }

  /** The channel over the drain of a batch. */
  lemma {:induction false} BatchAppends(g: Geometry, b: Device, published: seq<u16>, done: seq<Element>, taken: nat,
                                        heads: seq<u16>)
    requires Holds(g, b.mem, b.last, published, done, taken) && b.disk.Some?
    requires heads == published[|done|..] && Submitted(g, b.mem, heads)
    ensures g.size > 0 && Drain(g, b, Wrap(|published|)).Some?
    ensures var b' := Drain(g, b, Wrap(|published|)).value;
            Holds(g, b'.mem, b'.last, published, done + Elements(g, b.mem, heads, b.disk.value), taken)
    decreases |heads|
  {
    hide Holds, Drain, Served, Elements, AnswerElement, Wrap, Compatible, DataApart, WellFormed;
    BlockProtocol.HoldsCursor(g, b.mem, b.last, published, done, taken);
    if heads == [] {
      CaughtUp(g, b, published, done, taken);
      assert done + Elements(g, b.mem, heads, b.disk.value) == done;
    } else {
      var b1, e := Served(g, b, heads[0]), AnswerElement(g, b.mem, heads[0], b.disk.value);
      BatchTurn(g, b, published, done, taken, heads);
      var rest := Elements(g, b1.mem, heads[1..], b1.disk.value);
      assert done + [e] + rest == done + ([e] + rest);
      assert heads[1..] == published[|done| + 1..];
      BatchAppends(g, b1, published, done + [e], taken, heads[1..]);
    }
  }

  lemma CaughtUp(g: Geometry, b: Device, published: seq<u16>, done: seq<Element>, taken: nat)
    requires Holds(g, b.mem, b.last, published, done, taken) && published[|done|..] == []
    ensures g.size > 0 && Drain(g, b, Wrap(|published|)) == Some(b)
  {
    hide Holds, Wrap, Drain;
    BlockProtocol.HoldsCursor(g, b.mem, b.last, published, done, taken);
    DrainDone(g, b);
  }

  /** Every chain the drain of a batch comes to is sound. */
  lemma {:induction false} BatchAllSound(g: Geometry, b: Device, heads: seq<u16>, target: u16)
    requires Batch(g, b.mem, b.last, heads) && b.disk.Some?
    requires |heads| < 0x1_0000 && target == Wrap(b.last + |heads|)
    ensures BlockProtocol.AllSound(g, b, target)
    decreases |heads|
  {
    hide Served, Compatible, DataApart, WellFormed, HeadAt, OpAt, SameAsk, Wrap, RequestAt, Drain;
    hide BlockProtocol.Sound;
    WrapMoves(b.last, |heads|);
    if heads != [] {
      BatchFirst(g, b, heads, target);
      BatchRest(g, b, heads);
      WrapPlus(b.last, |heads| - 1);
      BatchAllSound(g, Served(g, b, heads[0]), heads[1..], target);
      assert Compatible(g, b.mem, heads[0], heads[0]);
      CompatibleIsSound(g, b.mem, heads[0]);
      SoundFirst(g, b, heads[0], target);
    }
  }

  lemma SoundFirst(g: Geometry, b: Device, head: u16, target: u16)
    requires g.size > 0 && b.last != target && HeadAt(g, b.mem, b.last) == Some(head)
    requires BlockProtocol.Sound(g, b.mem, head)
    requires BlockProtocol.AllSound(g, Served(g, b, head), target)
    ensures BlockProtocol.AllSound(g, b, target)
  {
    hide Serve, Chain, Reading, HeadAt, Gap;
  }

  // ---- The notify ----

  /** From any state in which guest memory and cursor represent the channel, wherever the 16-bit
      indices have wrapped to, a notify serves the published and not yet completed heads, in the
      order of publication and each once. For the disk: it is the sequential server's, and every
      read buffer holds what that server had read by then. For the channel: it still holds, with
      nothing pending, and what was completed is what had been, then one used element for each
      served head that counts the bytes of its answer. */
  lemma NotifyServesPublished(g: Geometry, b: Device, published: seq<u16>, done: seq<Element>, taken: nat)
    requires Holds(g, b.mem, b.last, published, done, taken) && b.disk.Some?
    requires Submitted(g, b.mem, published[|done|..])
    ensures var heads := published[|done|..];
            var r := Drain(g, b, AvailIdx(g, b.mem));
            && r.Some? && r.value.last == AvailIdx(g, b.mem)
            && Sequential(g, b, r.value, heads)
            && var done' := done + Elements(g, b.mem, heads, b.disk.value);
            |done'| == |published| && Holds(g, r.value.mem, r.value.last, published, done', taken)
  {
    hide Batch, Submitted, Sequential, Drain, HeadsFrom, ElementsFrom, Elements, Wrap, WellFormed;
    PendingIsBatch(g, b.mem, b.last, published, done, taken);
    DrainServesInOrder(g, b, published[|done|..], AvailIdx(g, b.mem));
    SubmittedFormed(g, b.mem, published[|done|..]);
    BatchAppends(g, b, published, done, taken, published[|done|..]);
  }

  lemma SubmittedFormed(g: Geometry, m: seq<byte>, heads: seq<u16>)
    requires Submitted(g, m, heads)
    ensures forall k :: 0 <= k < |heads| ==> WellFormed(g, m, heads[k])
  {
    hide Compatible, DataApart, WellFormed;
  }

  /** The outcome of a notify, whatever computes it: the registers but for the interrupt bit, the
      disk and the buffers as of the sequential server, in bytes as well, the channel with nothing
      pending, and the interrupt asked for exactly when there was something to serve. */
  ghost predicate Serviced(r: Regs, b: Device, o: Reply, published: seq<u16>, done: seq<Element>, taken: nat)
  {
    && |done| <= |published| && b.disk.Some?
    && var g, heads := r.Queue(), published[|done|..];
    && (forall k :: 0 <= k < |heads| ==> WellFormed(g, b.mem, heads[k]))
    && |o.dev.mem| == |b.mem|
    && Sequential(g, b, o.dev, heads)
    && ByBytes(g, b, o.dev, heads)
    && o.dev.last == Wrap(|published|)
    && Holds(g, o.dev.mem, o.dev.last, published, done + Elements(g, b.mem, heads, b.disk.value), taken)
    && (o.irq <==> heads != [])
    && o.regs == r.(interruptStatus := o.regs.interruptStatus)
    && o.regs.interruptStatus / 2 == r.interruptStatus / 2
    && (o.regs.interruptStatus % 2 == 1 <==> heads != [] || r.interruptStatus % 2 == 1)
  }

  /** A write of any value to the notify register (0x050), with the queue ready, does all that:
      every published head is served before it returns. */
  lemma RegisterNotifyServes(r: Regs, b: Device, v: u32, published: seq<u16>, done: seq<Element>, taken: nat)
    requires var g := r.Queue();
             && r.queueReady != 0 && Holds(g, b.mem, b.last, published, done, taken) && b.disk.Some?
             && |done| <= |published| && Submitted(g, b.mem, published[|done|..])
    ensures WriteReg(r, b, 0x050, v).Some?
    ensures Serviced(r, b, WriteReg(r, b, 0x050, v).value, published, done, taken)
  {
    hide Submitted, Sequential, ByBytes, Drain, HeadsFrom, ElementsFrom, Elements, Wrap, WellFormed, SetReg;
    var g, heads := r.Queue(), published[|done|..];
    SubmittedFormed(g, b.mem, heads);
    PendingIsBatch(g, b.mem, b.last, published, done, taken);
    NotifyServesPublished(g, b, published, done, taken);
    var b' := Drain(g, b, AvailIdx(g, b.mem)).value;
    SequentialSize(g, b, b', heads);
    SequentialByBytes(g, b, b', heads);
    OldestPending(g, b.mem, b.last, published, done, taken);
  }

  lemma SequentialSize(g: Geometry, b: Device, b': Device, heads: seq<u16>)
    requires forall k :: 0 <= k < |heads| ==> WellFormed(g, b.mem, heads[k])
    requires b.disk.Some? && Sequential(g, b, b', heads)
    ensures |b'.mem| == |b.mem|
  {
    hide WellFormed, Framed, AllAnswered, RunDisk, Ops;
  }

  /** In particular with guest memory and device as they are at any point of any run of a driver and
      any number of notifying threads. */
  lemma ReachableNotifyServes(g: Geometry, run: seq<BlockProtocol.State>, i: nat, r: Regs, v: u32)
    requires BlockProtocol.Run(g, run) && i < |run| && r.Queue() == g && r.queueReady != 0
    requires var s := run[i];
             s.dev.disk.Some? && |s.done| <= |s.published| && Submitted(g, s.dev.mem, s.published[|s.done|..])
    ensures var s := run[i];
            && WriteReg(r, s.dev, 0x050, v).Some?
            && Serviced(r, s.dev, WriteReg(r, s.dev, 0x050, v).value, s.published, s.done, |s.collected|)
  {
    hide Submitted, Serviced, WriteReg, HeadsFrom, ElementsFrom, Wrap, WellFormed;
    hide BlockProtocol.Exclusive, BlockProtocol.OnTurn, BlockProtocol.Fresh, Staged;
    BlockProtocol.InvRun(g, run, i);
    var s := run[i];
    RegisterNotifyServes(r, s.dev, v, s.published, s.done, |s.collected|);
  }

  /** And the device's method may be called in such a state: the drain a notify performs ends, and
      no address sum of it wraps. */
  lemma NotifyIsReady(r: Regs, b: Device, published: seq<u16>, done: seq<Element>, taken: nat)
    requires var g := r.Queue();
             && Holds(g, b.mem, b.last, published, done, taken) && b.disk.Some?
             && Submitted(g, b.mem, published[|done|..])
             && QueueFits(g) && |b.mem| < TWO_TO_64
    ensures Notify(r, b).Some? && NotifyFits(r, b)
  {
    hide Batch, Submitted, Sequential, Drain, DrainFits, HeadsFrom, ElementsFrom, Elements, Wrap, WellFormed, QueueFits;
    var g := r.Queue();
    PendingIsBatch(g, b.mem, b.last, published, done, taken);
    NotifyServesPublished(g, b, published, done, taken);
    BatchFits(g, b, published[|done|..], AvailIdx(g, b.mem));
  }
}
