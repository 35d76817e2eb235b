/** Both network queues over whole runs: a driver publishes and collects on each, frames arrive at
    the TAP, and the device receives and transmits a buffer at a time, in any interleaving. */
module NetRuns {
  import opened Bytes
  import opened Ring
  import opened NetQueue
  import opened NetTransmit

  /** A queue with the logs of its two ends, the head the driver has put in a slot and not yet
      counted, and the driver's own used cursor. */
  datatype Endpoints = Endpoints(q: Queue, staged: Option<u16>, published: seq<u16>, done: seq<Element>,
                         collected: seq<Element>, cursor: u16)

  /** A frame taken from the TAP, and whether the buffer at the cursor could hold it. */
  datatype Attempt = Attempt(frame: seq<byte>, kept: bool)

  datatype State = State(mem: seq<byte>, rx: Endpoints, tx: Endpoints, incoming: seq<seq<byte>>, offered: seq<seq<byte>>,
                         arrived: seq<seq<byte>>, attempts: seq<Attempt>, delivered: seq<seq<byte>>)

  datatype Side = RX | TX

  datatype Step =
    | FillSlot(side: Side, head: u16)
    | AdvanceIndex(side: Side)
    | Collect(side: Side)
    | Scribble(mem: seq<byte>)
    | Arrive(frame: seq<byte>)
    | Receive
    | Transmit

  function Taken(attempts: seq<Attempt>): (fs: seq<seq<byte>>)
    ensures |fs| == |attempts|
  {
    if attempts == [] then [] else Taken(attempts[..|attempts| - 1]) + [attempts[|attempts| - 1].frame]
  }

  /** The frames of the attempts that were kept, in order, cut to what a read returns. */
  function Kept(attempts: seq<Attempt>): seq<seq<byte>> {
    if attempts == [] then []
    else
      var a := attempts[|attempts| - 1];
      Kept(attempts[..|attempts| - 1]) + if a.kept then [Cut(a.frame)] else []
  }

  /** The rings of both queues, which a buffer must keep off. */
  ghost predicate OffRings(s: State, r: Region) {
    && Disjoint(r, AvailRegion(s.rx.q.geo)) && Disjoint(r, UsedRegion(s.rx.q.geo))
    && Disjoint(r, AvailRegion(s.tx.q.geo)) && Disjoint(r, UsedRegion(s.tx.q.geo))
  }

  ghost predicate RingsApart(s: State) {
    && Disjoint(AvailRegion(s.rx.q.geo), AvailRegion(s.tx.q.geo))
    && Disjoint(AvailRegion(s.rx.q.geo), UsedRegion(s.tx.q.geo))
    && Disjoint(UsedRegion(s.rx.q.geo), AvailRegion(s.tx.q.geo))
    && Disjoint(UsedRegion(s.rx.q.geo), UsedRegion(s.tx.q.geo))
  }

  ghost predicate Ready(e: Endpoints, memSize: nat) {
    e.q.ready && Placed(e.q.geo, memSize)
  }

  ghost predicate SetUp(s: State) {
    Ready(s.rx, |s.mem|) && Ready(s.tx, |s.mem|) && RingsApart(s)
  }

  ghost predicate FreshEndpoints(e: Endpoints, m: seq<byte>)
    requires Placed(e.q.geo, |m|)
  {
    && AvailIdx(e.q.geo, m) == 0 && UsedIdx(e.q.geo, m) == 0 && e.q.last == 0 && e.cursor == 0
    && e.staged.None? && e.published == [] && e.done == [] && e.collected == []
  }

  ghost predicate Init(s: State) {
    && SetUp(s) && FreshEndpoints(s.rx, s.mem) && FreshEndpoints(s.tx, s.mem)
    && s.arrived == s.incoming && s.attempts == [] && s.delivered == []
  }

  ghost predicate NextBy(s: State, s': State, step: Step)
    requires SetUp(s)
  {
    var m := s.mem;
    match step
    // The driver fills a slot it is entitled to, and later advances the available index.
    case FillSlot(RX, head) =>
      && MayFill(s.rx)
      && s' == s.(mem := Fill(s.rx.q.geo, m, head), rx := s.rx.(staged := Some(head)))
    case FillSlot(TX, head) =>
      && MayFill(s.tx)
      && s' == s.(mem := Fill(s.tx.q.geo, m, head), tx := s.tx.(staged := Some(head)))
    case AdvanceIndex(RX) =>
      && s.rx.staged.Some?
      && s' == s.(mem := Advance(s.rx.q.geo, m), rx := CountStaged(s.rx))
    case AdvanceIndex(TX) =>
      && s.tx.staged.Some?
      && s' == s.(mem := Advance(s.tx.q.geo, m), tx := CountStaged(s.tx))
    case Collect(RX) =>
      && s.rx.cursor != UsedIdx(s.rx.q.geo, m)
      && s' == s.(rx := TakeOne(s.rx, m))
    case Collect(TX) =>
      && s.tx.cursor != UsedIdx(s.tx.q.geo, m)
      && s' == s.(tx := TakeOne(s.tx, m))
    case Scribble(mem) =>
      && |mem| == |m| && SameRings(s, mem)
      && s' == s.(mem := mem)
    case Arrive(frame) =>
      s' == s.(incoming := s.incoming + [frame], arrived := s.arrived + [frame])
    // A receive. The driver keeps the buffers it posts off the rings.
    case Receive =>
      && (RxTarget(s.rx.q, m).Some? ==> OffRings(s, Region(RxTarget(s.rx.q, m).value.addr, RxTarget(s.rx.q, m).value.len)))
      && s' == Received(s)
    // One turn of the transmit loop.
    case Transmit =>
      && CanTurn(Tx(s.tx.q, m, s.offered))
      && s' == Transmitted(s)
  }

  ghost predicate SameRings(s: State, mem: seq<byte>)
    requires |mem| == |s.mem|
  {
    && Unchanged(s.mem, mem, AvailRegion(s.rx.q.geo)) && Unchanged(s.mem, mem, UsedRegion(s.rx.q.geo))
    && Unchanged(s.mem, mem, AvailRegion(s.tx.q.geo)) && Unchanged(s.mem, mem, UsedRegion(s.tx.q.geo))
  }

  predicate MayFill(e: Endpoints) {
    e.staged.None? && |e.published| < |e.collected| + e.q.geo.size
  }

  function CountStaged(e: Endpoints): Endpoints
    requires e.staged.Some?
  {
    e.(published := e.published + [e.staged.value], staged := None)
  }

  function TakeOne(e: Endpoints, m: seq<byte>): Endpoints
    requires Placed(e.q.geo, |m|)
  {
    e.(cursor := Wrap(e.cursor + 1), collected := e.collected + [ElementIn(e.q.geo, m, e.cursor)])
  }

  /** The device's receive, with the logs of what it took from the TAP and what it delivered. */
  function Received(s: State): State
    requires s.rx.q.geo.size > 0
  {
    var r := RxOne(s.rx.q, s.mem, s.incoming);
    var target := RxTarget(s.rx.q, s.mem);
    if |r.incoming| == |s.incoming| then s.(mem := r.mem, rx := s.rx.(q := r.q))
    else
      var p := Cut(s.incoming[0]);
      var kept := target.Some? && Fits(s.mem, target.value, p);
      State(r.mem,
            if r.irq then s.rx.(q := r.q, done := s.rx.done + [Element(NextHead(s.rx.q, s.mem).value, |p| + HDR_LEN)])
            else s.rx.(q := r.q),
            s.tx, r.incoming, s.offered, s.arrived, s.attempts + [Attempt(s.incoming[0], kept)],
            if r.irq then s.delivered + [p] else s.delivered)
  }

  function Transmitted(s: State): State
    requires s.tx.q.geo.size > 0 && CanTurn(Tx(s.tx.q, s.mem, s.offered))
  {
    var head := NextHead(s.tx.q, s.mem).value;
    var t := TxOne(Tx(s.tx.q, s.mem, s.offered), head, ReadDesc(s.mem, s.tx.q.geo.desc, head).value);
    s.(mem := t.mem, offered := t.offered, tx := s.tx.(q := t.q, done := s.tx.done + [Element(head, 0)]))
  }

  ghost predicate Next(s: State, s': State) {
    SetUp(s) && exists step :: NextBy(s, s', step)
  }

  // ---- The invariant ----

  ghost predicate Channel(e: Endpoints, m: seq<byte>) {
    && Holds(e.q.geo, m, e.q.last, e.published, e.done, |e.collected|)
    && Staged(e.q.geo, m, e.published, |e.collected|, e.staged)
    && e.cursor == Wrap(|e.collected|)
    && e.collected == e.done[..|e.collected|]
  }

  ghost predicate Inv(s: State) {
    && SetUp(s)
    && Channel(s.rx, s.mem)
    && Channel(s.tx, s.mem)
    && (forall k :: 0 <= k < |s.tx.done| ==> s.tx.done[k].len == 0)
    && Delivers(s)
  }

  /** Conservation of frames: what arrived was taken, in order, or waits; what was taken was
      delivered, in order, unless its buffer could not hold it; and the k-th receive completion
      is the k-th delivered frame, counted with its header. */
  ghost predicate Delivers(s: State) {
    && s.arrived == Taken(s.attempts) + s.incoming
    && s.delivered == Kept(s.attempts)
    && |s.delivered| == |s.rx.done|
    && forall k :: 0 <= k < |s.delivered| ==> s.rx.done[k].len == |s.delivered[k]| + HDR_LEN
  }

  lemma InvInit(s: State)
    requires Init(s)
    ensures Inv(s)
  {
    HoldsAtStart(s.rx.q.geo, s.mem);
    HoldsAtStart(s.tx.q.geo, s.mem);
  }

  lemma ChannelElsewhere(e: Endpoints, m: seq<byte>, m': seq<byte>)
    requires Channel(e, m) && |m'| == |m|
    requires Unchanged(m, m', AvailRegion(e.q.geo)) && Unchanged(m, m', UsedRegion(e.q.geo))
    ensures Channel(e, m')
  {
    hide Holds, Staged, Wrap;
    ChannelPlaced(e, m);
    HoldsElsewhere(e.q.geo, m, m', e.q.last, e.published, e.done, |e.collected|);
    StagedSame(e.q.geo, m, m', e.published, |e.collected|, |e.collected|, e.staged);
  }

  /** The cursor stands at the oldest pending buffer, exactly when there is one. */
  lemma NextIsOldest(e: Endpoints, m: seq<byte>)
    requires Channel(e, m)
    ensures e.q.geo.size > 0
    ensures NextHead(e.q, m).Some? <==> |e.done| < |e.published|
    ensures |e.done| < |e.published| ==> NextHead(e.q, m) == Some(e.published[|e.done|])
  {
    hide HeadsFrom, ElementsFrom, InOrder, Slot, Wrap, Gap;
    OldestPending(e.q.geo, m, e.q.last, e.published, e.done, |e.collected|);
    SlotInRing(e.q.geo, e.q.last);
  }

  lemma StoreElement(m: seq<byte>, at: nat, e: Element)
    requires at + 8 <= |m|
    ensures var m' := Store(m, at, Bytes32(e.id) + Bytes32(e.len));
            Word32(m', at) == e.id && Word32(m', at + 4) == e.len
  {
    hide Bytes32, Word32;
    var d := Bytes32(e.id) + Bytes32(e.len);
    var m' := Store(m, at, d);
    forall k | 0 <= k < 4
      ensures m'[at + k] == Bytes32(e.id)[k] && m'[at + 4 + k] == Bytes32(e.len)[k]
    {
      assert d[k] == Bytes32(e.id)[k] && d[k + 4] == Bytes32(e.len)[k];
    }
    Word32Bytes(m', at, e.id);
    Word32Bytes(m', at + 4, e.len);
  }

  lemma AddUsedCompletes(q: Queue, m: seq<byte>, head: u16, len: u32)
    requires Placed(q.geo, |m|)
    ensures Completes(q.geo, m, AddUsed(q, m, head, len).mem, q.last, Element(head, len))
    ensures AddUsed(q, m, head, len).q.last == Wrap(q.last + 1)
  {
    hide Slot, Wrap, Bytes16, Bytes32, Word16;
    SlotInRing(q.geo, q.last);
    var at, next := UsedSlot(q.geo, q.last), Wrap(q.last + 1);
    var m1 := Store(m, at, Bytes32(head) + Bytes32(len));
    var m2 := AddUsed(q, m, head, len).mem;
    assert m2 == Store(m1, q.geo.used + 2, Bytes16(next));
    StoreElement(m, at, Element(head, len));
    Word32Same(m1, m2, at);
    Word32Same(m1, m2, at + 4);
    StoreWord16(m1, q.geo.used + 2, next);
  }

  /** Completing the buffer at the cursor keeps the channel of that queue. */
  lemma ChannelCompletes(e: Endpoints, m: seq<byte>, len: u32)
    requires Channel(e, m) && |e.done| < |e.published|
    ensures e.q.geo.size > 0
    ensures var u := AddUsed(e.q, m, e.published[|e.done|], len);
            Channel(e.(q := u.q, done := e.done + [Element(e.published[|e.done|], len)]), u.mem)
  {
    hide Holds, Staged, AddUsed, Completes, Wrap;
    var head := e.published[|e.done|];
    ChannelPlaced(e, m);
    var m' := AddUsed(e.q, m, head, len).mem;
    AddUsedCompletes(e.q, m, head, len);
    CompleteAppends(e.q.geo, m, m', e.q.last, e.published, e.done, |e.collected|, Element(head, len));
    CompleteSpares(e.q.geo, m, m', e.q.last, Element(head, len));
    StagedSame(e.q.geo, m, m', e.published, |e.collected|, |e.collected|, e.staged);
    ChannelCount(e, m);
  }

  lemma ChannelPlaced(e: Endpoints, m: seq<byte>)
    requires Channel(e, m)
    ensures Placed(e.q.geo, |m|)
  {
  }

  lemma ChannelCount(e: Endpoints, m: seq<byte>)
    requires Channel(e, m)
    ensures |e.collected| <= |e.done| <= |e.published| <= |e.collected| + e.q.geo.size
  {
  }

  lemma ChannelFills(e: Endpoints, m: seq<byte>, head: u16)
    requires Channel(e, m) && MayFill(e)
    ensures Placed(e.q.geo, |m|)
    ensures Channel(e.(staged := Some(head)), Fill(e.q.geo, m, head))
    ensures forall p :: 0 <= p < |m| && !AvailRegion(e.q.geo).Has(p) ==> Fill(e.q.geo, m, head)[p] == m[p]
  {
    hide Holds, Staged, Fill, Wrap;
    ChannelPlaced(e, m);
    FillStages(e.q.geo, m, e.q.last, e.published, e.done, |e.collected|, head);
    FillSpares(e.q.geo, m, head);
  }

  lemma ChannelAdvances(e: Endpoints, m: seq<byte>)
    requires Channel(e, m) && e.staged.Some?
    ensures Placed(e.q.geo, |m|)
    ensures Channel(CountStaged(e), Advance(e.q.geo, m))
    ensures forall p :: 0 <= p < |m| && !AvailRegion(e.q.geo).Has(p) ==> Advance(e.q.geo, m)[p] == m[p]
  {
    hide Holds, HeadIn, Advance, Wrap;
    ChannelPlaced(e, m);
    AdvanceAppends(e.q.geo, m, e.q.last, e.published, e.done, |e.collected|, e.staged.value);
    AdvanceSpares(e.q.geo, m);
  }

  lemma ChannelCollects(e: Endpoints, m: seq<byte>)
    requires Channel(e, m) && Placed(e.q.geo, |m|) && e.cursor != UsedIdx(e.q.geo, m)
    ensures Channel(TakeOne(e, m), m)
  {
    hide Holds, Staged, Wrap, UsedIdx, ElementIn;
    OldestUncollected(e.q.geo, m, e.q.last, e.published, e.done, |e.collected|);
    StagedSame(e.q.geo, m, m, e.published, |e.collected|, |e.collected| + 1, e.staged);
    ChannelCount(e, m);
    WrapNext(|e.collected|);
  }

  lemma InvTransmit(s: State, s': State)
    requires Inv(s) && NextBy(s, s', Transmit)
    ensures Inv(s')
  {
    hide Channel, AddUsed, Payload, ReadDesc, NextHead, Delivers, Placed;
    NextIsOldest(s.tx, s.mem);
    ChannelCompletes(s.tx, s.mem, 0);
    var u := AddUsed(s.tx.q, s.mem, s.tx.published[|s.tx.done|], 0);
    AddUsedSpares(s.tx.q, s.mem, s.tx.published[|s.tx.done|], 0, AvailRegion(s.rx.q.geo));
    AddUsedSpares(s.tx.q, s.mem, s.tx.published[|s.tx.done|], 0, UsedRegion(s.rx.q.geo));
    ChannelElsewhere(s.rx, s.mem, u.mem);
    DeliversSame(s, s');
  }

  lemma DeliversSame(s: State, s': State)
    requires Delivers(s)
    requires s'.rx.done == s.rx.done && s'.incoming == s.incoming && s'.arrived == s.arrived
    requires s'.attempts == s.attempts && s'.delivered == s.delivered
    ensures Delivers(s')
  {
  }

  /** The buffer of a receive lies inside its descriptor, so storing the frame spares the rings. */
  lemma StoreOffRings(s: State, d: Desc, p: seq<byte>)
    requires OffRings(s, Region(d.addr, d.len)) && |p| + HDR_LEN <= d.len
    ensures SameRings(s, Store(s.mem, d.addr, Zeros(HDR_LEN) + p))
  {
    var data := Zeros(HDR_LEN) + p;
    assert |data| == |p| + HDR_LEN;
    StoreFrame(s.mem, d.addr, data, AvailRegion(s.rx.q.geo));
    StoreFrame(s.mem, d.addr, data, UsedRegion(s.rx.q.geo));
    StoreFrame(s.mem, d.addr, data, AvailRegion(s.tx.q.geo));
    StoreFrame(s.mem, d.addr, data, UsedRegion(s.tx.q.geo));
  }

  lemma KeptOne(attempts: seq<Attempt>, a: Attempt)
    ensures Taken(attempts + [a]) == Taken(attempts) + [a.frame]
    ensures Kept(attempts + [a]) == Kept(attempts) + if a.kept then [Cut(a.frame)] else []
  {
    assert (attempts + [a])[..|attempts|] == attempts;
  }

  lemma InvReceiveKept(s: State, s': State)
    requires Inv(s) && NextBy(s, s', Receive)
    requires RxOne(s.rx.q, s.mem, s.incoming).irq
    ensures Inv(s')
  {
    hide Channel, AddUsed, ReadDesc, NextHead, Placed, Store, Fits, Delivers;
    NextIsOldest(s.rx, s.mem);
    var d, p := RxTarget(s.rx.q, s.mem).value, Cut(s.incoming[0]);
    var m1 := Store(s.mem, d.addr, Zeros(HDR_LEN) + p);
    FitsSize(s.mem, d, p);
    StoreOffRings(s, d, p);
    ChannelElsewhere(s.rx, s.mem, m1);
    ChannelElsewhere(s.tx, s.mem, m1);
    ChannelCompletes(s.rx, m1, |p| + HDR_LEN);
    var head := s.rx.published[|s.rx.done|];
    var u := AddUsed(s.rx.q, m1, head, |p| + HDR_LEN);
    AddUsedSpares(s.rx.q, m1, head, |p| + HDR_LEN, AvailRegion(s.tx.q.geo));
    AddUsedSpares(s.rx.q, m1, head, |p| + HDR_LEN, UsedRegion(s.tx.q.geo));
    ChannelElsewhere(s.tx, m1, u.mem);
    DeliversKept(s, s', head);
  }

  lemma FitsSize(m: seq<byte>, d: Desc, p: seq<byte>)
    requires Fits(m, d, p)
    ensures |p| + HDR_LEN <= d.len && d.addr + HDR_LEN + |p| <= |m|
  {
  }

  lemma DeliversKept(s: State, s': State, head: u16)
    requires Delivers(s) && s.incoming != []
    requires var p := Cut(s.incoming[0]);
             && s'.rx.done == s.rx.done + [Element(head, |p| + HDR_LEN)] && s'.delivered == s.delivered + [p]
    requires s'.incoming == s.incoming[1..] && s'.arrived == s.arrived
    requires s'.attempts == s.attempts + [Attempt(s.incoming[0], true)]
    ensures Delivers(s')
  {
    KeptOne(s.attempts, Attempt(s.incoming[0], true));
    assert s.incoming == [s.incoming[0]] + s.incoming[1..];
  }

  lemma InvReceiveNothing(s: State, s': State)
    requires Inv(s) && NextBy(s, s', Receive)
    requires !RxOne(s.rx.q, s.mem, s.incoming).irq
    ensures Inv(s')
  {
    hide Channel, AddUsed, ReadDesc, NextHead, Placed, Store, Cut, Zeros, Delivers;
    if |s'.incoming| < |s.incoming| {
      DeliversDropped(s, s');
    } else {
      DeliversSame(s, s');
    }
  }

  lemma DeliversDropped(s: State, s': State)
    requires Delivers(s) && s.incoming != []
    requires s'.rx.done == s.rx.done && s'.delivered == s.delivered
    requires s'.incoming == s.incoming[1..] && s'.arrived == s.arrived
    requires s'.attempts == s.attempts + [Attempt(s.incoming[0], false)]
    ensures Delivers(s')
  {
    hide Taken, Kept;
    KeptOne(s.attempts, Attempt(s.incoming[0], false));
    assert s.incoming == [s.incoming[0]] + s.incoming[1..];
  }

  lemma InvFill(s: State, s': State, side: Side, head: u16)
    requires Inv(s) && NextBy(s, s', FillSlot(side, head))
    ensures Inv(s')
  {
    hide Channel, Placed, Fill, Delivers;
    match side
    case RX =>
      ChannelFills(s.rx, s.mem, head);
      ChannelElsewhere(s.tx, s.mem, s'.mem);
      DeliversSame(s, s');
    case TX =>
      ChannelFills(s.tx, s.mem, head);
      ChannelElsewhere(s.rx, s.mem, s'.mem);
      DeliversSame(s, s');
  }

  lemma InvAdvance(s: State, s': State, side: Side)
    requires Inv(s) && NextBy(s, s', AdvanceIndex(side))
    ensures Inv(s')
  {
    hide Channel, Placed, Advance, Delivers;
    match side
    case RX =>
      ChannelAdvances(s.rx, s.mem);
      ChannelElsewhere(s.tx, s.mem, s'.mem);
      DeliversSame(s, s');
    case TX =>
      ChannelAdvances(s.tx, s.mem);
      ChannelElsewhere(s.rx, s.mem, s'.mem);
      DeliversSame(s, s');
  }

  lemma InvCollect(s: State, s': State, side: Side)
    requires Inv(s) && NextBy(s, s', Collect(side))
    ensures Inv(s')
  {
    hide Channel, Placed, UsedIdx, ElementIn, Delivers;
    match side
    case RX =>
      ChannelCollects(s.rx, s.mem);
      DeliversSame(s, s');
    case TX =>
      ChannelCollects(s.tx, s.mem);
      DeliversSame(s, s');
  }

  lemma InvScribble(s: State, s': State, mem: seq<byte>)
    requires Inv(s) && NextBy(s, s', Scribble(mem))
    ensures Inv(s')
  {
    hide Channel, Placed, Delivers;
    ChannelElsewhere(s.rx, s.mem, mem);
    ChannelElsewhere(s.tx, s.mem, mem);
    DeliversSame(s, s');
  }

  lemma InvArrive(s: State, s': State, frame: seq<byte>)
    requires Inv(s) && NextBy(s, s', Arrive(frame))
    ensures Inv(s')
  {
    hide Channel, Placed, Taken, Kept;
    assert Taken(s.attempts) + (s.incoming + [frame]) == s.arrived + [frame];
  }

  lemma InvNext(s: State, s': State)
    requires Inv(s) && Next(s, s')
    ensures Inv(s')
  {
    hide NextBy, Channel, Delivers, Received;
    var step :| NextBy(s, s', step);
    match step
    case Receive =>
      if RxOne(s.rx.q, s.mem, s.incoming).irq {
        InvReceiveKept(s, s');
      } else {
        InvReceiveNothing(s, s');
      }
    case Transmit => InvTransmit(s, s');
    case FillSlot(side, head) => InvFill(s, s', side, head);
    case AdvanceIndex(side) => InvAdvance(s, s', side);
    case Collect(side) => InvCollect(s, s', side);
    case Scribble(mem) => InvScribble(s, s', mem);
    case Arrive(frame) => InvArrive(s, s', frame);
  }

  // ---- Whole runs ----

  ghost predicate Run(run: seq<State>) {
    && |run| > 0 && Init(run[0])
    && forall i :: 0 <= i < |run| - 1 ==> Next(run[i], run[i + 1])
  }

  lemma {:induction false} InvRun(run: seq<State>, i: nat)
    requires Run(run) && i < |run|
    ensures Inv(run[i])
  {
    hide Inv, Next, Init, SetUp;
    if i == 0 {
      InvInit(run[0]);
    } else {
      InvRun(run, i - 1);
      assert Next(run[i - 1], run[i - 1 + 1]);
      InvNext(run[i - 1], run[i]);
    }
  }

  /** In every state of every run, on both queues: the used index in memory is the one cursor the
      device keeps; the element of the k-th completed buffer, until collected, sits at the ring
      position of its available entry and names that entry's head; and what the driver collected
      is the completions, in order. */
  lemma OneCursorServesBothRings(run: seq<State>, i: nat, side: Side)
    requires Run(run) && i < |run|
    ensures var m := run[i].mem;
            var e := if side == RX then run[i].rx else run[i].tx;
            && Placed(e.q.geo, |m|)
            && UsedIdx(e.q.geo, m) == e.q.last == Wrap(|e.done|)
            && |e.done| <= |e.published|
            && (forall k :: 0 <= k < |e.done| ==> e.done[k].id == e.published[k])
            && (forall k :: |e.collected| <= k < |e.done| ==> ElementIn(e.q.geo, m, k) == e.done[k])
            && (forall k :: |e.done| <= k < |e.published| ==> HeadIn(e.q.geo, m, k) == e.published[k])
            && e.collected <= e.done
  {
    InvRun(run, i);
  }

  /** Delivery over every run: frames are taken from the TAP in the order they arrived; those
      delivered are exactly the taken ones their buffer could hold, in that order; and receive
      completion `k` carries the length of delivered frame `k` with its header. Transmit
      completions carry length 0. */
  lemma DeliveryInOrder(run: seq<State>, i: nat)
    requires Run(run) && i < |run|
    ensures var s := run[i];
            && s.arrived == Taken(s.attempts) + s.incoming
            && s.delivered == Kept(s.attempts)
            && |s.rx.done| == |s.delivered|
            && (forall k :: 0 <= k < |s.delivered| ==> s.rx.done[k].len == |s.delivered[k]| + HDR_LEN)
            && (forall k :: 0 <= k < |s.tx.done| ==> s.tx.done[k].len == 0)
  {
    InvRun(run, i);
  }

  /** The descriptor of the oldest posted buffer, if there is one and it is inside memory. */
  function Posted(s: State): Option<Desc> {
    if |s.rx.done| < |s.rx.published| then ReadDesc(s.mem, s.rx.q.geo.desc, s.rx.published[|s.rx.done|]) else None
  }

  /** From `s` to `s'` the first waiting frame was taken for the buffer of `d`, posted as `head`. A
      frame of at most 1514 bytes is taken whole, a longer one as its first 1514. It is kept if it
      is not empty and fits, behind 12 bytes of header, into the buffer and into memory. If it
      is not, memory and queue stay as they were; if it is, the header is zero, the frame follows,
      the next used element names that head and counts both, and no other byte changes. */
  ghost predicate Took(s: State, s': State, head: u16, d: Desc)
    requires s.incoming != [] && Placed(s.rx.q.geo, |s.mem|) && |s'.mem| == |s.mem|
  {
    var g, f := s.rx.q.geo, s.incoming[0];
    var p := if |f| <= 1514 then f else f[..1514];
    var n := 12 + |p|;
    && s'.incoming == s.incoming[1..]
    && if p == [] || n > d.len || d.addr + n > |s.mem| then
         s'.mem == s.mem && s'.rx == s.rx && s'.delivered == s.delivered
       else
         && s'.mem[d.addr..d.addr + 12] == Zeros(12)
         && s'.mem[d.addr + 12..d.addr + n] == p
         && s'.rx.done == s.rx.done + [Element(head, n)] && s'.delivered == s.delivered + [p]
         && ElementIn(g, s'.mem, |s.rx.done|) == Element(head, n)
         && UsedIdx(g, s'.mem) == Wrap(|s.rx.done| + 1)
         && forall q :: 0 <= q < |s.mem| && !Region(d.addr, n).Has(q) && !UsedRegion(g).Has(q) ==> s'.mem[q] == s.mem[q]
  }

  /** What a receive does, from the logs: with no posted buffer, an unreadable descriptor or an empty
      TAP, nothing; otherwise it takes one frame for the oldest posted buffer, and asks for the
      interrupt exactly when it delivers it. */
  lemma ReceiveWrites(s: State)
    requires Inv(s)
    requires Posted(s).Some? ==> OffRings(s, Region(Posted(s).value.addr, Posted(s).value.len))
    ensures s.rx.q.geo.size > 0 && Placed(s.rx.q.geo, |s.mem|)
    ensures Posted(s).None? || s.incoming == [] ==> Received(s) == s
    ensures Posted(s).Some? && s.incoming != [] ==>
      |Received(s).mem| == |s.mem| && Took(s, Received(s), s.rx.published[|s.rx.done|], Posted(s).value)
    ensures RxOne(s.rx.q, s.mem, s.incoming).irq <==> Received(s).delivered != s.delivered
  {
    hide Inv, OffRings, Received, Fits, Cut, Zeros, ElementIn, UsedIdx, ReadDesc, NextHead, Wrap, RxOne;
    InvPlaced(s);
    TargetIsPosted(s);
    if Posted(s).None? || s.incoming == [] {
      ReceiveNothing(s);
    } else {
      var d, p := Posted(s).value, Cut(s.incoming[0]);
      FitsWhen(s.mem, d, p);
      CutIs(s.incoming[0]);
      if Fits(s.mem, d, p) {
        ReceiveStores(s, d, p, s.rx.published[|s.rx.done|]);
      } else {
        ReceiveDrops(s);
      }
    }
  }

  lemma CutIs(f: seq<byte>)
    ensures Cut(f) == if |f| <= 1514 then f else f[..1514]
  {
  }

  /** The buffer at the cursor is the oldest posted one. */
  lemma TargetIsPosted(s: State)
    requires Inv(s)
    ensures s.rx.q.geo.size > 0 && RxTarget(s.rx.q, s.mem) == Posted(s)
    ensures Posted(s).Some? ==> NextHead(s.rx.q, s.mem) == Some(s.rx.published[|s.rx.done|])
  {
    hide Channel, Delivers, NextHead, ReadDesc;
    NextIsOldest(s.rx, s.mem);
  }

  lemma InvPlaced(s: State)
    requires Inv(s)
    ensures s.rx.q.ready && Placed(s.rx.q.geo, |s.mem|)
    ensures UsedIdx(s.rx.q.geo, s.mem) == s.rx.q.last == Wrap(|s.rx.done|)
  {
    hide Delivers, Staged, HeadsFrom, ElementsFrom, InOrder, Wrap;
  }

  lemma FitsWhen(m: seq<byte>, d: Desc, p: seq<byte>)
    ensures Fits(m, d, p) <==> !(p == [] || 12 + |p| > d.len || d.addr + (12 + |p|) > |m|)
  {
  }

  lemma ReceiveNothing(s: State)
    requires s.rx.q.geo.size > 0
    requires RxTarget(s.rx.q, s.mem).None? || s.incoming == []
    ensures Received(s) == s && !RxOne(s.rx.q, s.mem, s.incoming).irq
  {
    hide RxTarget, Fits;
  }

  lemma ReceiveDrops(s: State)
    requires s.rx.q.geo.size > 0 && RxTarget(s.rx.q, s.mem).Some? && s.incoming != []
    requires !Fits(s.mem, RxTarget(s.rx.q, s.mem).value, Cut(s.incoming[0]))
    ensures var s' := Received(s);
            s'.incoming == s.incoming[1..] && s'.mem == s.mem && s'.rx == s.rx && s'.delivered == s.delivered
    ensures !RxOne(s.rx.q, s.mem, s.incoming).irq
  {
    hide RxTarget, Fits, Cut;
  }

  lemma ReceiveStores(s: State, d: Desc, p: seq<byte>, head: u16)
    requires Placed(s.rx.q.geo, |s.mem|) && RxTarget(s.rx.q, s.mem) == Some(d) && s.incoming != []
    requires p == Cut(s.incoming[0]) && Fits(s.mem, d, p) && OffRings(s, Region(d.addr, d.len))
    requires s.rx.q.last == Wrap(|s.rx.done|) && NextHead(s.rx.q, s.mem) == Some(head)
    ensures var s' := Received(s);
            var g, n := s.rx.q.geo, 12 + |p|;
            && s'.incoming == s.incoming[1..] && |s'.mem| == |s.mem|
            && s'.mem[d.addr..d.addr + 12] == Zeros(12)
            && s'.mem[d.addr + 12..d.addr + n] == p
            && s'.rx.done == s.rx.done + [Element(head, n)] && s'.delivered == s.delivered + [p]
            && ElementIn(g, s'.mem, |s.rx.done|) == Element(head, n)
            && UsedIdx(g, s'.mem) == Wrap(|s.rx.done| + 1)
            && forall q :: 0 <= q < |s.mem| && !Region(d.addr, n).Has(q) && !UsedRegion(g).Has(q) ==> s'.mem[q] == s.mem[q]
    ensures RxOne(s.rx.q, s.mem, s.incoming).irq
  {
    hide AddUsed, NextHead, ReadDesc, Store, Slot, Wrap, Zeros, UsedIdx, Cut, Word32;
    FrameStored(s.rx.q, s.mem, d, p, head);
    WrappedSlot(s.rx.q.geo.size, |s.rx.done|);
    WrapNext(|s.rx.done|);
  }

  /** Storing a frame and completing its buffer: the frame survives the completion. */
  lemma FrameStored(q: Queue, m: seq<byte>, d: Desc, p: seq<byte>, head: u16)
    requires Placed(q.geo, |m|) && Fits(m, d, p)
    requires Disjoint(UsedRegion(q.geo), Region(d.addr, d.len))
    ensures var n := HDR_LEN + |p|;
            var m1 := Store(m, d.addr, Zeros(HDR_LEN) + p);
            var m2 := AddUsed(q, m1, head, n).mem;
            && m2[d.addr..d.addr + HDR_LEN] == Zeros(HDR_LEN)
            && m2[d.addr + HDR_LEN..d.addr + n] == p
            && Completes(q.geo, m1, m2, q.last, Element(head, n))
            && forall k :: 0 <= k < |m| && !Region(d.addr, n).Has(k) && !UsedRegion(q.geo).Has(k) ==> m2[k] == m[k]
  {
    hide AddUsed, Completes, Zeros, Slot;
    var data := Zeros(HDR_LEN) + p;
    var m1 := Store(m, d.addr, data);
    var m2 := AddUsed(q, m1, head, |data|).mem;
    StoreLoad(m, d.addr, data);
    AddUsedCompletes(q, m1, head, |data|);
    AddUsedSpares(q, m1, head, |data|, Region(d.addr, |data|));
    SliceSame(m1, m2, d.addr, |data|);
    SliceParts(m2, d.addr, HDR_LEN, p);
    forall k | 0 <= k < |m| && !Region(d.addr, |data|).Has(k) && !UsedRegion(q.geo).Has(k)
      ensures m2[k] == m[k]
    {
      AddUsedConfined(q, m1, head, |data|, k);
    }
  }

  lemma SliceParts(m: seq<byte>, off: nat, n: nat, p: seq<byte>)
    requires off + n + |p| <= |m| && m[off..off + (n + |p|)] == Zeros(n) + p
    ensures m[off..off + n] == Zeros(n) && m[off + n..off + n + |p|] == p
  {
    var s := m[off..off + (n + |p|)];
    assert s[..n] == Zeros(n) && s[n..] == p;
    assert m[off..off + n] == s[..n] && m[off + n..off + n + |p|] == s[n..];
  }

  /** From any reachable state, the transmit loop ends and has exactly the published and not yet
      completed heads pending, if the driver keeps their descriptors and buffers off the used
      ring: so it offers their frames in the order of publication. */
  lemma ReachableTransmitsPublished(run: seq<State>, i: nat)
    requires Run(run) && i < |run|
    requires var e := run[i].tx; forall k :: |e.done| <= k < |e.published| ==> Clear(e.q, run[i].mem, e.published[k])
    ensures |run[i].tx.done| <= |run[i].tx.published|
    ensures var s := run[i];
            var pending, t := s.tx.published[|s.tx.done|..], Tx(s.tx.q, s.mem, s.offered);
            && Separate(s.tx.q) && Ends(t)
            && TxDrain(t).Some? && Offers(t, TxDrain(t).value, pending)
  {
    hide Inv, Clear, Offers, TxDrain, Ends, SlotsIn, Readable;
    InvRun(run, i);
    var s := run[i];
    InvTx(s);
    ChannelCount(s.tx, s.mem);
    var t, pending := Tx(s.tx.q, s.mem, s.offered), s.tx.published[|s.tx.done|..];
    ChannelPending(s.tx, s.mem);
    ChannelPlaced(s.tx, s.mem);
    WholeRingIn(s.tx.q.geo, s.tx.q.last, Readable(s.mem, s.tx.q.geo.desc, pending), |s.mem|);
    DrainOffersFrames(t, pending);
    EndsIffDrain(t);
  }

  lemma InvTx(s: State)
    requires Inv(s)
    ensures Channel(s.tx, s.mem)
  {
  }

  lemma ChannelPending(e: Endpoints, m: seq<byte>)
    requires Channel(e, m)
    requires forall k :: |e.done| <= k < |e.published| ==> Clear(e.q, m, e.published[k])
    ensures Pending(e.q, m, e.published[|e.done|..])
  {
    hide Slot, Clear, HeadsFrom, ElementsFrom, Wrap, WholeTurns16;
    var heads := e.published[|e.done|..];
    forall k | 0 <= k < |heads|
      ensures Word16(m, AvailSlot(e.q.geo, Wrap(e.q.last + k))) == heads[k]
    {
      PendingAt(e.q.geo, m, e.q.last, e.published, e.done, |e.collected|, k);
    }
    WrapSum(|e.done|, |heads|);
  }
}
