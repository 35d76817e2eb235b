/** The block queue over whole runs: a driver publishes and collects while any number of vCPU
    threads notify the device, each draining under the guest-memory lock.

    The state is the guest memory itself, the device cursor, the lock and the program counters
    of the threads, beside three logs. The logs only record what happened: no step looks at
    them except the driver, which keeps at most `size` requests outstanding. The guest does not
    take the lock: its stores come between any two steps of a drain. */
module BlockProtocol {
  import opened Bytes
  import opened Ring
  import opened BlockQueue
  import opened BlockFootprint

  /** How far a turn of the drain loop is: at its top, a head read, its chain answered, or its
      element stored at the used index the turn read. */
  datatype Turn = Top | Fetched(head: u16) | Answered(e: Element) | Stored(e: Element, idx: u16)

  /** Where a vCPU thread is in its notify: outside, holding the guest-memory lock, or draining
      towards the available index `snap` it read; `goal` logs how many heads that index counted. */
  datatype Pc = Idle | Locked | Draining(snap: u16, goal: nat, turn: Turn)

  /** `staged` is the head the driver has put in a slot and not yet counted. */
  datatype State = State(dev: Device, staged: Option<u16>, lock: Option<nat>, threads: seq<Pc>, cursor: u16,
                         published: seq<u16>, done: seq<Element>, collected: seq<Element>)

  datatype Step =
    | FillSlot(head: u16)
    | AdvanceIndex
    | Collect
    | Scribble(mem: seq<byte>)
    | Acquire(t: nat)
    | Snapshot(t: nat)
    | Fetch(t: nat)
    | AnswerChain(t: nat)
    | StoreElement(t: nat)
    | StoreIndex(t: nat)
    | Release(t: nat)

  /** The driver's duty towards a chain it published: the walk ends, and what it asks to be
      written stays off the two rings. */
  ghost predicate Sound(g: Geometry, m: seq<byte>, head: u16) {
    && Chain(m, g.desc, head, {}).Some?
    && var r := Reading(m, Chain(m, g.desc, head, {}).value);
    && forall p :: Writes(r, p) ==> !AvailRegion(g).Has(p) && !UsedRegion(g).Has(p)
  }

  /** What walking and answering the chain at `head` leaves. */
  function Answering(g: Geometry, b: Device, head: u16): (o: Outcome)
    requires Chain(b.mem, g.desc, head, {}).Some?
    ensures |o.mem| == |b.mem|
  {
    Answer(b.mem, b.disk, Reading(b.mem, Chain(b.mem, g.desc, head, {}).value))
  }

  /** The element the device publishes for `head`. */
  function Completion(g: Geometry, b: Device, head: u16): Element
    requires Chain(b.mem, g.desc, head, {}).Some?
  {
    Element(head, Answering(g, b, head).written)
  }

  ghost predicate Init(g: Geometry, s: State) {
    && Placed(g, |s.dev.mem|)
    && AvailIdx(g, s.dev.mem) == 0 && UsedIdx(g, s.dev.mem) == 0
    && s.dev.last == 0 && s.cursor == 0 && s.lock.None? && s.staged.None?
    && (forall t :: 0 <= t < |s.threads| ==> s.threads[t] == Idle)
    && s.published == [] && s.done == [] && s.collected == []
  }

  /** Thread `t` is draining and its turn is at `turn`. */
  predicate At(s: State, t: nat, turn: Turn) {
    t < |s.threads| && s.threads[t].Draining? && s.threads[t].turn == turn
  }

  function Moved(s: State, t: nat, turn: Turn): State
    requires t < |s.threads| && s.threads[t].Draining?
  {
    s.(threads := s.threads[t := s.threads[t].(turn := turn)])
  }

  ghost predicate NextBy(g: Geometry, s: State, s': State, step: Step)
    requires Placed(g, |s.dev.mem|)
  {
    var m := s.dev.mem;
    match step
    // The driver fills a slot it is entitled to, and later advances the available index.
    case FillSlot(head) =>
      && s.staged.None? && |s.published| < |s.collected| + g.size
      && s' == s.(dev := s.dev.(mem := Fill(g, m, head)), staged := Some(head))
    case AdvanceIndex =>
      && s.staged.Some?
      && s' == s.(dev := s.dev.(mem := Advance(g, m)), staged := None, published := s.published + [s.staged.value])
    // The driver finds the used index ahead of its cursor and takes the element there.
    case Collect =>
      && s.cursor != UsedIdx(g, m)
      && s' == s.(cursor := Wrap(s.cursor + 1), collected := s.collected + [ElementIn(g, m, s.cursor)])
    // The guest writes anything anywhere but in the rings.
    case Scribble(mem) =>
      && |mem| == |m| && Unchanged(m, mem, AvailRegion(g)) && Unchanged(m, mem, UsedRegion(g))
      && s' == s.(dev := s.dev.(mem := mem))
    case Acquire(t) =>
      && t < |s.threads| && s.threads[t] == Idle && s.lock.None?
      && s' == s.(lock := Some(t), threads := s.threads[t := Locked])
    case Snapshot(t) =>
      && t < |s.threads| && s.threads[t] == Locked
      && s' == s.(threads := s.threads[t := Draining(AvailIdx(g, m), |s.published|, Top)])
    // A turn of the drain: the head, its chain, the used element, the used index.
    case Fetch(t) =>
      && At(s, t, Top) && s.dev.last != s.threads[t].snap && HeadAt(g, m, s.dev.last).Some?
      && s' == Moved(s, t, Fetched(HeadAt(g, m, s.dev.last).value))
    case AnswerChain(t) =>
      && t < |s.threads| && s.threads[t].Draining? && s.threads[t].turn.Fetched?
      && var head := s.threads[t].turn.head;
      && Sound(g, m, head)
      && var o := Answering(g, s.dev, head);
      && s' == Moved(s, t, Answered(Completion(g, s.dev, head))).(dev := Device(o.mem, o.disk, s.dev.last))
    case StoreElement(t) =>
      && t < |s.threads| && s.threads[t].Draining? && s.threads[t].turn.Answered?
      && var e := s.threads[t].turn.e;
      && s' == Moved(s, t, Stored(e, NextUsed(g, m))).(dev := s.dev.(mem := PutElement(g, m, NextUsed(g, m), e)))
    case StoreIndex(t) =>
      && t < |s.threads| && s.threads[t].Draining? && s.threads[t].turn.Stored?
      && var Stored(e, idx) := s.threads[t].turn;
      && s' == Moved(s, t, Top).(dev := Device(PutIndex(g, m, idx), s.dev.disk, Wrap(s.dev.last + 1)), done := s.done + [e])
    case Release(t) =>
      && At(s, t, Top) && s.dev.last == s.threads[t].snap
      && s' == s.(lock := None, threads := s.threads[t := Idle])
  }

  ghost predicate Next(g: Geometry, s: State, s': State) {
    Placed(g, |s.dev.mem|) && exists step :: NextBy(g, s, s', step)
  }

  // ---- The invariant ----

  /** Only the holder of the lock is inside a notify. */
  ghost predicate Exclusive(s: State) {
    && (s.lock.Some? ==> s.lock.value < |s.threads|)
    && forall t :: 0 <= t < |s.threads| ==> (s.threads[t] == Idle <==> s.lock != Some(t))
  }

  /** A snapshot is never behind the cursor: what it counted was published, and at least what
      has been completed was counted, the request of a turn under way included. */
  ghost predicate Fresh(s: State, pc: Pc) {
    pc.Draining? ==>
      && pc.snap == Wrap(pc.goal)
      && |s.done| <= pc.goal <= |s.published|
      && (pc.turn != Top ==> |s.done| < pc.goal)
  }

  /** A turn under way is about the oldest pending head; its element, once stored, is in the next
      used slot. */
  ghost predicate OnTurn(g: Geometry, s: State, pc: Pc)
    requires Placed(g, |s.dev.mem|)
  {
    pc.Draining? && pc.turn != Top && |s.done| < |s.published| ==>
      match pc.turn
      case Top => true
      case Fetched(head) => head == s.published[|s.done|]
      case Answered(e) => e.id == s.published[|s.done|]
      case Stored(e, idx) =>
        e.id == s.published[|s.done|] && idx == s.dev.last && ElementIn(g, s.dev.mem, |s.done|) == e
  }

  ghost predicate Inv(g: Geometry, s: State) {
    && Holds(g, s.dev.mem, s.dev.last, s.published, s.done, |s.collected|)
    && Staged(g, s.dev.mem, s.published, |s.collected|, s.staged)
    && s.cursor == Wrap(|s.collected|)
    && s.collected == s.done[..|s.collected|]
    && Exclusive(s)
    && (forall t :: 0 <= t < |s.threads| ==> Fresh(s, s.threads[t]) && OnTurn(g, s, s.threads[t]))
  }

  lemma InvInit(g: Geometry, s: State)
    requires Init(g, s)
    ensures Inv(g, s)
  {
    HoldsAtStart(g, s.dev.mem);
  }

  lemma PendingHead(g: Geometry, m: seq<byte>, last: u16, published: seq<u16>, done: seq<Element>, taken: nat)
    requires Holds(g, m, last, published, done, taken) && |done| < |published|
    ensures Placed(g, |m|) && HeadAt(g, m, last) == Some(published[|done|])
  {
    hide Slot, Wrap, HeadsFrom, ElementsFrom, InOrder;
    OldestPending(g, m, last, published, done, taken);
    SlotInRing(g, last);
  }

  /** Answering a sound chain touches neither ring. */
  lemma AnswerOffRings(g: Geometry, b: Device, head: u16)
    requires Sound(g, b.mem, head)
    ensures Unchanged(b.mem, Answering(g, b, head).mem, AvailRegion(g))
    ensures Unchanged(b.mem, Answering(g, b, head).mem, UsedRegion(g))
  {
    hide Answer, Writes, Chain, Reading;
    var r := Reading(b.mem, Chain(b.mem, g.desc, head, {}).value);
    forall p | 0 <= p < |b.mem| && (AvailRegion(g).Has(p) || UsedRegion(g).Has(p))
      ensures Answering(g, b, head).mem[p] == b.mem[p]
    {
      AnswerConfined(b.mem, b.disk, r, p);
    }
  }

  lemma NextUsedIs(g: Geometry, m: seq<byte>)
    requires Placed(g, |m|)
    ensures NextUsed(g, m) == UsedIdx(g, m)
  {
  }

  lemma PutElementPuts(g: Geometry, m: seq<byte>, idx: u16, e: Element)
    requires Placed(g, |m|)
    ensures Puts(g, m, PutElement(g, m, idx, e), idx, e)
  {
    hide Slot, Word32, Bytes32;
    SlotInRing(g, idx);
    var at := UsedSlot(g, idx);
    var m1 := Store(m, at, Bytes32(e.id));
    var m2 := Store(m1, at + 4, Bytes32(e.len));
    StoreWord32(m, at, e.id);
    StoreWord32(m1, at + 4, e.len);
    Word32Same(m1, m2, at);
  }

  lemma PutIndexBumps(g: Geometry, m: seq<byte>, idx: u16)
    requires Placed(g, |m|)
    ensures Bumps(g, m, PutIndex(g, m, idx), idx)
  {
    hide Word16, Bytes16, Wrap;
    StoreWord16(m, g.used + 2, Wrap(idx + 1));
  }

  lemma HoldsCounts(g: Geometry, s: State)
    requires Inv(g, s)
    ensures Placed(g, |s.dev.mem|)
    ensures |s.collected| <= |s.done| <= |s.published| <= |s.collected| + g.size
    ensures s.dev.last == Wrap(|s.done|) == UsedIdx(g, s.dev.mem)
    ensures AvailIdx(g, s.dev.mem) == Wrap(|s.published|)
  {
  }

  /** A step of thread `t` leaves no other thread in a notify to speak of. */
  lemma OthersIdle(s: State, t: nat, u: nat)
    requires Exclusive(s) && t < |s.threads| && u < |s.threads| && t != u && s.threads[t] != Idle
    ensures s.threads[u] == Idle
  {
  }

  lemma InvFetch(g: Geometry, s: State, s': State, t: nat)
    requires Inv(g, s) && NextBy(g, s, s', Fetch(t))
    ensures Inv(g, s')
  {
    hide Holds, HeadAt, Staged, Wrap, ElementIn;
    HoldsCounts(g, s);
    GapCounts(|s.done|, s.threads[t].goal);
    PendingHead(g, s.dev.mem, s.dev.last, s.published, s.done, |s.collected|);
  }

  lemma InvAnswer(g: Geometry, s: State, s': State, t: nat)
    requires Inv(g, s) && NextBy(g, s, s', AnswerChain(t))
    ensures Inv(g, s')
  {
    hide Holds, Sound, Answering, Staged, Wrap, ElementIn;
    HoldsCounts(g, s);
    AnswerOffRings(g, s.dev, s.threads[t].turn.head);
    HoldsElsewhere(g, s.dev.mem, s'.dev.mem, s.dev.last, s.published, s.done, |s.collected|);
    StagedSame(g, s.dev.mem, s'.dev.mem, s.published, |s.collected|, |s.collected|, s.staged);
    forall u | 0 <= u < |s.threads| && u != t
      ensures s'.threads[u] == Idle
    {
      OthersIdle(s, t, u);
    }
  }

  lemma InvStoreElement(g: Geometry, s: State, s': State, t: nat)
    requires Inv(g, s) && NextBy(g, s, s', StoreElement(t))
    ensures Inv(g, s')
  {
    hide Holds, Puts, Staged, Wrap, PutElement, NextUsed, ElementIn;
    HoldsCounts(g, s);
    NextUsedIs(g, s.dev.mem);
    var e := s.threads[t].turn.e;
    PutElementPuts(g, s.dev.mem, s.dev.last, e);
    PutStages(g, s.dev.mem, s'.dev.mem, s.dev.last, s.published, s.done, |s.collected|, e);
    PutSpares(g, s.dev.mem, s'.dev.mem, s.dev.last, e);
    StagedSame(g, s.dev.mem, s'.dev.mem, s.published, |s.collected|, |s.collected|, s.staged);
    forall u | 0 <= u < |s.threads| && u != t
      ensures s'.threads[u] == Idle
    {
      OthersIdle(s, t, u);
    }
  }

  lemma InvStoreIndex(g: Geometry, s: State, s': State, t: nat)
    requires Inv(g, s) && NextBy(g, s, s', StoreIndex(t))
    ensures Inv(g, s')
  {
    hide Holds, Bumps, Staged, Wrap, PutIndex, ElementIn;
    HoldsCounts(g, s);
    var e := s.threads[t].turn.e;
    PutIndexBumps(g, s.dev.mem, s.dev.last);
    BumpAppends(g, s.dev.mem, s'.dev.mem, s.dev.last, s.published, s.done, |s.collected|, e);
    StagedSame(g, s.dev.mem, s'.dev.mem, s.published, |s.collected|, |s.collected|, s.staged);
    forall u | 0 <= u < |s.threads| && u != t
      ensures s'.threads[u] == Idle
    {
      OthersIdle(s, t, u);
    }
  }

  /** What the driver does to the available ring leaves a turn under way as it was. */
  lemma OnTurnSame(g: Geometry, s: State, s': State)
    requires Placed(g, |s.dev.mem|) && |s'.dev.mem| == |s.dev.mem| && s'.dev.last == s.dev.last
    requires s'.done == s.done && s.published <= s'.published && s'.threads == s.threads
    requires |s.done| <= |s.published|
    requires Unchanged(s.dev.mem, s'.dev.mem, UsedRegion(g))
    requires forall t :: 0 <= t < |s.threads| ==> Fresh(s, s.threads[t]) && OnTurn(g, s, s.threads[t])
    ensures forall t :: 0 <= t < |s'.threads| ==> Fresh(s', s'.threads[t]) && OnTurn(g, s', s'.threads[t])
  {
    hide Slot, Word32, Wrap;
    SlotInRing(g, |s.done|);
    Word32Same(s.dev.mem, s'.dev.mem, UsedSlot(g, |s.done|));
    Word32Same(s.dev.mem, s'.dev.mem, UsedSlot(g, |s.done|) + 4);
  }

  lemma InvPublish(g: Geometry, s: State, s': State, step: Step)
    requires Inv(g, s) && NextBy(g, s, s', step)
    requires step.FillSlot? || step.AdvanceIndex?
    ensures Inv(g, s')
  {
    hide Holds, Fill, Advance, OnTurn, Fresh, Staged, Wrap;
    var m, last, taken := s.dev.mem, s.dev.last, |s.collected|;
    HoldsCounts(g, s);
    match step {
      case FillSlot(head) =>
        FillStages(g, m, last, s.published, s.done, taken, head);
        FillSpares(g, m, head);
      case AdvanceIndex =>
        AdvanceAppends(g, m, last, s.published, s.done, taken, s.staged.value);
        AdvanceSpares(g, m);
        NothingStaged(g, s'.dev.mem, s'.published, taken);
    }
    OnTurnSame(g, s, s');
  }

  lemma NothingStaged(g: Geometry, m: seq<byte>, published: seq<u16>, taken: nat)
    requires Placed(g, |m|)
    ensures Staged(g, m, published, taken, None)
  {
  }

  lemma InvCollect(g: Geometry, s: State, s': State)
    requires Inv(g, s) && NextBy(g, s, s', Collect)
    ensures Inv(g, s')
  {
    hide Holds, OnTurn, Fresh, Staged, Wrap, UsedIdx, ElementIn;
    var m, taken := s.dev.mem, |s.collected|;
    HoldsCounts(g, s);
    OldestUncollected(g, m, s.dev.last, s.published, s.done, taken);
    WrapNext(taken);
    StagedSame(g, m, m, s.published, taken, taken + 1, s.staged);
    OnTurnSame(g, s, s');
  }

  lemma InvScribble(g: Geometry, s: State, s': State, mem: seq<byte>)
    requires Inv(g, s) && NextBy(g, s, s', Scribble(mem))
    ensures Inv(g, s')
  {
    hide Holds, OnTurn, Fresh, Staged, Wrap;
    HoldsCounts(g, s);
    HoldsElsewhere(g, s.dev.mem, mem, s.dev.last, s.published, s.done, |s.collected|);
    StagedSame(g, s.dev.mem, mem, s.published, |s.collected|, |s.collected|, s.staged);
    OnTurnSame(g, s, s');
  }

  lemma InvLock(g: Geometry, s: State, s': State, step: Step)
    requires Inv(g, s) && NextBy(g, s, s', step)
    requires step.Acquire? || step.Snapshot? || step.Release?
    ensures Inv(g, s')
  {
    hide Holds, Staged, Wrap, AvailIdx, ElementIn;
    HoldsCounts(g, s);
  }

  lemma InvNext(g: Geometry, s: State, s': State)
    requires Inv(g, s) && Next(g, s, s')
    ensures Inv(g, s')
  {
    hide NextBy, Holds, Staged, OnTurn, Fresh, Exclusive;
    HoldsCounts(g, s);
    var step :| NextBy(g, s, s', step);
    match step
    case FillSlot(_) => InvPublish(g, s, s', step);
    case AdvanceIndex => InvPublish(g, s, s', step);
    case Collect => InvCollect(g, s, s');
    case Scribble(mem) => InvScribble(g, s, s', mem);
    case Fetch(t) => InvFetch(g, s, s', t);
    case AnswerChain(t) => InvAnswer(g, s, s', t);
    case StoreElement(t) => InvStoreElement(g, s, s', t);
    case StoreIndex(t) => InvStoreIndex(g, s, s', t);
    case _ => InvLock(g, s, s', step);
  }

  // ---- Whole runs ----

  ghost predicate Run(g: Geometry, run: seq<State>) {
    && |run| > 0 && Init(g, run[0])
    && forall i :: 0 <= i < |run| - 1 ==> Next(g, run[i], run[i + 1])
  }

  lemma {:induction false} InvRun(g: Geometry, run: seq<State>, i: nat)
    requires Run(g, run) && i < |run|
    ensures Inv(g, run[i])
  {
    hide Inv, Next, Init;
    if i == 0 {
      InvInit(g, run[0]);
    } else {
      InvRun(g, run, i - 1);
      assert Next(g, run[i - 1], run[i - 1 + 1]);
      InvNext(g, run[i - 1], run[i]);
    }
  }

  /** First in, first out, exactly once, at every point of every run and across every wrap of the
      16-bit indices: what the driver collects from memory is, in order and without gaps or
      repetitions, what the device completed, and that is what was published; everything
      completed and not yet collected is still in its used slot, everything published and not
      yet completed in its available slot. */
  lemma ExactlyOnce(g: Geometry, run: seq<State>, i: nat)
    requires Run(g, run) && i < |run|
    ensures var s := run[i];
            && s.collected <= s.done
            && |s.done| <= |s.published|
            && (forall k :: 0 <= k < |s.done| ==> s.done[k].id == s.published[k])
            && Placed(g, |s.dev.mem|)
            && (forall k :: |s.collected| <= k < |s.done| ==> ElementIn(g, s.dev.mem, k) == s.done[k])
            && (forall k :: |s.done| <= k < |s.published| ==> HeadIn(g, s.dev.mem, k) == s.published[k])
  {
    hide Exclusive, OnTurn, Fresh, Staged;
    InvRun(g, run, i);
  }

  /** The 16-bit cursors are the unbounded counters modulo 65536, so the device cursor never
      overtakes the available index: their distance is exactly what is pending. */
  lemma NeverOvertakes(g: Geometry, run: seq<State>, i: nat)
    requires Run(g, run) && i < |run|
    ensures var s := run[i];
            && Placed(g, |s.dev.mem|)
            && s.dev.last == Wrap(|s.done|) == UsedIdx(g, s.dev.mem)
            && AvailIdx(g, s.dev.mem) == Wrap(|s.published|)
            && Gap(s.dev.last, AvailIdx(g, s.dev.mem)) == |s.published| - |s.done| <= g.size
  {
    hide Exclusive, OnTurn, Fresh, Staged, HeadsFrom, ElementsFrom, InOrder;
    InvRun(g, run, i);
    var s := run[i];
    OldestPending(g, s.dev.mem, s.dev.last, s.published, s.done, |s.collected|);
  }

  /** A thread that is draining has exactly the distance to its snapshot left to serve, every
      turn of it finds the oldest pending head, and when it can let go of the lock everything
      published before it read the index has been completed. */
  lemma NotifyCompletes(g: Geometry, run: seq<State>, i: nat, t: nat)
    requires Run(g, run) && i < |run| && t < |run[i].threads| && run[i].threads[t].Draining?
    ensures var s := run[i];
            var pc := s.threads[t];
            && g.size > 0 && Gap(s.dev.last, pc.snap) == pc.goal - |s.done|
            && (s.dev.last != pc.snap ==>
                  |s.done| < |s.published| && HeadAt(g, s.dev.mem, s.dev.last) == Some(s.published[|s.done|]))
            && (s.dev.last == pc.snap <==> |s.done| == pc.goal)
            && (s.dev.last == pc.snap ==> pc.turn == Top)
            && (pc.turn.Fetched? ==> pc.turn.head == s.published[|s.done|])
  {
    hide Exclusive, Staged, Holds, Wrap, Gap, HeadAt;
    InvRun(g, run, i);
    var s := run[i];
    HoldsCounts(g, s);
    assert Fresh(s, s.threads[t]) && OnTurn(g, s, s.threads[t]);
    GapCounts(|s.done|, s.threads[t].goal);
    if s.dev.last != s.threads[t].snap {
      PendingHead(g, s.dev.mem, s.dev.last, s.published, s.done, |s.collected|);
    }
  }

  // ---- A turn, a drain, without interruption ----

  /** The steps of a turn with nothing between them are one turn of the drain loop. */
  lemma TurnIsServe(g: Geometry, s: State, s1: State, s2: State, s3: State, s4: State, t: nat)
    requires Placed(g, |s.dev.mem|) && |s1.dev.mem| == |s2.dev.mem| == |s3.dev.mem| == |s.dev.mem|
    requires NextBy(g, s, s1, Fetch(t)) && NextBy(g, s1, s2, AnswerChain(t))
    requires NextBy(g, s2, s3, StoreElement(t)) && NextBy(g, s3, s4, StoreIndex(t))
    ensures HeadAt(g, s.dev.mem, s.dev.last).Some?
    ensures var head := HeadAt(g, s.dev.mem, s.dev.last).value;
            && Chain(s.dev.mem, g.desc, head, {}).Some?
            && s4 == s.(dev := Serve(g, s.dev, head, Chain(s.dev.mem, g.desc, head, {}).value),
                        done := s.done + [Completion(g, s.dev, head)])
  {
    hide HeadAt, Chain, Reading, Answer, PutElement, PutIndex, NextUsed, Wrap, AvailIdx, UsedIdx;
  }

  /** Serving the oldest pending head, if its chain is sound, completes exactly that head. */
  lemma ServeAppends(g: Geometry, b: Device, published: seq<u16>, done: seq<Element>, taken: nat)
    requires Holds(g, b.mem, b.last, published, done, taken) && |done| < |published|
    requires Sound(g, b.mem, published[|done|])
    ensures HeadAt(g, b.mem, b.last) == Some(published[|done|])
    ensures Chain(b.mem, g.desc, published[|done|], {}).Some?
    ensures var head := published[|done|];
            var b' := Serve(g, b, head, Chain(b.mem, g.desc, head, {}).value);
            Holds(g, b'.mem, b'.last, published, done + [Completion(g, b, head)], taken)
  {
    hide Chain, Reading, Answer, PutElement, PutIndex, NextUsed, Holds, Writes, Puts, Bumps, HeadAt, ElementIn, Wrap;
    var head := published[|done|];
    PendingHead(g, b.mem, b.last, published, done, taken);
    AnswerOffRings(g, b, head);
    var m, e := Answering(g, b, head).mem, Completion(g, b, head);
    HoldsElsewhere(g, b.mem, m, b.last, published, done, taken);
    HoldsCursor(g, m, b.last, published, done, taken);
    var m1 := PutElement(g, m, b.last, e);
    PutElementPuts(g, m, b.last, e);
    PutStages(g, m, m1, b.last, published, done, taken, e);
    PutIndexBumps(g, m1, b.last);
    BumpAppends(g, m1, PutIndex(g, m1, b.last), b.last, published, done, taken, e);
  }

  lemma HoldsCursor(g: Geometry, m: seq<byte>, last: u16, published: seq<u16>, done: seq<Element>, taken: nat)
    requires Holds(g, m, last, published, done, taken)
    ensures Placed(g, |m|) && last == Wrap(|done|) == NextUsed(g, m)
    ensures taken <= |done| <= |published| <= taken + g.size < taken + 0x1_0000
  {
    hide HeadsFrom, ElementsFrom, Wrap;
    NextUsedIs(g, m);
  }

  /** Every chain the drain comes to is sound. */
  ghost predicate AllSound(g: Geometry, b: Device, target: u16)
    requires g.size > 0
    decreases Gap(b.last, target)
  {
    if b.last == target || HeadAt(g, b.mem, b.last).None? then true
    else
      var head := HeadAt(g, b.mem, b.last).value;
      && Sound(g, b.mem, head)
      && var ds := Chain(b.mem, g.desc, head, {}).value;
      ServeCloser(g, b, head, ds, target);
      AllSound(g, Serve(g, b, head, ds), target)
  }

  /** The drain a notify performs, taken as a whole: from a channel and the available index it
      read, the drain ends, and has completed exactly the heads up to that index, in order, each
      once, keeping the channel. (`BlockService.BatchAllSound` derives the last condition from
      what the pending requests are when the drain starts.) */
  lemma {:induction false} DrainCompletes(g: Geometry, b: Device, published: seq<u16>, done: seq<Element>,
                                          taken: nat, goal: nat) returns (done': seq<Element>)
    requires Holds(g, b.mem, b.last, published, done, taken) && |done| <= goal <= |published|
    requires AllSound(g, b, Wrap(goal))
    ensures Drain(g, b, Wrap(goal)).Some?
    ensures var b' := Drain(g, b, Wrap(goal)).value;
            Holds(g, b'.mem, b'.last, published, done', taken)
    ensures done <= done' && |done'| == goal
    decreases goal - |done|
  {
    hide Holds, Serve, Chain, Sound, Completion, HeadAt, Wrap, Gap;
    HoldsCursor(g, b.mem, b.last, published, done, taken);
    GapCounts(|done|, goal);
    done' := done;
    if |done| < goal {
      PendingHead(g, b.mem, b.last, published, done, taken);
      ServeAppends(g, b, published, done, taken);
      var head := published[|done|];
      var b1 := Serve(g, b, head, Chain(b.mem, g.desc, head, {}).value);
      done' := DrainCompletes(g, b1, published, done + [Completion(g, b, head)], taken, goal);
    }
  }

  // ---- Why the index is read under the lock ----

  lemma RingInMemory(g: Geometry, m: seq<byte>, at: u16)
    requires Placed(g, |m|)
    ensures HeadAt(g, m, at).Some?
  {
    hide Slot;
    SlotInRing(g, at);
  }

  /** With the rings in memory, a drain that ends has answered one chain for every count between
      cursor and target. */
  lemma {:induction false} WalkedLength(g: Geometry, b: Device, target: u16)
    requires Placed(g, |b.mem|) && Drain(g, b, target).Some?
    ensures |Walked(g, b, target)| == Gap(b.last, target)
    decreases Gap(b.last, target)
  {
    hide Serve, Chain, HeadAt, Gap, Reading, Wrap;
    RingInMemory(g, b.mem, b.last);
    if b.last != target {
      var head := HeadAt(g, b.mem, b.last).value;
      var ds := Chain(b.mem, g.desc, head, {}).value;
      ServeCloser(g, b, head, ds, target);
      WalkedLength(g, Serve(g, b, head, ds), target);
    }
  }

  /** A drain towards an available index read before another thread moved the cursor past it does
      not stop at what is pending: if it ends at all, it has gone all the way round the 16-bit
      range and answered `65536 - n` chains, `n` being how far the index was behind. */
  lemma StaleSnapshotRunsAway(g: Geometry, b: Device, published: seq<u16>, done: seq<Element>, taken: nat, behind: nat)
    requires Holds(g, b.mem, b.last, published, done, taken)
    requires behind < |done| < behind + 0x1_0000
    requires Drain(g, b, Wrap(behind)).Some?
    ensures g.size > 0 && |Walked(g, b, Wrap(behind))| == 0x1_0000 - (|done| - behind)
    ensures |published| < behind + 0x1_0000 ==> |Walked(g, b, Wrap(behind))| > |published| - |done|
  {
    hide Holds, Drain, Walked, Gap, Wrap;
    HoldsCursor(g, b.mem, b.last, published, done, taken);
    WalkedLength(g, b, Wrap(behind));
    GapBehind(|done|, behind);
  }

  lemma GapBehind(ahead: nat, behind: nat)
    requires behind < ahead < behind + 0x1_0000
    ensures Gap(Wrap(ahead), Wrap(behind)) == 0x1_0000 - (ahead - behind)
  {
  }
}
