/** What the network device's queue engine does, as functions of guest memory and a queue. The
    engine reads the available index afresh each time and keeps one cursor for both rings. */
module NetQueue {
  import opened Bytes
  import opened Ring

  datatype Queue = Queue(geo: Geometry, ready: bool, last: u16)

  const FRESH := Queue(Geometry(0, 0, 0, 0), false, 0)

  /** The VirtIO network header that precedes every packet. */
  const HDR_LEN: nat := 12

  /** The largest frame a read from the TAP returns. */
  const MAX_FRAME: nat := 1514

  function AvailableIdx(q: Queue, m: seq<byte>): u16 {
    if q.geo.avail + 4 > |m| then 0 else Word16(m, q.geo.avail + 2)
  }

  function NextHead(q: Queue, m: seq<byte>): Option<u16>
    requires q.geo.size > 0
  {
    var off := AvailSlot(q.geo, q.last);
    if q.last == AvailableIdx(q, m) || off + 2 > |m| then None else Some(Word16(m, off))
  }

  datatype Ringed = Ringed(q: Queue, mem: seq<byte>)

  /** Completes the buffer at the cursor. A slot outside memory is given up, cursor and all. */
  function AddUsed(q: Queue, m: seq<byte>, head: u16, len: u32): (r: Ringed)
    requires q.geo.size > 0
    ensures |r.mem| == |m| && r.q.geo == q.geo && r.q.ready == q.ready
  {
    var at := UsedSlot(q.geo, q.last);
    if at + 8 > |m| then Ringed(q, m)
    else
      var next := Wrap(q.last + 1);
      var m1 := Store(m, at, Bytes32(head) + Bytes32(len));
      Ringed(q.(last := next), Store(m1, q.geo.used + 2, Bytes16(next)))
  }

  // ---- Transmit ----

  /** What the device offers the TAP for a descriptor: the bytes after the header. */
  function Payload(m: seq<byte>, d: Desc): Option<seq<byte>> {
    if d.len > HDR_LEN && d.addr + d.len <= |m| then Some(m[d.addr + HDR_LEN..d.addr + d.len]) else None
  }

  datatype Tx = Tx(q: Queue, mem: seq<byte>, offered: seq<seq<byte>>)

  function TxOne(s: Tx, head: u16, d: Desc): (s': Tx)
    requires s.q.geo.size > 0
    ensures |s'.mem| == |s.mem| && s'.q.geo == s.q.geo
  {
    var p := Payload(s.mem, d);
    var u := AddUsed(s.q, s.mem, head, 0);
    Tx(u.q, u.mem, if p.Some? then s.offered + [p.value] else s.offered)
  }

  /** A queue whose completions do not move its available index. */
  predicate Separate(q: Queue) {
    q.geo.size > 0 && Disjoint(AvailRegion(q.geo), UsedRegion(q.geo))
  }

  /** The used slot at the cursor is inside memory. */
  predicate SlotIn(q: Queue, memSize: nat)
    requires q.geo.size > 0
  {
    UsedSlot(q.geo, q.last) + 8 <= memSize
  }

  lemma AddUsedProgress(q: Queue, m: seq<byte>, head: u16, len: u32)
    requires Separate(q)
    ensures var r := AddUsed(q, m, head, len);
            && AvailableIdx(r.q, r.mem) == AvailableIdx(q, m)
            && if SlotIn(q, |m|) then r.q.last == Wrap(q.last + 1) else r == Ringed(q, m)
  {
    hide Slot, Bytes16, Bytes32, Wrap;
    SlotInRing(q.geo, q.last);
    var r := AddUsed(q, m, head, len);
    if q.geo.avail + 4 <= |m| {
      Word16Same(m, r.mem, q.geo.avail + 2);
    }
  }

  /** Some answer from the `from`-th on was an acceptance. */
  ghost predicate AnyAccepted(answers: seq<bool>, from: nat) {
    exists k :: from <= k < |answers| && answers[k]
  }

  lemma AcceptedStep(answers: seq<bool>, from: nat, answer: bool)
    requires from <= |answers|
    ensures AnyAccepted(answers + [answer], from) <==> AnyAccepted(answers, from) || answer
  {
    assert (answers + [answer])[|answers|] == answer;
    assert forall k :: 0 <= k < |answers| ==> (answers + [answer])[k] == answers[k];
  }

  /** There is a buffer for the transmit loop to consume. */
  predicate CanTurn(s: Tx)
    requires s.q.geo.size > 0
  {
    NextHead(s.q, s.mem).Some? && ReadDesc(s.mem, s.q.geo.desc, NextHead(s.q, s.mem).value).Some?
  }

  /** One turn of the transmit loop. */
  function Turn(s: Tx): (s': Tx)
    requires s.q.geo.size > 0 && CanTurn(s)
    ensures |s'.mem| == |s.mem| && s'.q.geo == s.q.geo
  {
    var head := NextHead(s.q, s.mem).value;
    TxOne(s, head, ReadDesc(s.mem, s.q.geo.desc, head).value)
  }

  /** The address sums for the buffer of the next turn do not wrap. */
  predicate BufferFits(s: Tx)
    requires s.q.geo.size > 0
  {
    CanTurn(s) ==>
      var d := ReadDesc(s.mem, s.q.geo.desc, NextHead(s.q, s.mem).value).value;
      NoWrap(Region(d.addr, d.len))
  }

  lemma TurnIs(s: Tx, head: u16, d: Desc)
    requires s.q.geo.size > 0
    requires NextHead(s.q, s.mem) == Some(head) && ReadDesc(s.mem, s.q.geo.desc, head) == Some(d)
    ensures CanTurn(s) && Turn(s) == TxOne(s, head, d)
    ensures BufferFits(s) ==> NoWrap(Region(d.addr, d.len))
  {
    hide TxOne;
  }

  lemma NoTurn(s: Tx)
    requires s.q.geo.size > 0
    requires var head := NextHead(s.q, s.mem); head.None? || ReadDesc(s.mem, s.q.geo.desc, head.value).None?
    ensures !CanTurn(s)
  {
  }

  /** The state after `n` turns, if the loop makes that many. */
  function Turns(s: Tx, n: nat): (r: Option<Tx>)
    requires s.q.geo.size > 0
    ensures r.Some? ==> |r.value.mem| == |s.mem| && r.value.q.geo == s.q.geo
  {
    if n == 0 then Some(s)
    else
      match Turns(s, n - 1)
      case None => None
      case Some(t) => if CanTurn(t) then Some(Turn(t)) else None
  }

  ghost predicate Ends(s: Tx)
    requires s.q.geo.size > 0
  {
    exists n: nat :: Turns(s, n).None?
  }

  /** The loop started in `s` stops in `s'`. */
  ghost predicate StopsAt(s: Tx, s': Tx)
    requires s.q.geo.size > 0
  {
    exists n: nat :: Turns(s, n) == Some(s') && s'.q.geo.size > 0 && !CanTurn(s')
  }

  lemma TxProgress(s: Tx)
    requires Separate(s.q) && CanTurn(s)
    ensures var s' := Turn(s);
            && AvailableIdx(s'.q, s'.mem) == AvailableIdx(s.q, s.mem)
            && if SlotIn(s.q, |s.mem|) then
                 && s'.q.last == Wrap(s.q.last + 1)
                 && Gap(s'.q.last, AvailableIdx(s'.q, s'.mem)) == Gap(s.q.last, AvailableIdx(s.q, s.mem)) - 1
               else s'.q == s.q && s'.mem == s.mem
  {
    hide Payload, AddUsed, ReadDesc, Slot, Wrap, Gap, AvailableIdx;
    var head := NextHead(s.q, s.mem).value;
    AddUsedProgress(s.q, s.mem, head, 0);
    GapStep(s.q.last, AvailableIdx(s.q, s.mem));
  }

  /** The transmit loop: up to the available index, or the first unreadable descriptor; `None` when
      it comes to a used slot outside memory, where it repeats one turn for ever. */
  function TxDrain(s: Tx): (r: Option<Tx>)
    requires Separate(s.q)
    ensures r.Some? ==> |r.value.mem| == |s.mem| && r.value.q.geo == s.q.geo
    decreases Gap(s.q.last, AvailableIdx(s.q, s.mem))
  {
    if !CanTurn(s) then Some(s)
    else if !SlotIn(s.q, |s.mem|) then None
    else
      TxProgress(s);
      TxDrain(Turn(s))
  }

  // ---- When the transmit loop ends ----

  function Copies(p: Option<seq<byte>>, n: nat): seq<seq<byte>> {
    if n == 0 then [] else Copies(p, n - 1) + if p.Some? then [p.value] else []
  }

  /** At a used slot outside memory, every number of turns leaves queue and memory as they were and
      has offered the TAP the same frame that many times. */
  lemma {:induction false} TxStuck(s: Tx, n: nat)
    requires s.q.geo.size > 0 && CanTurn(s) && !SlotIn(s.q, |s.mem|)
    ensures var frame := Payload(s.mem, ReadDesc(s.mem, s.q.geo.desc, NextHead(s.q, s.mem).value).value);
            Turns(s, n) == Some(s.(offered := s.offered + Copies(frame, n)))
  {
    hide Payload, ReadDesc, NextHead;
    if n == 0 {
      assert s.offered + [] == s.offered;
    } else {
      var frame := Payload(s.mem, ReadDesc(s.mem, s.q.geo.desc, NextHead(s.q, s.mem).value).value);
      var one := if frame.Some? then [frame.value] else [];
      TxStuck(s, n - 1);
      StuckTurn(s, Turns(s, n - 1).value);
      assert s.offered + Copies(frame, n - 1) + one == s.offered + (Copies(frame, n - 1) + one);
    }
  }

  lemma StuckTurn(s: Tx, t: Tx)
    requires s.q.geo.size > 0 && CanTurn(s) && !SlotIn(s.q, |s.mem|) && t == s.(offered := t.offered)
    ensures CanTurn(t)
    ensures var p := Payload(s.mem, ReadDesc(s.mem, s.q.geo.desc, NextHead(s.q, s.mem).value).value);
            Turn(t) == t.(offered := t.offered + if p.Some? then [p.value] else [])
  {
    hide Payload, ReadDesc, NextHead;
  }

  lemma {:induction false} TurnsFromSecond(s: Tx, n: nat)
    requires s.q.geo.size > 0 && CanTurn(s)
    ensures Turns(s, n + 1) == Turns(Turn(s), n)
  {
    hide CanTurn, Turn;
    if n == 0 {
      assert Turns(s, 0) == Some(s);
    } else {
      TurnsFromSecond(s, n - 1);
    }
  }

  lemma {:induction false} TurnsStay(s: Tx, n: nat, k: nat)
    requires s.q.geo.size > 0 && Turns(s, n).None? && n <= k
    ensures Turns(s, k).None?
  {
    hide CanTurn, Turn;
    if n < k {
      TurnsStay(s, n, k - 1);
    }
  }

  lemma TurnsBefore(s: Tx, n: nat, limit: nat)
    requires s.q.geo.size > 0 && Turns(s, n).Some? && Turns(s, limit).None?
    ensures n < limit
  {
    hide CanTurn, Turn;
    if limit <= n {
      TurnsStay(s, limit, n);
    }
  }

  /** `TxDrain` is defined exactly when the loop ends, and is where it stops. */
  lemma {:induction false} EndsIffDrain(s: Tx)
    requires Separate(s.q)
    ensures Ends(s) <==> TxDrain(s).Some?
    ensures TxDrain(s).Some? ==> StopsAt(s, TxDrain(s).value)
    decreases Gap(s.q.last, AvailableIdx(s.q, s.mem))
  {
    hide CanTurn, Turn, SlotIn, AvailableIdx, Gap;
    if !CanTurn(s) {
      assert Turns(s, 0) == Some(s);
      assert Turns(s, 1).None?;
    } else if !SlotIn(s.q, |s.mem|) {
      forall n: nat
        ensures Turns(s, n).Some?
      {
        TxStuck(s, n);
      }
    } else {
      TxProgress(s);
      EndsIffDrain(Turn(s));
      EndsLater(s);
    }
  }

  lemma EndsLater(s: Tx)
    requires s.q.geo.size > 0 && CanTurn(s)
    ensures Ends(s) <==> Ends(Turn(s))
    ensures forall s' :: StopsAt(Turn(s), s') ==> StopsAt(s, s')
  {
    hide CanTurn, Turn;
    if Ends(s) {
      var n: nat :| Turns(s, n).None?;
      TurnsStay(s, n, n + 1);
      TurnsFromSecond(s, n);
    }
    if Ends(Turn(s)) {
      var n: nat :| Turns(Turn(s), n).None?;
      TurnsFromSecond(s, n);
    }
    forall s' | StopsAt(Turn(s), s')
      ensures StopsAt(s, s')
    {
      var n: nat :| Turns(Turn(s), n) == Some(s') && !CanTurn(s');
      TurnsFromSecond(s, n);
      assert Turns(s, n + 1) == Some(s');
    }
  }

  /** There is one such place. */
  lemma StopsOnce(s: Tx, a: Tx, b: Tx)
    requires s.q.geo.size > 0 && StopsAt(s, a) && StopsAt(s, b)
    ensures a == b
  {
    hide CanTurn, Turn;
    var i: nat :| Turns(s, i) == Some(a) && !CanTurn(a);
    var j: nat :| Turns(s, j) == Some(b) && !CanTurn(b);
    assert Turns(s, i + 1).None? && Turns(s, j + 1).None?;
    if i < j {
      TurnsStay(s, i + 1, j);
    } else if j < i {
      TurnsStay(s, j + 1, i);
    }
  }

  lemma StopsInDrain(s: Tx, s': Tx)
    requires s.q.geo.size > 0 && StopsAt(s, s')
    ensures Separate(s.q) ==> TxDrain(s) == Some(s')
  {
    hide CanTurn, Turn, TxDrain, Separate;
    var n: nat :| Turns(s, n) == Some(s') && !CanTurn(s');
    assert Turns(s, n + 1).None?;
    if Separate(s.q) {
      EndsIffDrain(s);
      StopsOnce(s, s', TxDrain(s).value);
    }
  }

  // ---- Addresses ----

  /** Nor do any others of a transmit loop, however many turns it makes. */
  ghost predicate TxFits(s: Tx)
    requires s.q.geo.size > 0
  {
    QueueFits(s.q.geo) && forall n: nat :: Turns(s, n).Some? ==> BufferFits(Turns(s, n).value)
  }

  // ---- Receive ----

  datatype Rx = Rx(q: Queue, mem: seq<byte>, incoming: seq<seq<byte>>, irq: bool)

  /** A read from the TAP returns a frame cut to the buffer. */
  function Cut(frame: seq<byte>): (p: seq<byte>)
    ensures |p| <= MAX_FRAME && p <= frame
  {
    if |frame| <= MAX_FRAME then frame else frame[..MAX_FRAME]
  }

  /** The frame is not empty, and the descriptor holds it with its header, inside memory. */
  predicate Fits(m: seq<byte>, d: Desc, p: seq<byte>) {
    p != [] && |p| + HDR_LEN <= d.len && d.addr + HDR_LEN + |p| <= |m|
  }

  /** The posted descriptor a receive may use. */
  function RxTarget(q: Queue, m: seq<byte>): Option<Desc>
    requires q.ready ==> q.geo.size > 0
  {
    if !q.ready then None
    else
      match NextHead(q, m)
      case None => None
      case Some(head) => ReadDesc(m, q.geo.desc, head)
  }

  /** The address sums of a receive do not wrap, whatever frame comes. */
  predicate RxFits(q: Queue, m: seq<byte>)
    requires q.ready ==> q.geo.size > 0
  {
    QueueFits(q.geo) &&
    (RxTarget(q, m).Some? ==> NoWrap(Region(RxTarget(q, m).value.addr, HDR_LEN + MAX_FRAME)))
  }

  lemma FitsQueue(q: Queue, m: seq<byte>)
    requires (q.ready ==> q.geo.size > 0) && RxFits(q, m)
    ensures QueueFits(q.geo)
  {
    hide RxTarget, QueueFits;
  }

  lemma RxFitsFrame(q: Queue, m: seq<byte>, frame: seq<byte>)
    requires (q.ready ==> q.geo.size > 0) && RxFits(q, m) && RxTarget(q, m).Some?
    ensures NoWrap(Region(RxTarget(q, m).value.addr, HDR_LEN + |Cut(frame)|))
  {
    hide RxTarget, QueueFits, Cut;
  }

  /** One receive: at most one frame from the TAP into the buffer at the cursor. */
  function RxOne(q: Queue, m: seq<byte>, incoming: seq<seq<byte>>): (r: Rx)
    requires q.ready ==> q.geo.size > 0
    ensures |r.mem| == |m| && r.q.geo == q.geo && r.q.ready == q.ready
  {
    var target := RxTarget(q, m);
    if target.None? || incoming == [] then Rx(q, m, incoming, false)
    else
      var p := Cut(incoming[0]);
      if !Fits(m, target.value, p) then Rx(q, m, incoming[1..], false)
      else
        var m1 := Store(m, target.value.addr, Zeros(HDR_LEN) + p);
        var u := AddUsed(q, m1, NextHead(q, m).value, |p| + HDR_LEN);
        Rx(u.q, u.mem, incoming[1..], true)
  }
}
