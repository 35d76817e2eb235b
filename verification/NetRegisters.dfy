/** The network device's registers against the history of what happened to it: register writes,
    receives and transmits. The history names registers by their offsets (VirtIO 1.2 section
    4.2.2). */
module NetRegisters {
  import opened Bytes
  import opened Ring
  import opened Registers
  import opened NetQueue
  import opened VirtioNetDevice

  /** A well-formed register write, a receive, or a transmit loop that made `turns` turns, each with
      guest memory as it found it. */
  datatype Event =
    | Written(offset: u64, val: u32)
    | Receive(mem: seq<byte>, incoming: seq<seq<byte>>)
    | Transmit(mem: seq<byte>, turns: nat)

  function After(trace: seq<Event>): Option<Regs>
    decreases |trace|
  {
    if trace == [] then Some(POWER_ON)
    else
      match After(trace[..|trace| - 1])
      case None => None
      case Some(r) => Happens(r, trace[|trace| - 1])
  }

  /** `None` for what cannot happen: a ready queue of size zero, or a loop of other than its turns. */
  function Happens(r: Regs, e: Event): Option<Regs> {
    match e
    case Written(offset, val) => Some(WriteReg(r, offset, val))
    case Receive(mem, incoming) =>
      if r.rx.ready && r.rx.geo.size == 0 then None
      else
        var o := RxOne(r.rx, mem, incoming);
        Some(r.(rx := o.q, interruptStatus := if o.irq then SetBit0(r.interruptStatus) else r.interruptStatus))
    case Transmit(mem, turns) =>
      if !r.tx.ready then if turns == 0 then Some(r) else None
      else if r.tx.geo.size == 0 then None
      else
        match Turns(Tx(r.tx, mem, []), turns)
        case None => None
        case Some(t) =>
          if CanTurn(t) then None
          else Some(r.(tx := t.q, interruptStatus := if turns > 0 then SetBit0(r.interruptStatus) else r.interruptStatus))
  }

  // ---- What the history says ----

  predicate IsReset(e: Event) {
    e.Written? && e.offset == 0x070 && e.val == 0
  }

  predicate WrittenTo(e: Event, offset: u64) {
    e.Written? && e.offset == offset
  }

  /** The value last written to the selector since the last reset. */
  function SelectorIn(trace: seq<Event>): u32
    decreases |trace|
  {
    if trace == [] then 0
    else
      var e := trace[|trace| - 1];
      if IsReset(e) then 0
      else if WrittenTo(e, 0x030) then e.val
      else SelectorIn(trace[..|trace| - 1])
  }

  /** The value last written to `offset` while queue `sel` was selected, since the last reset;
      zero if none was. */
  function LastWritten(trace: seq<Event>, sel: u32, offset: u64): u32
    decreases |trace|
  {
    if trace == [] then 0
    else
      var e, before := trace[|trace| - 1], trace[..|trace| - 1];
      if IsReset(e) then 0
      else if WrittenTo(e, offset) && SelectorIn(before) == sel then e.val
      else LastWritten(before, sel, offset)
  }

  /** The value last written to `offset`, whatever was selected and whatever was reset. */
  function LastEver(trace: seq<Event>, offset: u64): u32
    decreases |trace|
  {
    if trace == [] then 0
    else if WrittenTo(trace[|trace| - 1], offset) then trace[|trace| - 1].val
    else LastEver(trace[..|trace| - 1], offset)
  }

  /** A receive that delivered a frame, with the device as it was. */
  predicate Delivered(before: Option<Regs>, e: Event) {
    e.Receive? && before.Some? && (before.value.rx.ready ==> before.value.rx.geo.size > 0) &&
    RxOne(before.value.rx, e.mem, e.incoming).irq
  }

  /** A delivery whose used slot was inside memory, so that it was completed too. */
  predicate Completed(before: Option<Regs>, e: Event) {
    Delivered(before, e) && before.value.rx.geo.size > 0 && SlotIn(before.value.rx, |e.mem|)
  }

  /** How many buffers of queue `sel` were completed since the last reset. */
  function CompletedIn(trace: seq<Event>, sel: u32): nat
    decreases |trace|
  {
    if trace == [] then 0
    else
      var e, before := trace[|trace| - 1], trace[..|trace| - 1];
      if IsReset(e) then 0
      else
        CompletedIn(before, sel) +
        if sel == 0 && Completed(After(before), e) then 1
        else if sel == 1 && e.Transmit? then e.turns
        else 0
  }

  /** What the history says a queue is. */
  function QueueIn(trace: seq<Event>, sel: u32): Queue {
    Queue(Geometry(LastWritten(trace, sel, 0x038) % 0x1_0000,
                   Combine(LastWritten(trace, sel, 0x080), LastWritten(trace, sel, 0x084)),
                   Combine(LastWritten(trace, sel, 0x090), LastWritten(trace, sel, 0x094)),
                   Combine(LastWritten(trace, sel, 0x0a0), LastWritten(trace, sel, 0x0a4))),
          LastWritten(trace, sel, 0x044) % 2 == 1,
          Wrap(CompletedIn(trace, sel)))
  }

  /** Among the receives that delivered, the transmits that completed something and the
      acknowledgements of bit 0, the latest one was not an acknowledgement. */
  ghost predicate LatestRaises(trace: seq<Event>)
    decreases |trace|
  {
    if trace == [] then false
    else
      var e, before := trace[|trace| - 1], trace[..|trace| - 1];
      if Delivered(After(before), e) || (e.Transmit? && e.turns > 0) then true
      else if WrittenTo(e, 0x064) && e.val % 2 == 1 then false
      else LatestRaises(before)
  }

  // ---- One more event ----

  lemma LastWrittenStep(before: seq<Event>, e: Event, sel: u32, offset: u64)
    requires !IsReset(e)
    ensures LastWritten(before + [e], sel, offset) ==
      if WrittenTo(e, offset) && SelectorIn(before) == sel then e.val else LastWritten(before, sel, offset)
  {
    hide SelectorIn;
    assert (before + [e])[..|before|] == before;
  }

  lemma HalvesStep(before: seq<Event>, e: Event, sel: u32, low: u64, high: u64)
    requires !IsReset(e) && low != high
    ensures var v := Combine(LastWritten(before, sel, low), LastWritten(before, sel, high));
            Combine(LastWritten(before + [e], sel, low), LastWritten(before + [e], sel, high)) ==
              if SelectorIn(before) == sel && WrittenTo(e, low) then WithLow(v, e.val)
              else if SelectorIn(before) == sel && WrittenTo(e, high) then WithHigh(v, e.val)
              else v
  {
    hide WithLow, WithHigh, Combine, LastWritten, SelectorIn;
    LastWrittenStep(before, e, sel, low);
    LastWrittenStep(before, e, sel, high);
    if e.Written? {
      CombineHalves(LastWritten(before, sel, low), LastWritten(before, sel, high), e.val);
    }
  }

  lemma CompletedStep(before: seq<Event>, e: Event, sel: u32)
    requires !IsReset(e)
    ensures CompletedIn(before + [e], sel) ==
      CompletedIn(before, sel) +
        if sel == 0 && Completed(After(before), e) then 1 else if sel == 1 && e.Transmit? then e.turns else 0
  {
    hide Completed, After;
    assert (before + [e])[..|before|] == before;
  }

  /** One more write, not a reset: the selected queue takes it, the other keeps what it had. */
  lemma QueueWritten(before: seq<Event>, offset: u64, val: u32, sel: u32)
    requires !IsReset(Written(offset, val))
    ensures QueueIn(before + [Written(offset, val)], sel) ==
      if SelectorIn(before) == sel then SetQueue(QueueIn(before, sel), offset, val) else QueueIn(before, sel)
  {
    hide WithLow, WithHigh, Combine, SelectorIn, LastWritten, CompletedIn, Wrap;
    var e := Written(offset, val);
    LastWrittenStep(before, e, sel, 0x038);
    LastWrittenStep(before, e, sel, 0x044);
    HalvesStep(before, e, sel, 0x080, 0x084);
    HalvesStep(before, e, sel, 0x090, 0x094);
    HalvesStep(before, e, sel, 0x0a0, 0x0a4);
    CompletedStep(before, e, sel);
  }

  /** A receive or a transmit leaves what was written as it was, and moves a cursor. */
  lemma QueueServed(before: seq<Event>, e: Event, sel: u32)
    requires !e.Written?
    ensures QueueIn(before + [e], sel) == QueueIn(before, sel).(last := Wrap(CompletedIn(before + [e], sel)))
    ensures SelectorIn(before + [e]) == SelectorIn(before)
  {
    hide Combine, LastWritten, CompletedIn, Wrap;
    LastWrittenStep(before, e, sel, 0x038);
    LastWrittenStep(before, e, sel, 0x044);
    LastWrittenStep(before, e, sel, 0x080);
    LastWrittenStep(before, e, sel, 0x084);
    LastWrittenStep(before, e, sel, 0x090);
    LastWrittenStep(before, e, sel, 0x094);
    LastWrittenStep(before, e, sel, 0x0a0);
    LastWrittenStep(before, e, sel, 0x0a4);
    assert (before + [e])[..|before|] == before;
  }

  lemma QueueReset(before: seq<Event>, e: Event, sel: u32)
    requires IsReset(e)
    ensures QueueIn(before + [e], sel) == FRESH
  {
    assert (before + [e])[|before|] == e;
  }

  lemma QueueEmpty(trace: seq<Event>, sel: u32)
    requires trace == []
    ensures QueueIn(trace, sel) == FRESH
  {
  }

  lemma NotAQueueRegister(q: Queue, offset: u64, val: u32)
    ensures offset in {0x014, 0x024, 0x020, 0x030, 0x070, 0x064} ==> SetQueue(q, offset, val) == q
  {
  }

  // ---- The cursors ----

  /** A receive moves the cursor by the one buffer it completes, or not at all. */
  lemma ReceiveMoves(q: Queue, m: seq<byte>, incoming: seq<seq<byte>>)
    requires q.ready ==> q.geo.size > 0
    ensures var o := RxOne(q, m, incoming);
            o.q == if o.irq && q.geo.size > 0 && SlotIn(q, |m|) then q.(last := Wrap(q.last + 1)) else q
  {
    hide Slot, NextHead, ReadDesc, Fits, Cut, Zeros, Wrap, Store;
  }

  /** A transmit loop that ends has moved it by one for each turn. */
  lemma {:induction false} LoopMoves(s: Tx, n: nat)
    requires s.q.geo.size > 0 && Turns(s, n).Some? && !CanTurn(Turns(s, n).value)
    ensures var t := Turns(s, n).value; t.q.geo == s.q.geo && t.q.ready == s.q.ready && t.q.last == Wrap(s.q.last + n)
    decreases n
  {
    hide Turn, CanTurn, Wrap, SlotIn;
    WrapMoves(s.q.last, 0);
    if n > 0 {
      FirstTurn(s, n);
      if SlotIn(s.q, |s.mem|) {
        TurnsFromSecond(s, n - 1);
        LoopMoves(Turn(s), n - 1);
        WrapPlus(s.q.last, n - 1);
      } else {
        TxStuck(s, n);
        StuckTurn(s, Turns(s, n).value);
      }
    }
  }

  lemma {:induction false} FirstTurn(s: Tx, n: nat)
    requires s.q.geo.size > 0 && n > 0 && Turns(s, n).Some?
    ensures CanTurn(s)
    ensures SlotIn(s.q, |s.mem|) ==> Turn(s).q == s.q.(last := Wrap(s.q.last + 1))
  {
    hide CanTurn, NextHead, ReadDesc, Payload, Slot, Wrap, Store;
    if n > 1 {
      FirstTurn(s, n - 1);
    }
  }

  // ---- The theorems ----

  lemma QueuesReceive(before: seq<Event>, e: Event)
    requires e.Receive? && After(before).Some? && Happens(After(before).value, e).Some?
    requires After(before).value.rx == QueueIn(before, 0) && After(before).value.tx == QueueIn(before, 1)
    ensures var r := Happens(After(before).value, e).value; r.rx == QueueIn(before + [e], 0) && r.tx == QueueIn(before + [e], 1)
  {
    hide After, CompletedIn, RxOne, SlotIn, LastWritten, Combine, Wrap, SetBit0;
    var r := After(before).value;
    QueueServed(before, e, 0);
    QueueServed(before, e, 1);
    CompletedStep(before, e, 0);
    CompletedStep(before, e, 1);
    ReceiveMoves(r.rx, e.mem, e.incoming);
    WrapSum(CompletedIn(before, 0), 1);
  }

  lemma QueuesTransmit(before: seq<Event>, e: Event)
    requires e.Transmit? && After(before).Some? && Happens(After(before).value, e).Some?
    requires After(before).value.rx == QueueIn(before, 0) && After(before).value.tx == QueueIn(before, 1)
    ensures var r := Happens(After(before).value, e).value; r.rx == QueueIn(before + [e], 0) && r.tx == QueueIn(before + [e], 1)
  {
    hide After, CompletedIn, Turns, CanTurn, SlotIn, LastWritten, Combine, Wrap, SetBit0;
    var r := After(before).value;
    QueueServed(before, e, 0);
    QueueServed(before, e, 1);
    CompletedStep(before, e, 0);
    CompletedStep(before, e, 1);
    if r.tx.ready {
      LoopMoves(Tx(r.tx, e.mem, []), e.turns);
      WrapSum(CompletedIn(before, 1), e.turns);
    }
  }

  /** After any history, in any order of halves and selections, each queue is what was last written
      to it while it was selected, since the last reset, and its cursor counts, modulo 65536, the
      buffers completed since then. Writes under the other selection, or under none of the two,
      leave no trace on it. */
  lemma {:induction false} QueuesFollowHistory(trace: seq<Event>)
    requires After(trace).Some?
    ensures After(trace).value.queueSel == SelectorIn(trace)
    ensures After(trace).value.rx == QueueIn(trace, 0)
    ensures After(trace).value.tx == QueueIn(trace, 1)
    decreases |trace|
  {
    hide QueueIn, SetQueue, AndNot, WithLow, WithHigh, CompletedIn, Wrap, RxOne, Turns, CanTurn, SetBit0;
    if trace == [] {
      QueueEmpty(trace, 0);
      QueueEmpty(trace, 1);
    } else {
      var before, e := trace[..|trace| - 1], trace[|trace| - 1];
      assert before + [e] == trace;
      QueuesFollowHistory(before);
      match e
      case Written(offset, val) =>
        if IsReset(e) {
          QueueReset(before, e, 0);
          QueueReset(before, e, 1);
        } else {
          QueueWritten(before, offset, val, 0);
          QueueWritten(before, offset, val, 1);
          NotAQueueRegister(QueueIn(before, 0), offset, val);
          NotAQueueRegister(QueueIn(before, 1), offset, val);
        }
      case Receive(_, _) =>
        QueuesReceive(before, e);
        QueueServed(before, e, 0);
      case Transmit(_, _) =>
        QueuesTransmit(before, e);
        QueueServed(before, e, 0);
    }
  }

  lemma StatusHappens(r: Regs, e: Event)
    requires Happens(r, e).Some?
    ensures var r' := Happens(r, e).value;
            && (r'.interruptStatus % 2 == 1 <==>
                  if Delivered(Some(r), e) || (e.Transmit? && e.turns > 0) then true
                  else if WrittenTo(e, 0x064) && e.val % 2 == 1 then false
                  else r.interruptStatus % 2 == 1)
            && r'.status == (if WrittenTo(e, 0x070) then e.val else r.status)
            && r'.deviceSel == (if WrittenTo(e, 0x014) then e.val else r.deviceSel)
            && r'.driverSel == (if WrittenTo(e, 0x024) then e.val else r.driverSel)
  {
    hide SetQueue, AndNot, WithLow, WithHigh, RxOne, Turns, CanTurn, SetBit0;
  }

  /** Bit 0 of the interrupt status is set exactly when the latest event that touches it raised it;
      resets do not clear it. Status and selectors are what was last written to them. */
  lemma {:induction false} StatusFollowsHistory(trace: seq<Event>)
    requires After(trace).Some?
    ensures After(trace).value.interruptStatus % 2 == 1 <==> LatestRaises(trace)
    ensures After(trace).value.status == LastEver(trace, 0x070)
    ensures After(trace).value.deviceSel == LastEver(trace, 0x014)
    ensures After(trace).value.driverSel == LastEver(trace, 0x024)
    decreases |trace|
  {
    hide Happens, Delivered;
    if trace != [] {
      var before := trace[..|trace| - 1];
      StatusFollowsHistory(before);
      StatusHappens(After(before).value, trace[|trace| - 1]);
    }
  }

  /** What the driver reads, at every offset outside the MAC's window: identification, the features
      of the selected half, the size limit, the ready bit of the selected queue, the interrupt
      status and the status last written. */
  lemma ReadsFollowHistory(trace: seq<Event>)
    requires After(trace).Some?
    ensures var r := After(trace).value;
            && ReadReg(r, 0x000) == 0x74726976 && ReadReg(r, 0x004) == 2 && ReadReg(r, 0x008) == 1 && ReadReg(r, 0x00c) == 0x1AF4
            && ReadReg(r, 0x010) == (if LastEver(trace, 0x014) == 0 then 0x20 else if LastEver(trace, 0x014) == 1 then 1 else 0)
            && ReadReg(r, 0x034) == 256
            && ReadReg(r, 0x044) == (if SelectorIn(trace) < 2 then LastWritten(trace, SelectorIn(trace), 0x044) % 2 else 0)
            && (ReadReg(r, 0x060) % 2 == 1 <==> LatestRaises(trace))
            && ReadReg(r, 0x070) == LastEver(trace, 0x070)
            && forall offset: u64 ::
                 offset !in {0x000, 0x004, 0x008, 0x00c, 0x010, 0x034, 0x044, 0x060, 0x070} ==> ReadReg(r, offset) == 0
  {
    hide After, LastWritten, SelectorIn, LastEver, LatestRaises, CompletedIn, Wrap, Combine;
    QueuesFollowHistory(trace);
    StatusFollowsHistory(trace);
  }

  /** The value of a write: its one, two or four bytes, little-endian; other widths have none. */
  lemma WriteWidths(data: seq<byte>)
    ensures WriteValue(data).Some? <==> |data| == 1 || |data| == 2 || |data| == 4
    ensures WriteValue(data).Some? ==> WriteValue(data).value == Value(data)
  {
    hide Word32, Word16;
    if |data| == 1 {
      assert data[1..] == [];
    } else if |data| == 2 {
      ValueOfTwo(data);
      ValueOfNone(data[2..]);
    } else if |data| == 4 {
      ValueOfFour(data);
      ValueOfNone(data[4..]);
    }
  }
}
