/** The block device over any sequence of register writes: what queue the registers describe, when
    a write asks for the interrupt, what the interrupt status says, and where the device cursor
    stands. The histories name registers by their offsets (VirtIO 1.2 section 4.2.2). */
module BlockRegisters {
  import opened Bytes
  import opened Ring
  import opened BlockQueue
  import opened BlockChain
  import opened BlockFootprint
  import opened BlockRefinement
  import opened BlockService
  import opened Registers
  import opened VirtioBlockDevice

  /** A register write, and guest memory as it finds it. */
  datatype Access = Access(mem: seq<byte>, offset: u64, val: u32)

  const POWER_ON := Regs(0, 0, 0, 0, 0, 0, 0, 0, 0, 0)

  /** The device after a sequence of writes; `irq` is the answer to the last one. */
  function After(image: Option<seq<byte>>, trace: seq<Access>): Option<Reply>
    decreases |trace|
  {
    if trace == [] then Some(Reply(POWER_ON, Device([], image, 0), false))
    else
      var a := trace[|trace| - 1];
      match After(image, trace[..|trace| - 1])
      case None => None
      case Some(o) => WriteReg(o.regs, o.dev.(mem := a.mem), a.offset, a.val)
  }

  /** The requests a notify serves on entry state `r`, `b`. */
  function ServedBy(r: Regs, b: Device): seq<Request> {
    var g := r.Queue();
    if g.size == 0 || r.queueReady == 0 || g.avail + 4 > |b.mem| then []
    else Walked(g, b, Word16(b.mem, g.avail + 2))
  }

  /** A register write asks for the interrupt exactly when it is a notify that completed at
      least one request. */
  lemma InterruptIffServed(r: Regs, b: Device, offset: u64, val: u32)
    requires WriteReg(r, b, offset, val).Some?
    ensures WriteReg(r, b, offset, val).value.irq <==> offset == 0x050 && ServedBy(r, b) != []
  {
    hide Chain, Serve, Slot, SetReg, Wrap, Gap, HeadAt, Drain, SetBit0, AndNot;
    var g := r.Queue();
    if offset == 0x050 && g.size > 0 && r.queueReady != 0 && g.avail + 4 <= |b.mem| {
      var n := DrainCursor(g, b, Word16(b.mem, g.avail + 2));
      WalkedCount(g, b, Word16(b.mem, g.avail + 2));
    }
  }

  lemma WalkedCount(g: Geometry, b: Device, target: u16)
    requires g.size > 0 && Drain(g, b, target).Some?
    ensures Walked(g, b, target) == [] <==> b.last == target || HeadAt(g, b.mem, b.last).None?
  {
    hide Chain, Serve, HeadAt, Reading;
  }

  /** Among the notifies that completed requests and the acknowledgements of bit 0, the latest
      one was a notify. */
  ghost predicate LatestIsNotify(image: Option<seq<byte>>, trace: seq<Access>)
    decreases |trace|
  {
    if trace == [] then false
    else
      var before := After(image, trace[..|trace| - 1]);
      var a := trace[|trace| - 1];
      if a.offset == 0x050 && before.Some? && ServedBy(before.value.regs, before.value.dev.(mem := a.mem)) != [] then true
      else if a.offset == 0x064 && a.val % 2 == 1 then false
      else LatestIsNotify(image, trace[..|trace| - 1])
  }

  /** Bit 0 of the interrupt status is set exactly when that is so; nothing else moves it, and
      in particular a reset does not. */
  lemma {:induction false} StatusFollowsTrace(image: Option<seq<byte>>, trace: seq<Access>)
    requires After(image, trace).Some?
    ensures After(image, trace).value.regs.interruptStatus % 2 == 1 <==> LatestIsNotify(image, trace)
    decreases |trace|
  {
    hide ServedBy, Notify, SetBit0, AndNot;
    if trace != [] {
      var a := trace[|trace| - 1];
      var o := After(image, trace[..|trace| - 1]).value;
      StatusFollowsTrace(image, trace[..|trace| - 1]);
      InterruptIffServed(o.regs, o.dev.(mem := a.mem), a.offset, a.val);
    }
  }

  // ---- The registers ----

  /** The value last written to `offset`, zero if there was none. */
  function LastWritten(trace: seq<Access>, offset: u64): u32
    decreases |trace|
  {
    if trace == [] then 0
    else if trace[|trace| - 1].offset == offset then trace[|trace| - 1].val
    else LastWritten(trace[..|trace| - 1], offset)
  }

  /** A reset is a status write of zero while the status is not zero. */
  predicate IsReset(before: seq<Access>, a: Access) {
    a.offset == 0x070 && a.val == 0 && LastWritten(before, 0x070) != 0
  }

  function ReadyIn(trace: seq<Access>): u32
    decreases |trace|
  {
    if trace == [] then 0
    else
      var before, a := trace[..|trace| - 1], trace[|trace| - 1];
      if IsReset(before, a) then 0
      else if a.offset == 0x044 then a.val
      else ReadyIn(before)
  }

  function Pair(trace: seq<Access>, low: u64, high: u64): u64 {
    Combine(LastWritten(trace, low), LastWritten(trace, high))
  }

  /** What the trace says the queue registers hold. */
  predicate Follows(r: Regs, trace: seq<Access>) {
    && r.queueNum == LastWritten(trace, 0x038)
    && r.queueDesc == Pair(trace, 0x080, 0x084)
    && r.queueAvail == Pair(trace, 0x090, 0x094)
    && r.queueUsed == Pair(trace, 0x0a0, 0x0a4)
    && r.queueReady == ReadyIn(trace)
    && r.status == LastWritten(trace, 0x070)
    && r.Queue() == Geometry(LastWritten(trace, 0x038) % 0x1_0000, r.queueDesc, r.queueAvail, r.queueUsed)
  }

  lemma LastWrittenStep(before: seq<Access>, a: Access, offset: u64)
    ensures LastWritten(before + [a], offset) == if a.offset == offset then a.val else LastWritten(before, offset)
  {
    assert (before + [a])[..|before|] == before;
  }

  lemma PairStep(before: seq<Access>, a: Access, low: u64, high: u64)
    requires low != high
    ensures var v := Pair(before, low, high);
            Pair(before + [a], low, high) ==
              if a.offset == low then WithLow(v, a.val) else if a.offset == high then WithHigh(v, a.val) else v
  {
    hide WithLow, WithHigh, Combine, LastWritten;
    LastWrittenStep(before, a, low);
    LastWrittenStep(before, a, high);
    CombineHalves(LastWritten(before, low), LastWritten(before, high), a.val);
  }

  lemma ReadyStep(before: seq<Access>, a: Access)
    ensures ReadyIn(before + [a]) ==
      if IsReset(before, a) then 0 else if a.offset == 0x044 then a.val else ReadyIn(before)
  {
    hide IsReset;
    assert (before + [a])[..|before|] == before;
  }

  lemma FollowsStep(r: Regs, before: seq<Access>, a: Access)
    requires Follows(r, before) && !IsReset(before, a) && a.offset != 0x050
    ensures Follows(SetReg(r, a.offset, a.val), before + [a])
  {
    hide WithLow, WithHigh, Pair, AndNot, LastWritten, ReadyIn, IsReset;
    LastWrittenStep(before, a, 0x038);
    LastWrittenStep(before, a, 0x070);
    ReadyStep(before, a);
    PairStep(before, a, 0x080, 0x084);
    PairStep(before, a, 0x090, 0x094);
    PairStep(before, a, 0x0a0, 0x0a4);
  }

  lemma FollowsSame(r: Regs, r': Regs, before: seq<Access>, a: Access)
    requires Follows(r, before)
    requires if IsReset(before, a) then r' == r.(status := 0, queueReady := 0)
             else a.offset == 0x050 && r' == r.(interruptStatus := r'.interruptStatus)
    ensures Follows(r', before + [a])
  {
    hide WithLow, WithHigh, Pair, LastWritten, ReadyIn;
    LastWrittenStep(before, a, 0x038);
    LastWrittenStep(before, a, 0x070);
    ReadyStep(before, a);
    PairStep(before, a, 0x080, 0x084);
    PairStep(before, a, 0x090, 0x094);
    PairStep(before, a, 0x0a0, 0x0a4);
  }

  /** After any sequence of writes the device has one queue: its three addresses are the last low
      and last high half written for each, in either order, and its size the last one written, cut to 16 bits,
      whatever the selector was and however often the device was reset in between. Only the
      ready register goes back to zero with a reset. */
  lemma {:induction false} QueueFollowsTrace(image: Option<seq<byte>>, trace: seq<Access>)
    requires After(image, trace).Some?
    ensures Follows(After(image, trace).value.regs, trace)
    decreases |trace|
  {
    hide Notify, SetBit0, SetReg, Follows;
    if trace == [] {
      FollowsNothing(trace);
    } else {
      var before, a := trace[..|trace| - 1], trace[|trace| - 1];
      assert before + [a] == trace;
      QueueFollowsTrace(image, before);
      var r, r' := After(image, before).value.regs, After(image, trace).value.regs;
      FollowsStatus(r, before);
      if IsReset(before, a) || a.offset == 0x050 {
        FollowsSame(r, r', before, a);
      } else {
        FollowsStep(r, before, a);
      }
    }
  }

  lemma FollowsNothing(trace: seq<Access>)
    requires trace == []
    ensures Follows(POWER_ON, trace)
  {
    assert forall offset: u64 :: LastWritten(trace, offset) == 0;
  }

  lemma FollowsStatus(r: Regs, trace: seq<Access>)
    requires Follows(r, trace)
    ensures r.status == LastWritten(trace, 0x070)
  {
  }

  // ---- The device behind the registers ----

  /** A write to any other register than the notify one moves no data and asks for no interrupt. */
  lemma OnlyNotifyTransfers(r: Regs, b: Device, offset: u64, val: u32)
    requires offset != 0x050
    ensures WriteReg(r, b, offset, val).Some?
    ensures var o := WriteReg(r, b, offset, val).value; o.dev.mem == b.mem && o.dev.disk == b.disk && !o.irq
  {
    hide SetReg;
  }

  /** How many requests the notifies since the last reset have served. */
  function ServedSince(image: Option<seq<byte>>, trace: seq<Access>): nat
    decreases |trace|
  {
    if trace == [] then 0
    else
      var before, a := trace[..|trace| - 1], trace[|trace| - 1];
      if IsReset(before, a) then 0
      else
        ServedSince(image, before) +
        match After(image, before)
        case None => 0
        case Some(o) => if a.offset == 0x050 then |ServedBy(o.regs, o.dev.(mem := a.mem))| else 0
  }

  /** A drain that ends moves the cursor by the number of chains it walked. */
  lemma {:induction false} WalkedMoves(g: Geometry, b: Device, target: u16)
    requires g.size > 0 && Drain(g, b, target).Some?
    ensures Drain(g, b, target).value.last == Wrap(b.last + |Walked(g, b, target)|)
    decreases Gap(b.last, target)
  {
    hide Serve, Chain, HeadAt, Gap, Reading, Wrap;
    WrapMoves(b.last, 0);
    if b.last != target && HeadAt(g, b.mem, b.last).Some? {
      var head := HeadAt(g, b.mem, b.last).value;
      var ds := Chain(b.mem, g.desc, head, {}).value;
      ServeCloser(g, b, head, ds, target);
      WalkedMoves(g, Serve(g, b, head, ds), target);
      WrapPlus(b.last, |Walked(g, Serve(g, b, head, ds), target)|);
    }
  }

  lemma NotifyMoves(r: Regs, b: Device)
    requires Notify(r, b).Some?
    ensures Notify(r, b).value.last == Wrap(b.last + |ServedBy(r, b)|)
  {
    hide Drain, Walked, Wrap, Slot;
    var g := r.Queue();
    WrapMoves(b.last, 0);
    if g.size > 0 && r.queueReady != 0 && g.avail + 4 <= |b.mem| {
      WalkedMoves(g, b, Word16(b.mem, g.avail + 2));
    }
  }

  /** After any sequence of writes the cursor is, modulo 65536, the number of requests served since
      the last reset; a reset that finds the device in use puts it back to zero. */
  lemma {:induction false} CursorCountsServed(image: Option<seq<byte>>, trace: seq<Access>)
    requires After(image, trace).Some?
    ensures After(image, trace).value.dev.last == Wrap(ServedSince(image, trace))
    decreases |trace|
  {
    hide ServedBy, Notify, SetBit0, SetReg, Wrap, LastWritten, IsReset, Follows;
    if trace == [] {
      WrapMoves(0, 0);
    } else {
      var before, a := trace[..|trace| - 1], trace[|trace| - 1];
      var o := After(image, before).value;
      CursorCountsServed(image, before);
      QueueFollowsTrace(image, before);
      FollowsStatus(o.regs, before);
      ResetIs(before, a);
      WrapMoves(0, 0);
      if a.offset == 0x050 {
        NotifyMoves(o.regs, o.dev.(mem := a.mem));
        WrapSum(ServedSince(image, before), |ServedBy(o.regs, o.dev.(mem := a.mem))|);
      }
    }
  }

  lemma ResetIs(before: seq<Access>, a: Access)
    ensures IsReset(before, a) <==> a.offset == 0x070 && a.val == 0 && LastWritten(before, 0x070) != 0
  {
    hide LastWritten;
  }

  /** So a device that has served nothing since power-on or its last reset takes freshly initialised
      rings for what they are, whatever it served before that and whatever the registers were
      set to in between: an empty channel ... */
  lemma ResetStartsChannel(image: Option<seq<byte>>, trace: seq<Access>, m: seq<byte>)
    requires After(image, trace).Some? && ServedSince(image, trace) == 0
    requires var g := After(image, trace).value.regs.Queue(); Placed(g, |m|) && AvailIdx(g, m) == 0 && UsedIdx(g, m) == 0
    ensures var o := After(image, trace).value; Holds(o.regs.Queue(), m, o.dev.last, [], [], 0)
  {
    hide After, ServedSince, Holds;
    CursorCountsServed(image, trace);
    HoldsAtStart(After(image, trace).value.regs.Queue(), m);
  }

  /** ... and serves, with the next notify, exactly what is published on it. */
  lemma FirstNotifyServes(image: Option<seq<byte>>, trace: seq<Access>, m: seq<byte>, published: seq<u16>, v: u32)
    requires After(image, trace).Some? && ServedSince(image, trace) == 0 && ReadyIn(trace) != 0
    requires var g := After(image, trace).value.regs.Queue();
             && Placed(g, |m|) && |published| <= g.size
             && AvailIdx(g, m) == Wrap(|published|) && UsedIdx(g, m) == 0 && HeadsFrom(g, m, published, 0)
             && Submitted(g, m, published)
    requires After(image, trace).value.dev.disk.Some?
    ensures var o := After(image, trace).value;
            var b := o.dev.(mem := m);
            && WriteReg(o.regs, b, 0x050, v).Some?
            && Serviced(o.regs, b, WriteReg(o.regs, b, 0x050, v).value, published, [], 0)
  {
    hide After, ServedSince, Serviced, WriteReg, Submitted, WellFormed, Pair, LastWritten;
    var o := After(image, trace).value;
    CursorCountsServed(image, trace);
    QueueFollowsTrace(image, trace);
    assert published[0..] == published;
    RegisterNotifyServes(o.regs, o.dev.(mem := m), v, published, [], 0);
  }
}
