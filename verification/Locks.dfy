/** Lock use of the vCPU threads: what each turn of the run loop acquires, and why no set of
    threads can wait for one another for ever. */
module Locks {
  import opened Bytes

  datatype Lock =
    | GuestMem
    | NetDev
    | BlkStatus | BlkFeaturesSel | BlkDriverFeatures | BlkInterrupt | BlkQueueSel | BlkQueueNum | BlkQueueReady
    | BlkQueueDesc | BlkQueueAvail | BlkQueueUsed | BlkLastAvail | BlkDisk
    | NetTap | NetStatus | NetDriverSel | NetDeviceSel | NetDriverFeatures | NetQueueSel | NetQueues | NetInterrupt
    | VmFd

  /** The scopes in which guards live. `Trying` enters its scope only if the lock is free. */
  datatype Code =
    | Skip
    | Then(first: Code, second: Code)
    | Holding(lock: Lock, body: Code)
    | Trying(lock: Lock, body: Code)

  // ---- What one turn of the run loop locks ----

  /** How far a notify gets: the size or ready check stops it, the index cannot be read, or it
      drains with a number of disk transfers, having completed something or not. */
  datatype Notify = NoSize | NotReady | NoIndex | Drained(transfers: nat, done: bool)

  datatype BlkWrite = Ignored | Register(lock: Lock) | DriverFeatures | Status(reset: bool) | Notified(how: Notify)

  datatype NetWrite = NoLock | OneRegister(lock: Lock) | Features | QueueRegister(selected: bool) | DeviceStatus(reset: bool)

  /** How far a receive gets. */
  datatype Receive = NoTap | NoFrame | Delivered

  datatype Turn =
    | NoDevice
    | ReadBlk(lock: Option<Lock>)
    | WriteBlk(blk: BlkWrite, irq: bool)
    | ReadNet(lock: Option<Lock>, queueReady: bool)
    | WriteNet(net: NetWrite, irq: bool)
    | PollNet(rx: Receive, txTap: bool, consumed: nat, work: bool, irq: bool)

  predicate BlkRegister(l: Lock) {
    l in {BlkStatus, BlkFeaturesSel, BlkInterrupt, BlkQueueSel, BlkQueueNum, BlkQueueReady, BlkQueueDesc, BlkQueueAvail, BlkQueueUsed}
  }

  predicate NetRegister(l: Lock) {
    l in {NetStatus, NetDriverSel, NetDeviceSel, NetInterrupt}
  }

  predicate Possible(turn: Turn) {
    match turn
    case ReadBlk(Some(l)) => BlkRegister(l)
    case WriteBlk(Register(l), _) => BlkRegister(l)
    case ReadNet(Some(l), _) => NetRegister(l)
    case WriteNet(OneRegister(l), _) => NetRegister(l)
    case _ => true
  }

  /** A guard that is dropped at the end of its statement. */
  function Brief(l: Lock): Code {
    Holding(l, Skip)
  }

  function Repeat(n: nat, c: Code): Code {
    if n == 0 then Skip else Then(c, Repeat(n - 1, c))
  }

  function When(b: bool, c: Code): Code {
    if b then c else Skip
  }

  function NotifyCode(how: Notify): Code {
    match how
    case NoSize => Brief(BlkQueueNum)
    case NotReady => Then(Brief(BlkQueueNum), Brief(BlkQueueReady))
    case NoIndex => SetupCode()
    case Drained(transfers, done) =>
      Then(SetupCode(), Holding(BlkLastAvail, Then(Repeat(transfers, Brief(BlkDisk)), When(done, Brief(BlkInterrupt)))))
  }

  function SetupCode(): Code {
    Then(Then(Brief(BlkQueueNum), Brief(BlkQueueReady)),
         Then(Brief(BlkQueueDesc), Then(Brief(BlkQueueAvail), Brief(BlkQueueUsed))))
  }

  function BlkWriteCode(what: BlkWrite): Code {
    match what
    case Ignored => Skip
    case Register(l) => Brief(l)
    case DriverFeatures => Then(Brief(BlkFeaturesSel), Brief(BlkDriverFeatures))
    case Status(reset) =>
      Then(Then(Brief(BlkStatus), Brief(BlkStatus)), When(reset, Then(Brief(BlkQueueReady), Brief(BlkLastAvail))))
    case Notified(how) => NotifyCode(how)
  }

  function NetWriteCode(what: NetWrite): Code {
    match what
    case NoLock => Skip
    case OneRegister(l) => Brief(l)
    case Features => Then(Brief(NetDriverSel), Brief(NetDriverFeatures))
    case QueueRegister(selected) => Then(Brief(NetQueueSel), When(selected, Brief(NetQueues)))
    case DeviceStatus(reset) =>
      Then(Brief(NetStatus), When(reset, Then(Brief(NetStatus), Holding(NetQueues, Brief(NetQueueSel)))))
  }

  function ReceiveCode(rx: Receive): Code {
    Holding(NetTap, When(!rx.NoTap?, Holding(NetQueues, When(rx.Delivered?, Brief(NetInterrupt)))))
  }

  function TransmitCode(tap: bool, consumed: nat): Code {
    Holding(NetTap, When(tap, Holding(NetQueues, Repeat(consumed, Brief(NetInterrupt)))))
  }

  /** The guards of one turn, in the order and nesting the run loop takes them. */
  function TurnCode(turn: Turn): Code {
    match turn
    case NoDevice => Skip
    case ReadBlk(l) => if l.Some? then Brief(l.value) else Skip
    case WriteBlk(what, irq) => Then(Holding(GuestMem, BlkWriteCode(what)), When(irq, Brief(VmFd)))
    case ReadNet(l, queueReady) =>
      Holding(NetDev, if queueReady then Then(Brief(NetQueueSel), Brief(NetQueues)) else if l.Some? then Brief(l.value) else Skip)
    case WriteNet(what, irq) => Holding(NetDev, Then(NetWriteCode(what), When(irq, Brief(VmFd))))
    case PollNet(rx, tap, consumed, work, irq) =>
      Trying(GuestMem,
        Trying(NetDev,
          Then(Then(ReceiveCode(rx), TransmitCode(tap, consumed)),
               When(work, Then(Brief(NetInterrupt), When(irq, Brief(VmFd)))))))
  }

  // ---- The order ----

  function Rank(l: Lock): nat {
    match l
    case GuestMem => 0
    case NetDev => 1
    case BlkLastAvail => 2
    case NetTap => 2
    case NetQueues => 3
    case VmFd => 5
    case _ => 4
  }

  /** The locks under which a lock is only ever taken: the notify's under guest memory, the network
      device's own under the device, and its TAP under guest memory too. */
  function Under(l: Lock): set<Lock> {
    match l
    case BlkLastAvail => {GuestMem}
    case BlkDisk => {GuestMem, BlkLastAvail}
    case NetTap => {GuestMem, NetDev}
    case NetStatus => {NetDev}
    case NetDriverSel => {NetDev}
    case NetDeviceSel => {NetDev}
    case NetDriverFeatures => {NetDev}
    case NetQueueSel => {NetDev}
    case NetQueues => {NetDev}
    case NetInterrupt => {NetDev}
    case _ => {}
  }

  predicate Above(l: Lock, held: set<Lock>) {
    Under(l) <= held && forall h :: h in held ==> Rank(h) < Rank(l)
  }

  /** Every lock held is held together with those it is taken under. */
  predicate Nested(held: set<Lock>) {
    forall h :: h in held ==> Under(h) <= held
  }

  /** Every blocking acquisition is of a lock above all those held, and every acquisition under the
      locks it belongs under. */
  predicate Ordered(c: Code, held: set<Lock>) {
    match c
    case Skip => true
    case Then(a, b) => Ordered(a, held) && Ordered(b, held)
    case Holding(l, body) => Above(l, held) && Ordered(body, held + {l})
    case Trying(l, body) => l !in held && Under(l) <= held && Ordered(body, held + {l})
  }

  lemma {:induction false} RepeatOrdered(n: nat, c: Code, held: set<Lock>)
    requires Ordered(c, held)
    ensures Ordered(Repeat(n, c), held)
  {
    if n > 0 {
      RepeatOrdered(n - 1, c, held);
    }
  }

  lemma BriefOrdered(l: Lock, held: set<Lock>)
    requires Above(l, held)
    ensures Ordered(Brief(l), held)
  {
  }

  lemma BothOrdered(a: Code, b: Code, held: set<Lock>)
    requires Ordered(a, held) && Ordered(b, held)
    ensures Ordered(Then(a, b), held)
  {
  }

  lemma ScopeOrdered(l: Lock, body: Code, held: set<Lock>, inner: set<Lock>)
    requires Above(l, held) && inner == held + {l} && Ordered(body, inner)
    ensures Ordered(Holding(l, body), held)
  {
  }

  /** Several guards, each dropped before the next is taken. */
  lemma TwoBrief(k: Lock, l: Lock, held: set<Lock>)
    requires Above(k, held) && Above(l, held)
    ensures Ordered(Then(Brief(k), Brief(l)), held)
  {
    BriefOrdered(k, held);
    BriefOrdered(l, held);
    BothOrdered(Brief(k), Brief(l), held);
  }

  lemma SetupOrdered(held: set<Lock>)
    requires held == {GuestMem}
    ensures Ordered(SetupCode(), held)
  {
    TwoBrief(BlkQueueNum, BlkQueueReady, held);
    TwoBrief(BlkQueueAvail, BlkQueueUsed, held);
    BriefOrdered(BlkQueueDesc, held);
    BothOrdered(Brief(BlkQueueDesc), Then(Brief(BlkQueueAvail), Brief(BlkQueueUsed)), held);
    BothOrdered(Then(Brief(BlkQueueNum), Brief(BlkQueueReady)),
                Then(Brief(BlkQueueDesc), Then(Brief(BlkQueueAvail), Brief(BlkQueueUsed))), held);
  }

  lemma NotifyOrdered(how: Notify, held: set<Lock>)
    requires held == {GuestMem}
    ensures Ordered(NotifyCode(how), held)
  {
    hide Ordered;
    TwoBrief(BlkQueueNum, BlkQueueReady, held);
    BriefOrdered(BlkQueueNum, held);
    SetupOrdered(held);
    if how.Drained? {
      var inner := held + {BlkLastAvail};
      var disk, done := Repeat(how.transfers, Brief(BlkDisk)), When(how.done, Brief(BlkInterrupt));
      BriefOrdered(BlkDisk, inner);
      RepeatOrdered(how.transfers, Brief(BlkDisk), inner);
      BriefOrdered(BlkInterrupt, inner);
      SkipOrdered(inner);
      BothOrdered(disk, done, inner);
      ScopeOrdered(BlkLastAvail, Then(disk, done), held, inner);
      BothOrdered(SetupCode(), Holding(BlkLastAvail, Then(disk, done)), held);
    }
  }

  lemma SkipOrdered(held: set<Lock>)
    ensures Ordered(Skip, held)
  {
  }

  lemma BlkWriteOrdered(what: BlkWrite, held: set<Lock>)
    requires what.Register? ==> BlkRegister(what.lock)
    requires held == {GuestMem}
    ensures Ordered(BlkWriteCode(what), held)
  {
    hide Ordered;
    SkipOrdered(held);
    match what
    case Ignored =>
    case Register(l) => BriefOrdered(l, held);
    case DriverFeatures => TwoBrief(BlkFeaturesSel, BlkDriverFeatures, held);
    case Notified(how) => NotifyOrdered(how, held);
    case Status(reset) =>
      TwoBrief(BlkStatus, BlkStatus, held);
      TwoBrief(BlkQueueReady, BlkLastAvail, held);
      BothOrdered(Then(Brief(BlkStatus), Brief(BlkStatus)), When(reset, Then(Brief(BlkQueueReady), Brief(BlkLastAvail))), held);
  }

  lemma NetWriteOrdered(what: NetWrite, held: set<Lock>)
    requires what.OneRegister? ==> NetRegister(what.lock)
    requires held == {NetDev}
    ensures Ordered(NetWriteCode(what), held)
  {
    hide Ordered;
    SkipOrdered(held);
    match what
    case NoLock =>
    case OneRegister(l) => BriefOrdered(l, held);
    case Features => TwoBrief(NetDriverSel, NetDriverFeatures, held);
    case QueueRegister(selected) =>
      BriefOrdered(NetQueueSel, held);
      BriefOrdered(NetQueues, held);
      BothOrdered(Brief(NetQueueSel), When(selected, Brief(NetQueues)), held);
    case DeviceStatus(reset) =>
      var inner := held + {NetQueues};
      BriefOrdered(NetQueueSel, inner);
      ScopeOrdered(NetQueues, Brief(NetQueueSel), held, inner);
      BriefOrdered(NetStatus, held);
      BothOrdered(Brief(NetStatus), Holding(NetQueues, Brief(NetQueueSel)), held);
      BothOrdered(Brief(NetStatus), When(reset, Then(Brief(NetStatus), Holding(NetQueues, Brief(NetQueueSel)))), held);
  }

  lemma ReceiveOrdered(rx: Receive, held: set<Lock>)
    requires held == {GuestMem, NetDev}
    ensures Ordered(ReceiveCode(rx), held)
  {
    hide Ordered;
    var tap := held + {NetTap};
    var queues := tap + {NetQueues};
    var body := When(rx.Delivered?, Brief(NetInterrupt));
    SkipOrdered(queues);
    SkipOrdered(tap);
    BriefOrdered(NetInterrupt, queues);
    ScopeOrdered(NetQueues, body, tap, queues);
    ScopeOrdered(NetTap, When(!rx.NoTap?, Holding(NetQueues, body)), held, tap);
  }

  lemma TransmitOrdered(up: bool, consumed: nat, held: set<Lock>)
    requires held == {GuestMem, NetDev}
    ensures Ordered(TransmitCode(up, consumed), held)
  {
    hide Ordered;
    var tap := held + {NetTap};
    var queues := tap + {NetQueues};
    var body := Repeat(consumed, Brief(NetInterrupt));
    SkipOrdered(tap);
    BriefOrdered(NetInterrupt, queues);
    RepeatOrdered(consumed, Brief(NetInterrupt), queues);
    ScopeOrdered(NetQueues, body, tap, queues);
    ScopeOrdered(NetTap, When(up, Holding(NetQueues, body)), held, tap);
  }

  lemma PollOrdered(rx: Receive, up: bool, consumed: nat, work: bool, irq: bool)
    ensures Ordered(TurnCode(PollNet(rx, up, consumed, work, irq)), {})
  {
    hide Ordered, ReceiveCode, TransmitCode;
    var held := {GuestMem, NetDev};
    ReceiveOrdered(rx, held);
    TransmitOrdered(up, consumed, held);
    SkipOrdered(held);
    BriefOrdered(NetInterrupt, held);
    BriefOrdered(VmFd, held);
    var both, after := Then(ReceiveCode(rx), TransmitCode(up, consumed)), Then(Brief(NetInterrupt), When(irq, Brief(VmFd)));
    BothOrdered(ReceiveCode(rx), TransmitCode(up, consumed), held);
    BothOrdered(Brief(NetInterrupt), When(irq, Brief(VmFd)), held);
    BothOrdered(both, When(work, after), held);
    TryOrdered(NetDev, Then(both, When(work, after)), {GuestMem}, held);
    TryOrdered(GuestMem, Trying(NetDev, Then(both, When(work, after))), {}, {GuestMem});
  }

  lemma TryOrdered(l: Lock, body: Code, held: set<Lock>, inner: set<Lock>)
    requires l !in held && Under(l) <= held && inner == held + {l} && Ordered(body, inner)
    ensures Ordered(Trying(l, body), held)
  {
  }

  lemma ReadNetOrdered(l: Option<Lock>, queueReady: bool)
    requires l.Some? ==> NetRegister(l.value)
    ensures Ordered(TurnCode(ReadNet(l, queueReady)), {})
  {
    hide Ordered;
    SkipOrdered({NetDev});
    TwoBrief(NetQueueSel, NetQueues, {NetDev});
    if l.Some? {
      BriefOrdered(l.value, {NetDev});
    }
    ScopeOrdered(NetDev, TurnCode(ReadNet(l, queueReady)).body, {}, {NetDev});
  }

  lemma WriteNetOrdered(what: NetWrite, irq: bool)
    requires what.OneRegister? ==> NetRegister(what.lock)
    ensures Ordered(TurnCode(WriteNet(what, irq)), {})
  {
    hide Ordered, NetWriteCode, NetRegister;
    SkipOrdered({NetDev});
    NetWriteOrdered(what, {NetDev});
    BriefOrdered(VmFd, {NetDev});
    BothOrdered(NetWriteCode(what), When(irq, Brief(VmFd)), {NetDev});
    ScopeOrdered(NetDev, TurnCode(WriteNet(what, irq)).body, {}, {NetDev});
  }

  lemma WriteBlkOrdered(what: BlkWrite, irq: bool)
    requires what.Register? ==> BlkRegister(what.lock)
    ensures Ordered(TurnCode(WriteBlk(what, irq)), {})
  {
    hide Ordered, BlkWriteCode, BlkRegister;
    SkipOrdered({});
    BriefOrdered(VmFd, {});
    BlkWriteOrdered(what, {GuestMem});
    ScopeOrdered(GuestMem, BlkWriteCode(what), {}, {GuestMem});
    BothOrdered(Holding(GuestMem, BlkWriteCode(what)), When(irq, Brief(VmFd)), {});
  }

  /** Every turn of the run loop acquires upwards. */
  lemma TurnOrdered(turn: Turn)
    requires Possible(turn)
    ensures Ordered(TurnCode(turn), {})
  {
    hide Ordered;
    match turn
    case NoDevice => SkipOrdered({});
    case ReadBlk(l) =>
      SkipOrdered({});
      if l.Some? {
        BriefOrdered(l.value, {});
      }
    case WriteBlk(what, irq) => WriteBlkOrdered(what, irq);
    case ReadNet(l, queueReady) => ReadNetOrdered(l, queueReady);
    case WriteNet(what, irq) => WriteNetOrdered(what, irq);
    case PollNet(rx, up, consumed, work, irq) => PollOrdered(rx, up, consumed, work, irq);
  }

  // ---- Threads ----

  /** What is left of a turn: code still to run, and guards still to drop. */
  datatype Act = Do(code: Code) | Drop(lock: Lock)

  datatype Thread = Thread(held: set<Lock>, rest: seq<Act>)

  predicate Free(ts: seq<Thread>, l: Lock) {
    forall u :: 0 <= u < |ts| ==> l !in ts[u].held
  }

  /** Thread `t` waits for `l`, which some thread holds. */
  predicate Blocked(ts: seq<Thread>, t: nat) {
    t < |ts| && ts[t].rest != [] && ts[t].rest[0].Do? && ts[t].rest[0].code.Holding? && !Free(ts, ts[t].rest[0].code.lock)
  }

  /** One step of thread `t`: begin any possible turn, or carry on with the current one. */
  ghost predicate StepOf(ts: seq<Thread>, ts': seq<Thread>, t: nat, turn: Turn) {
    && t < |ts| && !Blocked(ts, t) && Possible(turn)
    && ts' == ts[t := if ts[t].rest == [] then Thread(ts[t].held, [Do(TurnCode(turn))]) else Continue(ts, ts[t])]
  }

  ghost predicate Next(ts: seq<Thread>, ts': seq<Thread>) {
    exists t, turn :: StepOf(ts, ts', t, turn)
  }

  function Continue(ts: seq<Thread>, th: Thread): Thread
    requires th.rest != []
  {
    var tail := th.rest[1..];
    match th.rest[0]
    case Drop(l) => Thread(th.held - {l}, tail)
    case Do(Skip) => Thread(th.held, tail)
    case Do(Then(a, b)) => Thread(th.held, [Do(a), Do(b)] + tail)
    case Do(Holding(l, body)) => Thread(th.held + {l}, [Do(body), Drop(l)] + tail)
    case Do(Trying(l, body)) =>
      if Free(ts, l) then Thread(th.held + {l}, [Do(body), Drop(l)] + tail) else Thread(th.held, tail)
  }

  // ---- The invariant ----

  predicate StackOrdered(rest: seq<Act>, held: set<Lock>) {
    Nested(held) &&
    if rest == [] then held == {}
    else
      match rest[0]
      case Do(c) => Ordered(c, held) && StackOrdered(rest[1..], held)
      case Drop(l) => l in held && StackOrdered(rest[1..], held - {l})
  }

  ghost predicate Inv(ts: seq<Thread>) {
    && (forall t :: 0 <= t < |ts| ==> StackOrdered(ts[t].rest, ts[t].held))
    && (forall t, u :: 0 <= t < u < |ts| ==> ts[t].held !! ts[u].held)
  }

  lemma StackStart(c: Code)
    requires Ordered(c, {})
    ensures StackOrdered([Do(c)], {})
  {
    assert [Do(c)][1..] == [];
  }

  lemma StackPush(l: Lock, body: Code, tail: seq<Act>, held: set<Lock>)
    requires l !in held && Under(l) <= held && Ordered(body, held + {l}) && StackOrdered(tail, held)
    ensures StackOrdered([Do(body), Drop(l)] + tail, held + {l})
  {
    var s := [Do(body), Drop(l)] + tail;
    assert s[1..] == [Drop(l)] + tail;
    assert s[1..][1..] == tail;
    assert held + {l} - {l} == held;
  }

  lemma ContinueOrdered(ts: seq<Thread>, th: Thread)
    requires th.rest != [] && StackOrdered(th.rest, th.held)
    ensures StackOrdered(Continue(ts, th).rest, Continue(ts, th).held)
  {
    var tail := th.rest[1..];
    match th.rest[0]
    case Do(Then(a, b)) =>
      var s := [Do(a), Do(b)] + tail;
      assert s[1..] == [Do(b)] + tail && s[1..][1..] == tail;
    case Do(Holding(l, body)) => StackPush(l, body, tail, th.held);
    case Do(Trying(l, body)) => StackPush(l, body, tail, th.held);
    case _ =>
  }

  lemma InvStep(ts: seq<Thread>, ts': seq<Thread>)
    requires Inv(ts) && Next(ts, ts')
    ensures Inv(ts')
  {
    hide TurnCode, Possible;
    var t: nat, turn: Turn :| StepOf(ts, ts', t, turn);
    if ts[t].rest == [] {
      TurnOrdered(turn);
      StackStart(TurnCode(turn));
    } else {
      ContinueOrdered(ts, ts[t]);
    }
  }

  ghost predicate Run(run: seq<seq<Thread>>) {
    && |run| > 0
    && (forall t :: 0 <= t < |run[0]| ==> run[0][t] == Thread({}, []))
    && forall i :: 0 <= i < |run| - 1 ==> Next(run[i], run[i + 1])
  }

  lemma {:induction false} InvRun(run: seq<seq<Thread>>, i: nat)
    requires Run(run) && i < |run|
    ensures Inv(run[i])
  {
    if i > 0 {
      hide Next;
      InvRun(run, i - 1);
      assert Next(run[i - 1], run[i - 1 + 1]);
      InvStep(run[i - 1], run[i]);
    }
  }

  /** In every state of every run: a thread inside the drain of a notify, which holds the device
      cursor and maybe the disk, holds guest memory, so no other thread is in one; and a thread
      that uses the network device's queues, its TAP or its registers holds the device. */
  lemma NotifyHoldsMemory(run: seq<seq<Thread>>, i: nat, t: nat)
    requires Run(run) && i < |run| && t < |run[i]|
    ensures var held := run[i][t].held;
            && (BlkDisk in held ==> BlkLastAvail in held)
            && (BlkLastAvail in held ==> GuestMem in held)
            && (NetTap in held ==> GuestMem in held && NetDev in held)
            && (NetQueues in held || NetInterrupt in held ==> NetDev in held)
            && (GuestMem in held ==> forall u :: 0 <= u < |run[i]| && u != t ==>
                 GuestMem !in run[i][u].held && BlkLastAvail !in run[i][u].held && NetTap !in run[i][u].held)
  {
    InvRun(run, i);
    forall u | 0 <= u < |run[i]|
      ensures Nested(run[i][u].held)
    {
      assert StackOrdered(run[i][u].rest, run[i][u].held);
    }
    if GuestMem in run[i][t].held {
      forall u | 0 <= u < |run[i]| && u != t
        ensures GuestMem !in run[i][u].held && BlkLastAvail !in run[i][u].held && NetTap !in run[i][u].held
      {
        assert Under(BlkLastAvail) == {GuestMem} && GuestMem in Under(NetTap);
        assert if t < u then run[i][t].held !! run[i][u].held else run[i][u].held !! run[i][t].held;
      }
    }
  }

  // ---- No deadlock ----

  ghost predicate WaitsFor(ts: seq<Thread>, t: nat, u: nat) {
    Blocked(ts, t) && u < |ts| && ts[t].rest[0].code.lock in ts[u].held
  }

  function Wanted(ts: seq<Thread>, t: nat): Lock
    requires Blocked(ts, t)
  {
    ts[t].rest[0].code.lock
  }

  /** Whoever waits for a waiting thread wants a lower lock. */
  lemma WaitsUpwards(ts: seq<Thread>, t: nat, u: nat)
    requires Inv(ts) && WaitsFor(ts, t, u) && Blocked(ts, u)
    ensures Rank(Wanted(ts, t)) < Rank(Wanted(ts, u))
  {
  }

  ghost predicate WaitPath(ts: seq<Thread>, path: seq<nat>) {
    |path| > 0 && forall i :: 0 <= i < |path| - 1 ==> WaitsFor(ts, path[i], path[i + 1])
  }

  lemma {:induction false} PathClimbs(ts: seq<Thread>, path: seq<nat>)
    requires Inv(ts) && WaitPath(ts, path) && |path| >= 2 && Blocked(ts, path[|path| - 1])
    ensures Blocked(ts, path[0]) && Rank(Wanted(ts, path[0])) < Rank(Wanted(ts, path[|path| - 1]))
    decreases |path|
  {
    assert WaitsFor(ts, path[0], path[1]);
    if |path| > 2 {
      assert WaitPath(ts, path[1..]);
      PathClimbs(ts, path[1..]);
    }
    WaitsUpwards(ts, path[0], path[1]);
  }

  /** In every state of every run of any number of threads, no chain of waiting threads comes
      back to where it began. */
  lemma NoWaitCycle(run: seq<seq<Thread>>, i: nat, path: seq<nat>)
    requires Run(run) && i < |run|
    requires WaitPath(run[i], path) && |path| >= 2
    ensures path[0] != path[|path| - 1]
  {
    InvRun(run, i);
    if path[0] == path[|path| - 1] {
      assert WaitsFor(run[i], path[0], path[1]);
      PathClimbs(run[i], path);
    }
  }

  /** From any thread, following who it waits for, one comes to a thread that can step. */
  lemma {:induction false} ChainReachesStep(ts: seq<Thread>, t: nat) returns (path: seq<nat>)
    requires Inv(ts) && t < |ts|
    ensures WaitPath(ts, path) && path[0] == t
    ensures path[|path| - 1] < |ts| && !Blocked(ts, path[|path| - 1])
    decreases if Blocked(ts, t) then 6 - Rank(Wanted(ts, t)) else 0
  {
    path := [t];
    if Blocked(ts, t) {
      var l := Wanted(ts, t);
      var u :| 0 <= u < |ts| && l in ts[u].held;
      assert WaitsFor(ts, t, u);
      if Blocked(ts, u) {
        WaitsUpwards(ts, t, u);
      }
      var rest := ChainReachesStep(ts, u);
      path := [t] + rest;
    }
  }

  /** So some thread can always step. */
  lemma NoDeadlock(run: seq<seq<Thread>>, i: nat)
    requires Run(run) && i < |run| && |run[i]| > 0
    ensures exists ts' :: Next(run[i], ts')
  {
    InvRun(run, i);
    var ts := run[i];
    var path := ChainReachesStep(ts, 0);
    var t := path[|path| - 1];
    var th := if ts[t].rest == [] then Thread(ts[t].held, [Do(TurnCode(NoDevice))]) else Continue(ts, ts[t]);
    assert StepOf(ts, ts[t := th], t, NoDevice);
    assert Next(ts, ts[t := th]);
  }
}
