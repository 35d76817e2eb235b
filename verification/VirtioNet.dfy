/** The VirtIO network device: its queues and registers. The methods are the device's own loops
    and updates; `NetQueue` says what they compute. */
module VirtioNetDevice {
  import opened Bytes
  import opened Memory
  import opened Ring
  import opened Registers
  import opened NetQueue

  class VirtQueue {
    var descAddr: u64
    var availAddr: u64
    var usedAddr: u64
    var queueSize: u16
    var ready: bool
    var lastAvailIdx: u16

    function View(): Queue
      reads this
    {
      Queue(Geometry(queueSize, descAddr, availAddr, usedAddr), ready, lastAvailIdx)
    }

    constructor ()
      ensures View() == FRESH
    {
      descAddr, availAddr, usedAddr := 0, 0, 0;
      queueSize, ready, lastAvailIdx := 0, false, 0;
    }

    method Reset()
      modifies this
      ensures View() == FRESH
    {
      descAddr, availAddr, usedAddr := 0, 0, 0;
      queueSize, ready, lastAvailIdx := 0, false, 0;
    }

    function AvailIdx(mem: array<byte>): (idx: u16)
      requires QueueFits(View().geo)
      reads this, mem
      ensures idx == AvailableIdx(View(), mem[..])
    {
      var idxAddr := availAddr + 2;
      if !Passes(idxAddr, 2, mem.Length) then 0 else WordIn(mem, idxAddr)
    }

    function GetAvailDescIdx(mem: array<byte>): (head: Option<u16>)
      requires queueSize > 0 && QueueFits(View().geo)
      reads this, mem
      ensures head == NextHead(View(), mem[..])
    {
      if lastAvailIdx == AvailIdx(mem) then None
      else
        hide Slot, AvailableIdx, Passes, QueueFits, Word16;
        SlotIsRemainder(lastAvailIdx, queueSize);
        AvailFits(View().geo, lastAvailIdx);
        PassesIfFits(AvailSlot(View().geo, lastAvailIdx), 2, mem.Length);
        var addr := availAddr + 4 + (lastAvailIdx % queueSize) * 2;
        if !Passes(addr, 2, mem.Length) then None else Some(WordIn(mem, addr))
    }

    static function WordIn(mem: array<byte>, at: nat): (w: u16)
      requires at + 2 <= mem.Length
      reads mem
      ensures w == Word16(mem[..], at)
    {
      Word16(mem[at..at + 2], 0)
    }

    function ReadDescriptor(mem: array<byte>, idx: u16): (d: Option<Desc>)
      requires QueueFits(View().geo)
      reads this, mem
      ensures d == ReadDesc(mem[..], descAddr, idx)
    {
      var off: nat := descAddr + 16 * (idx as nat);
      if !Passes(off, 16, mem.Length) then None
      else
        hide ReadDesc, DescOf;
        DescOfSlice(mem[..], descAddr, idx);
        assert mem[..][off..off + 16] == mem[off..off + 16];
        Some(DescOf(mem[off..off + 16]))
    }

    method AddUsed(mem: array<byte>, head: u16, len: u32)
      requires queueSize > 0 && QueueFits(View().geo)
      modifies mem, this`lastAvailIdx
      ensures Ringed(View(), mem[..]) == NetQueue.AddUsed(old(View()), old(mem[..]), head, len)
    {
      hide Store, Slot, Bytes16, Bytes32, Wrap, Passes, QueueFits;
      SlotIsRemainder(lastAvailIdx, queueSize);
      UsedFits(View().geo, lastAvailIdx);
      PassesIfFits(UsedSlot(View().geo, lastAvailIdx), 8, mem.Length);
      PassesIfFits(usedAddr + 2, 2, mem.Length);
      var addr := usedAddr + 4 + (lastAvailIdx % queueSize) * 8;
      assert addr == UsedSlot(View().geo, lastAvailIdx);
      if !Passes(addr, 8, mem.Length) {
        return;
      }
      Poke(mem, addr, Bytes32(head) + Bytes32(len));
      lastAvailIdx := Wrap(lastAvailIdx + 1);
      var idxAddr := usedAddr + 2;
      if Passes(idxAddr, 2, mem.Length) {
        Poke(mem, idxAddr, Bytes16(lastAvailIdx));
      }
    }
  }

  const MAGIC_VALUE: u64 := 0x000
  const VERSION: u64 := 0x004
  const DEVICE_ID: u64 := 0x008
  const VENDOR_ID: u64 := 0x00c
  const DEVICE_FEATURES: u64 := 0x010
  const DEVICE_FEATURES_SEL: u64 := 0x014
  const DRIVER_FEATURES: u64 := 0x020
  const DRIVER_FEATURES_SEL: u64 := 0x024
  const QUEUE_SEL: u64 := 0x030
  const QUEUE_NUM_MAX: u64 := 0x034
  const QUEUE_NUM: u64 := 0x038
  const QUEUE_READY: u64 := 0x044
  const INTERRUPT_STATUS: u64 := 0x060
  const INTERRUPT_ACK: u64 := 0x064
  const STATUS: u64 := 0x070
  const QUEUE_DESC_LOW: u64 := 0x080
  const QUEUE_DESC_HIGH: u64 := 0x084
  const QUEUE_AVAIL_LOW: u64 := 0x090
  const QUEUE_AVAIL_HIGH: u64 := 0x094
  const QUEUE_USED_LOW: u64 := 0x0a0
  const QUEUE_USED_HIGH: u64 := 0x0a4
  const CONFIG_SPACE: u64 := 0x100

  /** The register file. */
  datatype Regs = Regs(status: u32, deviceSel: u32, driverSel: u32, driverFeatures: u64,
                       queueSel: u32, rx: Queue, tx: Queue, interruptStatus: u32)

  const POWER_ON := Regs(0, 0, 0, 0, 0, FRESH, FRESH, 0)

  /** A register write to the selected queue. */
  function SetQueue(q: Queue, offset: u64, val: u32): Queue {
    var g := q.geo;
    if offset == QUEUE_NUM then q.(geo := g.(size := val % 0x1_0000))
    else if offset == QUEUE_READY then q.(ready := val % 2 == 1)
    else if offset == QUEUE_DESC_LOW then q.(geo := g.(desc := WithLow(g.desc, val)))
    else if offset == QUEUE_DESC_HIGH then q.(geo := g.(desc := WithHigh(g.desc, val)))
    else if offset == QUEUE_AVAIL_LOW then q.(geo := g.(avail := WithLow(g.avail, val)))
    else if offset == QUEUE_AVAIL_HIGH then q.(geo := g.(avail := WithHigh(g.avail, val)))
    else if offset == QUEUE_USED_LOW then q.(geo := g.(used := WithLow(g.used, val)))
    else if offset == QUEUE_USED_HIGH then q.(geo := g.(used := WithHigh(g.used, val)))
    else q
  }

  function WriteReg(r: Regs, offset: u64, val: u32): Regs {
    if offset == DEVICE_FEATURES_SEL then r.(deviceSel := val)
    else if offset == DRIVER_FEATURES_SEL then r.(driverSel := val)
    else if offset == DRIVER_FEATURES then
      if r.driverSel == 0 then r.(driverFeatures := WithLow(r.driverFeatures, val))
      else r.(driverFeatures := WithHigh(r.driverFeatures, val))
    else if offset == QUEUE_SEL then r.(queueSel := val)
    else if offset == STATUS then
      if val == 0 then r.(status := 0, queueSel := 0, rx := FRESH, tx := FRESH) else r.(status := val)
    else if offset == INTERRUPT_ACK then r.(interruptStatus := AndNot(r.interruptStatus, val))
    else if r.queueSel == 0 then r.(rx := SetQueue(r.rx, offset, val))
    else if r.queueSel == 1 then r.(tx := SetQueue(r.tx, offset, val))
    else r
  }

  /** Writes of 1, 2 or 4 bytes are register writes; any other width is an error. */
  function WriteValue(data: seq<byte>): Option<u32> {
    if |data| == 1 then Some(data[0])
    else if |data| == 2 then Some(Word16(data, 0))
    else if |data| == 4 then Some(Word32(data, 0))
    else None
  }

  const MAC_FEATURE: u64 := 0x20
  const VERSION_1_HIGH: u64 := 1

  /** The value of a register outside the configuration space. */
  function ReadReg(r: Regs, offset: u64): u64 {
    if offset == MAGIC_VALUE then 0x74726976
    else if offset == VERSION then 2
    else if offset == DEVICE_ID then 1
    else if offset == VENDOR_ID then 0x1AF4
    else if offset == DEVICE_FEATURES then
      if r.deviceSel == 0 then MAC_FEATURE else if r.deviceSel == 1 then VERSION_1_HIGH else 0
    else if offset == QUEUE_NUM_MAX then 256
    else if offset == QUEUE_READY then
      if (r.queueSel == 0 && r.rx.ready) || (r.queueSel == 1 && r.tx.ready) then 1 else 0
    else if offset == INTERRUPT_STATUS then r.interruptStatus
    else if offset == STATUS then r.status
    else 0
  }

  /** Byte `i` of a read at `offset`. */
  function ReadByte(r: Regs, mac: seq<byte>, offset: u64, i: nat): byte
    requires |mac| == 6 && i < 8
  {
    if 0x100 <= offset < 0x106 then MacAt(mac, offset - 0x100 + i)
    else Bytes64(ReadReg(r, offset))[i]
  }

  function MacAt(mac: seq<byte>, k: nat): byte
    requires |mac| == 6
  {
    if k < 6 then mac[k] else 0
  }

  /** The eight bytes of a configuration read of `width` bytes at `idx`. */
  function MacBytes(mac: seq<byte>, idx: nat, width: nat): (s: seq<byte>)
    requires |mac| == 6 && idx < 6
    ensures |s| == 8
  {
    Padded(mac[idx..idx + if width < 6 - idx then width else 6 - idx])
  }

  function Padded(s: seq<byte>): (p: seq<byte>)
    requires |s| <= 8
    ensures |p| == 8
  {
    s + Zeros(8 - |s|)
  }

  /** `b << 8 * k` */
  function Shifted(b: byte, k: nat): nat {
    if k == 0 then b else 0x100 * Shifted(b, k - 1)
  }

  /** The little-endian value of any number of bytes. */
  function Value(s: seq<byte>): nat {
    if s == [] then 0 else (s[0] as int) + 0x100 * Value(s[1..])
  }

  lemma {:induction false} ValueGrows(s: seq<byte>, b: byte)
    ensures Value(s + [b]) == Value(s) + Shifted(b, |s|)
  {
    if s == [] {
      assert (s + [b])[1..] == [];
    } else {
      assert (s + [b])[1..] == s[1..] + [b];
      ValueGrows(s[1..], b);
    }
  }

  lemma {:induction false} ValueWithZeros(s: seq<byte>, n: nat)
    ensures Value(s + Zeros(n)) == Value(s)
  {
    if n == 0 {
      assert s + Zeros(0) == s;
    } else {
      assert s + Zeros(n) == (s + Zeros(n - 1)) + [0];
      ValueWithZeros(s, n - 1);
      ValueGrows(s + Zeros(n - 1), 0);
      NothingShifted(|s| + (n - 1));
    }
  }

  lemma {:induction false} NothingShifted(k: nat)
    ensures Shifted(0, k) == 0
  {
    if k > 0 {
      NothingShifted(k - 1);
    }
  }

  lemma ValueOfNone(s: seq<byte>)
    requires s == []
    ensures Value(s) == 0
  {
  }

  lemma ValueOfTwo(s: seq<byte>)
    requires |s| >= 2
    ensures Value(s) == Word16(s, 0) + 0x1_0000 * Value(s[2..])
  {
    assert s[1..][1..] == s[2..];
  }

  lemma ValueOfFour(s: seq<byte>)
    requires |s| >= 4
    ensures Value(s) == Word32(s, 0) + 0x1_0000_0000 * Value(s[4..])
  {
    hide Value;
    ValueOfTwo(s);
    ValueOfTwo(s[2..]);
    assert s[2..][2..] == s[4..];
  }

  lemma ValueOfEight(s: seq<byte>)
    requires |s| == 8
    ensures Value(s) == Word64(s, 0)
  {
    ValueOfFour(s);
    ValueOfFour(s[4..]);
    assert s[4..][4..] == [];
    assert Word32(s[4..], 0) == Word32(s, 4);
  }

  lemma SliceGrows(s: seq<byte>, from: nat, to: nat)
    requires from <= to < |s|
    ensures s[from..to] + [s[to]] == s[from..to + 1]
  {
  }

  /** At most eight bytes: their value is a 64-bit word, whose bytes they are, filled up with zeros. */
  lemma ValueBytes(s: seq<byte>)
    requires |s| <= 8
    ensures Value(s) < TWO_TO_64 && Bytes64(Value(s)) == Padded(s)
  {
    hide Value, Word64, Bytes64;
    ValueWithZeros(s, 8 - |s|);
    ValueOfEight(Padded(s));
    WordsAreBytes(Padded(s));
  }

  lemma WordsAreBytes(s: seq<byte>)
    requires |s| == 8
    ensures Bytes64(Word64(s, 0)) == s
  {
    hide Word32, Bytes32;
    Bytes32OfWord(s, 0);
    Bytes32OfWord(s, 4);
  }

  /** The width of a read does not matter to the bytes it returns: within the width they are the
      MAC from `idx` on, and zero past its end. */
  lemma MacByte(mac: seq<byte>, idx: nat, width: nat)
    requires |mac| == 6 && idx < 6
    ensures forall i :: 0 <= i < width && i < 8 ==> MacBytes(mac, idx, width)[i] == MacAt(mac, idx + i)
  {
  }

  class VirtioNet {
    // The TAP: whether there is one, the frames waiting in it, and the frames offered to it so
    // far with its answers, which are its own to choose.
    var tapUp: bool
    var incoming: seq<seq<byte>>
    var offered: seq<seq<byte>>
    var answers: seq<bool>

    const mac: seq<byte> := [0x52, 0x54, 0x00, 0x12, 0x34, 0x56]

    var status: u32
    var deviceSel: u32
    var driverSel: u32
    var driverFeatures: u64
    var queueSel: u32
    const rx: VirtQueue
    const tx: VirtQueue
    var interruptStatus: u32

    ghost predicate Valid() {
      rx != tx
    }

    function Registers(): Regs
      reads this, rx, tx
    {
      Regs(status, deviceSel, driverSel, driverFeatures, queueSel, rx.View(), tx.View(), interruptStatus)
    }

    constructor (tap: bool)
      ensures Valid() && Registers() == POWER_ON && fresh(rx) && fresh(tx)
      ensures tapUp == tap && incoming == [] && offered == [] && answers == []
    {
      tapUp, incoming, offered, answers := tap, [], [], [];
      status, deviceSel, driverSel, driverFeatures, queueSel := 0, 0, 0, 0, 0;
      interruptStatus := 0;
      var r := new VirtQueue();
      var t := new VirtQueue();
      rx, tx := r, t;
    }

    // ---- Data plane ----

    /** At most one frame from the TAP into the buffer at the receive cursor. */
    method ProcessRx(mem: array<byte>) returns (irq: bool)
      requires Valid() && (rx.ready ==> rx.queueSize > 0)
      requires tapUp && rx.ready ==> RxFits(rx.View(), mem[..])
      modifies this`incoming, this`interruptStatus, rx`lastAvailIdx, mem
      ensures !tapUp ==> !irq && mem[..] == old(mem[..]) && rx.View() == old(rx.View()) && incoming == old(incoming)
      ensures tapUp ==> Rx(rx.View(), mem[..], incoming, irq) == RxOne(old(rx.View()), old(mem[..]), old(incoming))
      ensures interruptStatus == if irq then SetBit0(old(interruptStatus)) else old(interruptStatus)
    {
      hide NetQueue.AddUsed, NextHead, ReadDesc, Store, RxFits, QueueFits, Fits, Cut, Zeros;
      if !tapUp || !rx.ready {
        return false;
      }
      FitsQueue(rx.View(), mem[..]);
      var head := rx.GetAvailDescIdx(mem);
      if head.None? {
        return false;
      }
      var desc := rx.ReadDescriptor(mem, head.value);
      if desc.None? || incoming == [] {
        return false;
      }
      var packet := Cut(incoming[0]);
      RxFitsFrame(rx.View(), mem[..], incoming[0]);
      incoming := incoming[1..];
      irq := Deliver(mem, head.value, desc.value, packet);
      if irq {
        interruptStatus := SetBit0(interruptStatus);
      }
    }

    /** Puts a packet behind an empty header in the buffer of a descriptor, if it fits, and
        completes the buffer. */
    method Deliver(mem: array<byte>, head: u16, desc: Desc, packet: seq<byte>) returns (kept: bool)
      requires rx.queueSize > 0 && QueueFits(rx.View().geo) && |packet| <= MAX_FRAME
      requires NoWrap(Region(desc.addr, HDR_LEN + |packet|))
      modifies rx`lastAvailIdx, mem
      ensures kept <==> Fits(old(mem[..]), desc, packet)
      ensures Ringed(rx.View(), mem[..]) ==
        if kept then
          NetQueue.AddUsed(old(rx.View()), Store(old(mem[..]), desc.addr, Zeros(HDR_LEN) + packet), head, |packet| + HDR_LEN)
        else Ringed(old(rx.View()), old(mem[..]))
    {
      hide NetQueue.AddUsed, Store, QueueFits, Zeros;
      var n, addr := |packet|, desc.addr;
      if n == 0 || n + HDR_LEN > desc.len || !Passes(addr, HDR_LEN + n, mem.Length) {
        return false;
      }
      Poke(mem, addr, Zeros(HDR_LEN) + packet);
      rx.AddUsed(mem, head, n + HDR_LEN);
      return true;
    }

    ghost function Transmitting(mem: array<byte>): Tx
      reads this, tx, mem
    {
      Tx(tx.View(), mem[..], offered)
    }

    /** Offers every pending transmit buffer to the TAP. `work` says whether it took any. The loop
        must be one that ends (`NetTransmit.TxEndsIff` says which do). */
    method ProcessTx(mem: array<byte>) returns (work: bool)
      requires Valid()
      requires tapUp && tx.ready ==> tx.queueSize > 0 && Ends(Transmitting(mem)) && TxFits(Transmitting(mem))
      modifies this`offered, this`answers, this`interruptStatus, tx`lastAvailIdx, mem
      ensures !(tapUp && tx.ready) ==>
        !work && mem[..] == old(mem[..]) && tx.View() == old(tx.View()) && offered == old(offered)
      ensures tapUp && tx.ready ==> StopsAt(old(Transmitting(mem)), Transmitting(mem))
      ensures tapUp && tx.ready && Separate(tx.View()) ==> TxDrain(old(Transmitting(mem))) == Some(Transmitting(mem))
      ensures old(answers) <= answers && |answers| - |old(answers)| == |offered| - |old(offered)|
      ensures work <==> AnyAccepted(answers, |old(answers)|)
      ensures interruptStatus ==
        if tapUp && tx.ready && CanTurn(old(Transmitting(mem))) then SetBit0(old(interruptStatus))
        else old(interruptStatus)
    {
      hide SetBit0, TxDrain, QueueFits, CanTurn, Turn, BufferFits;
      work := false;
      if !tapUp || !tx.ready {
        return;
      }
      ghost var start, n: nat := Transmitting(mem), 0;
      ghost var limit: nat :| Turns(start, limit).None?;
      while true
        invariant tx.queueSize > 0 && Turns(start, n) == Some(Transmitting(mem)) && n <= limit
        invariant old(answers) <= answers && |answers| - |old(answers)| == |offered| - |old(offered)|
        invariant work <==> AnyAccepted(answers, |old(answers)|)
        invariant n > 0 ==> CanTurn(start)
        invariant interruptStatus == if n > 0 then SetBit0(old(interruptStatus)) else old(interruptStatus)
        decreases limit - n
      {
        ghost var answered := answers;
        assert BufferFits(Turns(start, n).value);
        var turned, took := TransmitNext(mem);
        if !turned {
          break;
        }
        n := n + 1;
        TurnsBefore(start, n, limit);
        AcceptedStep(answered, |old(answers)|, took);
        work := work || took;
      }
      StopsInDrain(start, Transmitting(mem));
    }

    /** The body of the transmit loop, if there is a buffer with a descriptor to consume. */
    method TransmitNext(mem: array<byte>) returns (turned: bool, took: bool)
      requires Valid() && tx.queueSize > 0 && QueueFits(tx.View().geo) && BufferFits(Transmitting(mem))
      modifies this`offered, this`answers, this`interruptStatus, tx`lastAvailIdx, mem
      ensures turned <==> CanTurn(old(Transmitting(mem)))
      ensures Transmitting(mem) == if turned then Turn(old(Transmitting(mem))) else old(Transmitting(mem))
      ensures if offered == old(offered) then !took && answers == old(answers)
              else |offered| == |old(offered)| + 1 && answers == old(answers) + [took]
      ensures interruptStatus == if turned then SetBit0(old(interruptStatus)) else old(interruptStatus)
    {
      hide TxOne, NextHead, ReadDesc, SetBit0, QueueFits, CanTurn, Turn, BufferFits;
      var head := tx.GetAvailDescIdx(mem);
      if head.None? {
        NoTurn(Transmitting(mem));
        return false, false;
      }
      var desc := tx.ReadDescriptor(mem, head.value);
      if desc.None? {
        NoTurn(Transmitting(mem));
        return false, false;
      }
      TurnIs(Transmitting(mem), head.value, desc.value);
      took := TransmitOne(mem, head.value, desc.value);
      turned := true;
    }

    /** Offers one buffer to the TAP and completes it. */
    method TransmitOne(mem: array<byte>, head: u16, desc: Desc) returns (took: bool)
      requires Valid() && tx.queueSize > 0 && QueueFits(tx.View().geo) && NoWrap(Region(desc.addr, desc.len))
      modifies this`offered, this`answers, this`interruptStatus, tx`lastAvailIdx, mem
      ensures Tx(tx.View(), mem[..], offered) == TxOne(Tx(old(tx.View()), old(mem[..]), old(offered)), head, desc)
      ensures if offered == old(offered) then !took && answers == old(answers)
              else |offered| == |old(offered)| + 1 && answers == old(answers) + [took]
      ensures interruptStatus == SetBit0(old(interruptStatus))
    {
      hide NetQueue.AddUsed;
      took := false;
      if desc.len > HDR_LEN && Passes(desc.addr, desc.len, mem.Length) {
        var packet := mem[desc.addr + HDR_LEN..desc.addr + desc.len];
        offered := offered + [packet];
        took := *;
        answers := answers + [took];
      }
      tx.AddUsed(mem, head, 0);
      interruptStatus := SetBit0(interruptStatus);
    }

    // ---- Registers ----

    /** The bytes of the MAC from `idx` on, or-ed together at their places; as the places do not
        overlap, the or is a sum. */
    method ConfigValue(idx: nat, width: nat) returns (val: u64)
      requires idx < 6
      ensures Bytes64(val) == MacBytes(mac, idx, width)
    {
      hide Value, Bytes64, Padded, Shifted;
      var n := if width < 6 - idx then width else 6 - idx;
      val := 0;
      ValueOfNone(mac[idx..idx]);
      for i := 0 to n
        invariant val == Value(mac[idx..idx + i])
      {
        SliceGrows(mac, idx, idx + i);
        ValueGrows(mac[idx..idx + i], mac[idx + i]);
        ValueBytes(mac[idx..idx + i + 1]);
        val := val + Shifted(mac[idx + i], i);
      }
      ValueBytes(mac[idx..idx + n]);
    }

    /** A register read of any width; bytes past the eighth are left alone. In the MAC's window
        byte `i` is the MAC byte `i` further on, whatever the width. */
    method Read(offset: u64, data: array<byte>)
      modifies data
      ensures forall i :: 0 <= i < data.Length && i < 8 ==>
        data[i] == ReadByte(Registers(), [0x52, 0x54, 0x00, 0x12, 0x34, 0x56], offset, i)
      ensures forall i :: 8 <= i < data.Length ==> data[i] == old(data[i])
    {
      var val: u64;
      if CONFIG_SPACE <= offset < CONFIG_SPACE + 6 {
        val := ConfigValue(offset - CONFIG_SPACE, data.Length);
        MacByte(mac, offset - CONFIG_SPACE, data.Length);
      } else {
        val := ReadReg(Registers(), offset);
      }
      var bytes := Bytes64(val);
      forall i | 0 <= i < data.Length && i < 8 {
        data[i] := bytes[i];
      }
    }

    method Reset()
      requires Valid()
      modifies this`status, this`queueSel, rx, tx
      ensures Registers() == old(Registers()).(status := 0, queueSel := 0, rx := FRESH, tx := FRESH)
    {
      status := 0;
      rx.Reset();
      tx.Reset();
      queueSel := 0;
    }

    function Selected(): (q: VirtQueue?)
      reads this
    {
      if queueSel == 0 then rx else if queueSel == 1 then tx else null
    }

    method Write(offset: u64, data: seq<byte>) returns (ok: bool)
      requires Valid()
      modifies this`status, this`deviceSel, this`driverSel, this`driverFeatures, this`queueSel, this`interruptStatus, rx, tx
      ensures ok <==> WriteValue(data).Some?
      ensures Registers() == if ok then WriteReg(old(Registers()), offset, WriteValue(data).value) else old(Registers())
    {
      var parsed := WriteValue(data);
      if parsed.None? {
        return false;
      }
      var val := parsed.value;
      var q := Selected();
      if offset == DEVICE_FEATURES_SEL {
        deviceSel := val;
      } else if offset == DRIVER_FEATURES_SEL {
        driverSel := val;
      } else if offset == DRIVER_FEATURES {
        driverFeatures := if driverSel == 0 then WithLow(driverFeatures, val) else WithHigh(driverFeatures, val);
      } else if offset == QUEUE_SEL {
        queueSel := val;
      } else if offset == STATUS {
        status := val;
        if val == 0 {
          Reset();
        }
      } else if offset == INTERRUPT_ACK {
        interruptStatus := AndNot(interruptStatus, val);
      } else if q != null {
        if offset == QUEUE_NUM {
          q.queueSize := val % 0x1_0000;
        } else if offset == QUEUE_READY {
          q.ready := val % 2 == 1;
        } else if offset == QUEUE_DESC_LOW {
          q.descAddr := WithLow(q.descAddr, val);
        } else if offset == QUEUE_DESC_HIGH {
          q.descAddr := WithHigh(q.descAddr, val);
        } else if offset == QUEUE_AVAIL_LOW {
          q.availAddr := WithLow(q.availAddr, val);
        } else if offset == QUEUE_AVAIL_HIGH {
          q.availAddr := WithHigh(q.availAddr, val);
        } else if offset == QUEUE_USED_LOW {
          q.usedAddr := WithLow(q.usedAddr, val);
        } else if offset == QUEUE_USED_HIGH {
          q.usedAddr := WithHigh(q.usedAddr, val);
        }
      }
      return true;
    }
  }
}
