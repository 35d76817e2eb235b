/** The VirtIO block device: its registers and the queue engine that a notify runs. The methods
    are the device's loops; `BlockQueue` says what they compute. */
module VirtioBlockDevice {
  import opened Bytes
  import opened Memory
  import opened Ring
  import opened BlockQueue
  import opened Registers

  const FEATURES_SEL: u64 := 0x014
  const DRIVER_FEATURES: u64 := 0x020
  const DRIVER_FEATURES_SEL: u64 := 0x024
  const QUEUE_SEL: u64 := 0x030
  const QUEUE_NUM: u64 := 0x038
  const QUEUE_READY: u64 := 0x044
  const QUEUE_NOTIFY: u64 := 0x050
  const INTERRUPT_ACK: u64 := 0x064
  const STATUS: u64 := 0x070
  const QUEUE_DESC_LOW: u64 := 0x080
  const QUEUE_DESC_HIGH: u64 := 0x084
  const QUEUE_AVAIL_LOW: u64 := 0x090
  const QUEUE_AVAIL_HIGH: u64 := 0x094
  const QUEUE_USED_LOW: u64 := 0x0a0
  const QUEUE_USED_HIGH: u64 := 0x0a4

  /** The register file. */
  datatype Regs = Regs(status: u32, featuresSel: u32, driverFeatures: u64, interruptStatus: u32,
                       queueSel: u32, queueNum: u32, queueReady: u32,
                       queueDesc: u64, queueAvail: u64, queueUsed: u64)
  {
    /** The queue the engine sees: the size register is truncated to 16 bits. */
    function Queue(): Geometry {
      Geometry(queueNum % 0x1_0000, queueDesc, queueAvail, queueUsed)
    }
  }

  /** A notify drains up to the available index it reads on entry; it does nothing while the
      queue is not set up or that index lies outside memory. */
  function Notify(r: Regs, b: Device): (b': Option<Device>)
    ensures b'.Some? ==> |b'.value.mem| == |b.mem|
  {
    var g := r.Queue();
    if g.size == 0 || r.queueReady == 0 || g.avail + 4 > |b.mem| then Some(b)
    else Drain(g, b, Word16(b.mem, g.avail + 2))
  }

  /** The addresses of a notify fit 64 bits. */
  predicate NotifyFits(r: Regs, b: Device) {
    var g := r.Queue();
    g.size == 0 || r.queueReady == 0 ||
    (QueueFits(g) && (g.avail + 4 <= |b.mem| ==> DrainFits(g, b, Word16(b.mem, g.avail + 2))))
  }

  datatype Reply = Reply(regs: Regs, dev: Device, irq: bool)

  /** A register write: everything but a notify only changes registers. */
  function WriteReg(r: Regs, b: Device, offset: u64, val: u32): (o: Option<Reply>)
    ensures o.Some? ==> |o.value.dev.mem| == |b.mem|
  {
    if offset == QUEUE_NOTIFY then
      match Notify(r, b)
      case None => None
      case Some(b') =>
        var irq := b'.last != b.last;
        Some(Reply(if irq then r.(interruptStatus := SetBit0(r.interruptStatus)) else r, b', irq))
    else if offset == STATUS && val == 0 && r.status != 0 then
      Some(Reply(r.(status := 0, queueReady := 0), b.(last := 0), false))
    else
      Some(Reply(SetReg(r, offset, val), b, false))
  }

  function SetReg(r: Regs, offset: u64, val: u32): Regs {
    if offset == FEATURES_SEL || offset == DRIVER_FEATURES_SEL then r.(featuresSel := val)
    else if offset == DRIVER_FEATURES then
      if r.featuresSel == 0 then r.(driverFeatures := WithLow(r.driverFeatures, val))
      else r.(driverFeatures := WithHigh(r.driverFeatures, val))
    else if offset == QUEUE_SEL then r.(queueSel := val)
    else if offset == QUEUE_NUM then r.(queueNum := val)
    else if offset == QUEUE_READY then r.(queueReady := val)
    else if offset == INTERRUPT_ACK then r.(interruptStatus := AndNot(r.interruptStatus, val))
    else if offset == STATUS then r.(status := val)
    else if offset == QUEUE_DESC_LOW then r.(queueDesc := WithLow(r.queueDesc, val))
    else if offset == QUEUE_DESC_HIGH then r.(queueDesc := WithHigh(r.queueDesc, val))
    else if offset == QUEUE_AVAIL_LOW then r.(queueAvail := WithLow(r.queueAvail, val))
    else if offset == QUEUE_AVAIL_HIGH then r.(queueAvail := WithHigh(r.queueAvail, val))
    else if offset == QUEUE_USED_LOW then r.(queueUsed := WithLow(r.queueUsed, val))
    else if offset == QUEUE_USED_HIGH then r.(queueUsed := WithHigh(r.queueUsed, val))
    else r
  }

  class VirtioBlock {
    var status: u32
    var featuresSel: u32
    var driverFeatures: u64
    var interruptStatus: u32
    var queueSel: u32
    var queueNum: u32
    var queueReady: u32
    var queueDesc: u64
    var queueAvail: u64
    var queueUsed: u64
    var lastAvailIdx: u16
    var disk: Option<seq<byte>>

    ghost function Registers(): Regs
      reads this
    {
      Regs(status, featuresSel, driverFeatures, interruptStatus, queueSel, queueNum, queueReady,
           queueDesc, queueAvail, queueUsed)
    }

    ghost function Dev(mem: GuestMemory): Device
      reads this, mem.bytes
    {
      Device(mem.bytes[..], disk, lastAvailIdx)
    }

    constructor (image: Option<seq<byte>>)
      ensures Registers() == Regs(0, 0, 0, 0, 0, 0, 0, 0, 0, 0)
      ensures lastAvailIdx == 0 && disk == image
    {
      status, featuresSel, driverFeatures, interruptStatus := 0, 0, 0, 0;
      queueSel, queueNum, queueReady := 0, 0, 0;
      queueDesc, queueAvail, queueUsed := 0, 0, 0;
      lastAvailIdx := 0;
      disk := image;
    }

    /** Answers the chain at `head`: the walk finds the request, then the data is moved and the
        status acknowledged. The walk ends because no index comes twice (`Chain` is defined). */
    method ProcessDescriptorChain(mem: GuestMemory, table: u64, head: u16) returns (written: u32)
      requires Chain(mem.bytes[..], table, head, {}).Some?
      requires NoWrap(Region(table, 16 * 0x1_0000)) && ChainFits(mem.bytes[..], Chain(mem.bytes[..], table, head, {}).value)
      modifies mem.bytes, this`disk
      ensures var ds := Chain(old(mem.bytes[..]), table, head, {}).value;
              Outcome(mem.bytes[..], disk, written) == Answer(old(mem.bytes[..]), old(disk), Reading(old(mem.bytes[..]), ds))
    {
      hide Chain, Reading, DiskWrite, DiskRead, Store;
      var r := WalkChain(mem, table, head);
      written := 0;
      if r.dataAddr != 0 && r.dataLen > 0 {
        var offset := DiskOffset(r.sector);
        if disk.Some? && Seekable(offset) {
          if r.out {
            var data := mem.ReadSlice(r.dataAddr, r.dataLen);
            if data.Some? {
              disk := Some(DiskWrite(disk.value, offset, data.value));
            }
          } else {
            var buf := DiskRead(disk.value, offset, r.dataLen);
            if |buf| > 0 {
              var _ := mem.WriteSlice(r.dataAddr, buf);
              written := written + |buf|;
            } else {
              assert Store(mem.bytes[..], r.dataAddr, buf) == mem.bytes[..];
            }
          }
        }
      }
      assert Outcome(mem.bytes[..], disk, written) == MoveData(old(mem.bytes[..]), old(disk), r);

      if r.statusAddr != 0 {
        var _ := mem.WriteU8(r.statusAddr, S_OK);
        written := (written + 1) % 0x1_0000_0000;
      }
    }

    /** The phase machine over the chain at `head` reads off the same request as `Reading`. */
    method WalkChain(mem: GuestMemory, table: u64, head: u16) returns (r: Request)
      requires Chain(mem.bytes[..], table, head, {}).Some?
      requires NoWrap(Region(table, 16 * 0x1_0000)) && HeaderFits(Chain(mem.bytes[..], table, head, {}).value)
      ensures r == Reading(mem.bytes[..], Chain(mem.bytes[..], table, head, {}).value)
    {
      hide Chain, HeaderOut, HeaderSector, ReadDesc;
      ghost var m := mem.bytes[..];
      ghost var ds := Chain(m, table, head, {}).value;
      ghost var seen: set<u16>, i := {}, 0;

      var nextIdx := head;
      var sector: u64, isWrite := 0, false;
      var dataAddr: u64, dataLen: u32, statusAddr: u64 := 0, 0, 0;
      var phase := 0;
      while true
        invariant 0 <= i <= |ds| && Chain(m, table, nextIdx, seen) == Some(ds[i..])
        invariant phase == if i == 0 then 0 else 1
        invariant i > 0 ==> ds[i - 1].HasNext()
        invariant isWrite == (i > 0 && HeaderOut(m, ds[0]))
        invariant sector == if i == 0 then 0 else HeaderSector(m, ds[0])
        invariant dataAddr == if i < 2 then 0 else ds[i - 1].addr
        invariant dataLen == if i < 2 then 0 else ds[i - 1].len
        invariant statusAddr == 0
        decreases Upto(0x1_0000) - seen
      {
        ChainStep(m, table, nextIdx, seen);
        IndexLeft(nextIdx, seen);
        var desc := FetchDesc(mem, table, nextIdx);
        if desc.None? {
          break;
        }
        var Desc(addr, len, flags, next) := desc.value;
        assert ds[i..][0] == ds[i] && ds[i..][1..] == ds[i + 1..];

        if phase == 0 {
          isWrite, sector := FetchHeader(mem, desc.value);
          phase := 1;
        } else if phase == 1 {
          if flags % 2 != 0 {
            dataAddr := addr;
            dataLen := len;
          } else {
            statusAddr := addr;
            phase := 2;
          }
        } else {
          statusAddr := addr;
        }

        if flags % 2 == 0 {
          i := i + 1;
          break;
        }
        seen, i := seen + {nextIdx}, i + 1;
        nextIdx := next;
      }
      return Request(isWrite, sector, dataAddr, dataLen, statusAddr);
    }

    method FetchDesc(mem: GuestMemory, table: u64, idx: u16) returns (d: Option<Desc>)
      requires NoWrap(Region(table, 16 * 0x1_0000))
      ensures d == ReadDesc(mem.bytes[..], table, idx)
    {
      var off: nat := table + 16 * (idx as nat);
      var bytes := mem.ReadSlice(off, 16);
      if bytes.None? {
        return None;
      }
      DescOfSlice(mem.bytes[..], table, idx);
      return Some(DescOf(bytes.value));
    }

    /** The head index in the available slot of `last`. */
    method FetchHead(mem: GuestMemory, g: Geometry, last: u16) returns (head: Option<u16>)
      requires g.size > 0 && NoWrap(AvailRegion(g))
      ensures head == HeadAt(g, mem.bytes[..], last)
    {
      hide Slot;
      SlotIsRemainder(last, g.size);
      var off := g.avail + 4 + (last % g.size) * 2;
      var slot := mem.ReadSlice(off, 2);
      if slot.None? {
        return None;
      }
      assert slot.value == mem.bytes[..][off..off + 2];
      return Some(Word16(slot.value, 0));
    }

    method FetchHeader(mem: GuestMemory, d: Desc) returns (isWrite: bool, sector: u64)
      requires NoWrap(Region(d.addr, if d.len < 16 then d.len else 16))
      ensures isWrite == HeaderOut(mem.bytes[..], d) && sector == HeaderSector(mem.bytes[..], d)
    {
      isWrite, sector := false, 0;
      var header := mem.ReadSlice(d.addr, if d.len < 16 then d.len else 16);
      if header.Some? && |header.value| >= 16 {
        var h := header.value;
        assert h == mem.bytes[..][d.addr..d.addr + 16];
        var kind := Word32(h, 0);
        sector := Word64(h, 8);
        isWrite := kind == T_OUT;
      }
    }

    /** Drains the available ring. `irq` says whether any request was completed. */
    method ProcessQueue(mem: GuestMemory) returns (irq: bool)
      requires Notify(Registers(), Dev(mem)).Some? && NotifyFits(Registers(), Dev(mem))
      modifies this`lastAvailIdx, this`disk, this`interruptStatus, mem.bytes
      ensures Some(Dev(mem)) == Notify(old(Registers()), old(Dev(mem)))
      ensures irq <==> lastAvailIdx != old(lastAvailIdx)
      ensures interruptStatus == if irq then SetBit0(old(interruptStatus)) else old(interruptStatus)
    {
      hide Chain, Serve, HeadAt, Gap, Wrap, Drain;
      var g := Geometry(queueNum % 0x1_0000, queueDesc, queueAvail, queueUsed);
      if g.size == 0 || queueReady == 0 {
        return false;
      }
      var idxBytes := mem.ReadSlice(g.avail + 2, 2);
      if idxBytes.None? {
        return false;
      }
      var availIdx := Word16(idxBytes.value, 0);

      ghost var start := Dev(mem);
      assert availIdx == Word16(start.mem, g.avail + 2);
      ghost var n := DrainCursor(g, start, availIdx);
      var workDone := false;
      while lastAvailIdx != availIdx
        invariant Drain(g, Dev(mem), availIdx) == Drain(g, start, availIdx) && DrainFits(g, Dev(mem), availIdx)
        invariant workDone || Dev(mem) == start
        invariant workDone ==> n > 0
        invariant interruptStatus == old(interruptStatus)
        decreases Gap(lastAvailIdx, availIdx)
      {
        DrainStep(g, Dev(mem), availIdx);
        var headIdx := FetchHead(mem, g, lastAvailIdx);
        if headIdx.None? {
          break;
        }
        GapStep(lastAvailIdx, availIdx);
        DrainFitsStep(g, Dev(mem), availIdx);
        CompleteOne(mem, g, headIdx.value);
        workDone := true;
      }

      if lastAvailIdx == availIdx {
        DrainDone(g, Dev(mem));
      }
      if workDone {
        interruptStatus := SetBit0(interruptStatus);
        return true;
      }
      return false;
    }

    /** One turn of the drain loop. */
    method CompleteOne(mem: GuestMemory, g: Geometry, head: u16)
      requires g.size > 0 && Chain(mem.bytes[..], g.desc, head, {}).Some?
      requires QueueFits(g) && ChainFits(mem.bytes[..], Chain(mem.bytes[..], g.desc, head, {}).value)
      modifies this`lastAvailIdx, this`disk, mem.bytes
      ensures Dev(mem) == Serve(g, old(Dev(mem)), head, Chain(old(mem.bytes[..]), g.desc, head, {}).value)
    {
      hide Chain, Reading, Answer, PutUsed;
      var written := ProcessDescriptorChain(mem, g.desc, head);
      PublishUsed(mem, g, Element(head, written));
      lastAvailIdx := Wrap(lastAvailIdx + 1);
    }

    /** The used index, zero when it lies outside memory. */
    method FetchUsed(mem: GuestMemory, g: Geometry) returns (idx: u16)
      requires NoWrap(UsedRegion(g))
      ensures idx == NextUsed(g, mem.bytes[..])
    {
      var bytes := mem.ReadSlice(g.used + 2, 2);
      if bytes.None? {
        return 0;
      }
      assert bytes.value == mem.bytes[..][g.used + 2..g.used + 4];
      return Word16(bytes.value, 0);
    }

    method PublishUsed(mem: GuestMemory, g: Geometry, e: Element)
      requires g.size > 0 && NoWrap(UsedRegion(g))
      modifies mem.bytes
      ensures mem.bytes[..] == PutUsed(g, old(mem.bytes[..]), e)
    {
      hide Store, Slot, Bytes16, Bytes32, NextUsed, Wrap;
      var usedIdx := FetchUsed(mem, g);
      SlotIsRemainder(usedIdx, g.size);
      var elem := g.used + 4 + (usedIdx % g.size) * 8;
      assert elem == UsedSlot(g, usedIdx);
      var _ := mem.WriteU32(elem, e.id);
      var _ := mem.WriteU32(elem + 4, e.len);
      var _ := mem.WriteU16(g.used + 2, Wrap(usedIdx + 1));
    }

    /** A register write of at least four bytes; shorter ones are ignored. */
    method Write(offset: u64, data: seq<byte>, mem: GuestMemory) returns (irq: bool)
      requires |data| >= 4 ==> WriteReg(Registers(), Dev(mem), offset, Word32(data, 0)).Some?
      requires |data| >= 4 && offset == QUEUE_NOTIFY ==> NotifyFits(Registers(), Dev(mem))
      modifies this, mem.bytes
      ensures |data| < 4 ==> !irq && Registers() == old(Registers()) && Dev(mem) == old(Dev(mem))
      ensures |data| >= 4 ==>
        Some(Reply(Registers(), Dev(mem), irq)) == WriteReg(old(Registers()), old(Dev(mem)), offset, Word32(data, 0))
    {
      hide Notify, NotifyFits, WithLow, WithHigh, AndNot;
      if |data| < 4 {
        return false;
      }
      var val := Word32(data, 0);
      irq := false;
      if offset == FEATURES_SEL || offset == DRIVER_FEATURES_SEL {
        featuresSel := val;
      } else if offset == DRIVER_FEATURES {
        driverFeatures := if featuresSel == 0 then WithLow(driverFeatures, val) else WithHigh(driverFeatures, val);
      } else if offset == QUEUE_SEL {
        queueSel := val;
      } else if offset == QUEUE_NUM {
        queueNum := val;
      } else if offset == QUEUE_READY {
        queueReady := val;
      } else if offset == QUEUE_NOTIFY {
        irq := ProcessQueue(mem);
      } else if offset == INTERRUPT_ACK {
        interruptStatus := AndNot(interruptStatus, val);
      } else if offset == STATUS {
        var before := status;
        status := val;
        if val == 0 && before != 0 {
          queueReady := 0;
          lastAvailIdx := 0;
        }
      } else if offset == QUEUE_DESC_LOW {
        queueDesc := WithLow(queueDesc, val);
      } else if offset == QUEUE_DESC_HIGH {
        queueDesc := WithHigh(queueDesc, val);
      } else if offset == QUEUE_AVAIL_LOW {
        queueAvail := WithLow(queueAvail, val);
      } else if offset == QUEUE_AVAIL_HIGH {
        queueAvail := WithHigh(queueAvail, val);
      } else if offset == QUEUE_USED_LOW {
        queueUsed := WithLow(queueUsed, val);
      } else if offset == QUEUE_USED_HIGH {
        queueUsed := WithHigh(queueUsed, val);
      }
    }
  }
}
