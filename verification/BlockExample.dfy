/** A concrete notify: a write and a read of the same sector, with the cursor about to wrap. It
    shows that the layout rules of `BlockRefinement` can be met, and runs the theorems on it. */
module BlockExample {
  import opened Bytes
  import opened Ring
  import opened BlockQueue
  import opened BlockBytes
  import opened BlockChain
  import opened BlockRefinement
  import opened VirtioBlockDevice

  const QUEUE := Geometry(8, 0x100, 0x200, 0x300)

  /** Six descriptors from 0x100, available ring at 0x200, headers at 0x400 and 0x410, status
      bytes at 0x500 and 0x501, data at 0x600 (written to the disk) and 0x800 (read from it). */
  function MemoryByte(p: nat): byte {
    if p < 0x110 then if p == 0x101 then 4 else if p == 0x108 then 16 else if p == 0x10C || p == 0x10E then 1 else 0
    else if p < 0x120 then if p == 0x111 then 6 else if p == 0x11C then 1 else if p == 0x119 || p == 0x11E then 2 else 0
    else if p < 0x130 then if p == 0x121 then 5 else if p == 0x128 then 1 else 0
    else if p < 0x140 then
      if p == 0x130 || p == 0x138 then 16 else if p == 0x131 || p == 0x13E then 4 else if p == 0x13C then 1 else 0
    else if p < 0x150 then if p == 0x141 then 8 else if p == 0x149 then 2 else if p == 0x14C then 3 else if p == 0x14E then 5 else 0
    else if p < 0x160 then if p == 0x150 || p == 0x158 then 1 else if p == 0x151 then 5 else if p == 0x15C then 2 else 0
    else if p == 0x202 || p == 0x400 then 1
    else if p == 0x204 then 3
    else if p == 0x408 || p == 0x418 then 7
    else if 0x600 <= p < 0x800 then p % 0x100
    else 0
  }

  function Memory(): (m: seq<byte>)
    ensures |m| == 0x1000 && forall p :: 0 <= p < |m| ==> m[p] == MemoryByte(p)
  {
    seq(0x1000, p requires 0 <= p => MemoryByte(p))
  }

  lemma Descriptors(m: seq<byte>)
    requires m == Memory()
    ensures DescAt(m, QUEUE, 0) == Desc(0x400, 16, 1, 1)
    ensures DescAt(m, QUEUE, 1) == Desc(0x600, 512, 1, 2)
    ensures DescAt(m, QUEUE, 2) == Desc(0x500, 1, 0, 0)
    ensures DescAt(m, QUEUE, 3) == Desc(0x410, 16, 1, 4)
    ensures DescAt(m, QUEUE, 4) == Desc(0x800, 512, 3, 5)
    ensures DescAt(m, QUEUE, 5) == Desc(0x501, 1, 2, 0)
  {
    hide Memory;
  }

  lemma Headers(m: seq<byte>)
    requires m == Memory()
    ensures Word32(m, 0x400) == T_OUT && Word64(m, 0x408) == 7
    ensures Word32(m, 0x410) == 0 && Word64(m, 0x418) == 7
  {
    hide Memory;
  }

  /** Head 0 writes 512 bytes to sector 7, head 3 reads 512 bytes from it. */
  lemma Asking(m: seq<byte>)
    requires m == Memory()
    ensures WellFormed(QUEUE, m, 0) && RequestAt(QUEUE, m, 0) == Request(true, 7, 0x600, 512, 0x500)
    ensures WellFormed(QUEUE, m, 3) && RequestAt(QUEUE, m, 3) == Request(false, 7, 0x800, 512, 0x501)
    ensures HeaderRegion(QUEUE, m, 0) == Region(0x400, 16) && HeaderRegion(QUEUE, m, 3) == Region(0x410, 16)
  {
    hide Memory, DescAt, Word32, Word64;
    Descriptors(m);
    Headers(m);
  }

  /** With the cursor at 65535 the two heads are in the last and the first slot of the ring. */
  lemma Heads(m: seq<byte>)
    requires m == Memory()
    ensures HeadAt(QUEUE, m, Wrap(65535)) == Some(0) && HeadAt(QUEUE, m, Wrap(65535 + 1)) == Some(3)
  {
    hide Memory, Slot;
    SlotIsRemainder(65535, 8);
    SlotIsRemainder(0, 8);
  }

  /** No two of the places that matter overlap. */
  lemma Apart(m: seq<byte>, head: u16, other: u16)
    requires m == Memory() && (head == 0 || head == 3) && (other == 0 || other == 3)
    ensures WellFormed(QUEUE, m, head) && WellFormed(QUEUE, m, other)
    ensures Compatible(QUEUE, m, head, other)
    ensures head != other ==> DataApart(QUEUE, m, head, other)
  {
    hide Memory, WellFormed, RequestAt, HeaderRegion;
    Asking(m);
  }

  lemma IsBatch()
    ensures Batch(QUEUE, Memory(), 65535, [0, 3])
  {
    hide Memory, WellFormed, Compatible, DataApart, HeadAt, Wrap;
    var m := Memory();
    Heads(m);
    Apart(m, 0, 0);
    Apart(m, 0, 3);
    Apart(m, 3, 0);
    Apart(m, 3, 3);
  }

  /** The drain of this batch: whatever the disk held, the bytes at 0x600 end up at 0x800. */
  lemma CopiesThroughDisk(disk: seq<byte>)
    ensures var b' := Drain(QUEUE, Device(Memory(), Some(disk), 65535), 1);
            b'.Some? && b'.value.mem[0x800..0xA00] == Memory()[0x600..0x800]
  {
    hide Memory, WellFormed, RequestAt, Batch, Drain, OpAt, Overwrites, DiskOffset;
    IsBatch();
    Asking(Memory());
    BatchReadsBack(QUEUE, Device(Memory(), Some(disk), 65535), [0, 3], 1, 0, 1);
  }

  /** The registers of a driver that has set this queue up. */
  const READY_REGS := Regs(0xF, 0, 0, 0, 0, 8, 1, 0x100, 0x200, 0x300)

  const STORE := Request(true, 7, 0x600, 512, 0x500)
  const FETCH := Request(false, 7, 0x800, 512, 0x501)

  lemma Asked(m: seq<byte>, heads: seq<u16>)
    requires m == Memory() && heads == [0, 3]
    ensures forall k :: 0 <= k < |heads| ==> WellFormed(QUEUE, m, heads[k])
    ensures BlockBytes.Requests(QUEUE, m, heads) == [STORE, FETCH]
  {
    hide Memory, WellFormed, RequestAt;
    Asking(m);
  }

  /** The disk after those two requests. */
  lemma SectorSevenStored(m: seq<byte>, d: seq<byte>, disk: seq<byte>)
    requires |m| == 0x1000 && DiskAfter(m, d, [STORE, FETCH], disk)
    ensures |disk| == if |d| < 4096 then 4096 else |d|
    ensures forall p :: 3584 <= p < 4096 ==> disk[p] == m[0x600 + (p - 3584)]
    ensures forall p :: 0 <= p < |d| && !(3584 <= p < 4096) ==> disk[p] == d[p]
  {
    hide DiskByte, DiskEnd, LastStore;
    var none: seq<Request> := [];
    assert none + [STORE] == [STORE] && [STORE] + [FETCH] == [STORE, FETCH];
    DiskEndStep(d, none, STORE);
    DiskEndStep(d, [STORE], FETCH);
    EndsAtStart(d, none, 0);
    forall p | 0 <= p < |disk|
      ensures disk[p] == if 3584 <= p < 4096 then m[0x600 + (p - 3584)] else if p < |d| then d[p] else 0
    {
      ByteStep(m, d, none, STORE, p);
      ByteStep(m, d, [STORE], FETCH, p);
      NothingStored(m, d, none, p);
    }
  }

  lemma NothingStored(m: seq<byte>, d: seq<byte>, rs: seq<Request>, p: nat)
    requires rs == []
    ensures DiskByte(m, d, rs, p) == if p < |d| then d[p] else 0
  {
  }

  lemma AvailableAt(m: seq<byte>)
    requires m == Memory()
    ensures Word16(m, 0x202) == 1
  {
    hide Memory;
  }

  /** Notified through the register, the device stores the buffer at 0x600 in disk bytes 3584 to 4095,
      which is sector 7, changes no other byte a disk had, brings the same bytes back to 0x800, sets
      both status bytes and asks for the interrupt. */
  lemma NotifyMovesSectorSeven(m: seq<byte>, disk: seq<byte>, v: u32)
    requires m == Memory()
    ensures WriteReg(READY_REGS, Device(m, Some(disk), 65535), 0x050, v).Some?
    ensures var o := WriteReg(READY_REGS, Device(m, Some(disk), 65535), 0x050, v).value;
            && o.irq && o.dev.last == 1 && o.dev.disk.Some? && |o.dev.mem| == 0x1000
            && var disk' := o.dev.disk.value;
            && |disk'| == (if |disk| < 4096 then 4096 else |disk|)
            && (forall p :: 3584 <= p < 4096 ==> disk'[p] == m[0x600 + (p - 3584)])
            && (forall p :: 0 <= p < |disk| && !(3584 <= p < 4096) ==> disk'[p] == disk[p])
            && o.dev.mem[0x800..0xA00] == m[0x600..0x800]
            && o.dev.mem[0x500] == 0 && o.dev.mem[0x501] == 0
  {
    hide Memory, WellFormed, Batch, Drain, Sequential, Framed, BlockBytes.Requests, RequestAt, DiskAfter, Filled, SetReg;
    var b, heads := Device(m, Some(disk), 65535), [0, 3];
    IsBatch();
    Asked(m, heads);
    AvailableAt(m);
    DrainServesInOrder(QUEUE, b, heads, 1);
    var b' := Drain(QUEUE, b, 1).value;
    SequentialByBytes(QUEUE, b, b', heads);
    var rs := BlockBytes.Requests(QUEUE, m, heads);
    assert rs[0] == STORE && rs[1] == FETCH;
    SectorSevenStored(m, disk, b'.disk.value);
    CopiesThroughDisk(disk);
  }
}
