/** What one pass of the block device's queue engine does, as functions of guest memory, the
    disk and the device cursor. `VirtioBlock` runs the engine; the modules after it prove what
    these functions mean. */
module BlockQueue {
  import opened Bytes
  import opened Ring

  // ---- Descriptor chains ----

  /** The descriptors a walk from `idx` reads, in order. The walk stops after a descriptor that
      is not continued, or at one it cannot read. `None` when it comes back to an index in
      `seen`, after which it repeats itself for ever. */
  function Chain(m: seq<byte>, table: nat, idx: u16, seen: set<u16>): (r: Option<seq<Desc>>)
    ensures r.Some? ==> forall i :: 0 <= i < |r.value| - 1 ==> r.value[i].HasNext()
    decreases Upto(0x1_0000) - seen
  {
    if idx in seen then None
    else
      IndexLeft(idx, seen);
      match ReadDesc(m, table, idx)
      case None => Some([])
      case Some(d) =>
        if !d.HasNext() then Some([d])
        else
          match Chain(m, table, d.next, seen + {idx})
          case None => None
          case Some(rest) => Some([d] + rest)
  }

  /** One step of a walk that ends. */
  lemma ChainStep(m: seq<byte>, table: nat, idx: u16, seen: set<u16>)
    requires Chain(m, table, idx, seen).Some?
    ensures var ds := Chain(m, table, idx, seen).value;
            idx !in seen &&
            match ReadDesc(m, table, idx)
            case None => ds == []
            case Some(d) =>
              && |ds| > 0 && ds[0] == d
              && (d.HasNext() ==> Chain(m, table, d.next, seen + {idx}) == Some(ds[1..]))
              && (!d.HasNext() ==> |ds| == 1)
  {
    var ds := Chain(m, table, idx, seen).value;
    var d := ReadDesc(m, table, idx);
    if d.Some? && d.value.HasNext() {
      var rest := Chain(m, table, d.value.next, seen + {idx}).value;
      assert ds == [d.value] + rest;
      assert ds[1..] == rest;
    }
  }

  function Upto(n: nat): (s: set<int>)
    ensures forall i :: i in s <==> 0 <= i < n
  {
    if n == 0 then {} else Upto(n - 1) + {n - 1}
  }

  lemma IndexLeft(idx: u16, seen: set<u16>)
    requires idx !in seen
    ensures Upto(0x1_0000) - (seen + {idx}) < Upto(0x1_0000) - seen
  {
    assert idx in Upto(0x1_0000) - seen;
  }

  // ---- Requests ----

  /** What the engine takes from a chain; a zero address means the part is missing. */
  datatype Request = Request(out: bool, sector: u64, dataAddr: u64, dataLen: u32, statusAddr: u64)

  const T_OUT: u32 := 1
  const S_OK: byte := 0
  const SECTOR_SIZE: nat := 512

  /** Direction and sector in the header, when the descriptor covers all 16 bytes of it. */
  function HeaderOut(m: seq<byte>, d: Desc): bool {
    d.len >= 16 && d.addr + 16 <= |m| && Word32(m, d.addr) == T_OUT
  }

  function HeaderSector(m: seq<byte>, d: Desc): u64 {
    if d.len >= 16 && d.addr + 16 <= |m| then Word64(m, d.addr + 8) else 0
  }

  /** A chain read as a request: the first descriptor is the header; a descriptor that ends the
      chain is the status unless it is the header; the data is the last of those in between. */
  function Reading(m: seq<byte>, ds: seq<Desc>): Request {
    if ds == [] then Request(false, 0, 0, 0, 0)
    else
      var last := ds[|ds| - 1];
      var ended := |ds| >= 2 && !last.HasNext();
      var body := if ended then ds[1..|ds| - 1] else ds[1..];
      Request(HeaderOut(m, ds[0]), HeaderSector(m, ds[0]),
              if body == [] then 0 else body[|body| - 1].addr,
              if body == [] then 0 else body[|body| - 1].len,
              if ended then last.addr else 0)
  }

  // ---- The disk ----

  /** A read returns what the file has from `off` on, at most `n` bytes. */
  function DiskRead(d: seq<byte>, off: nat, n: nat): (r: seq<byte>)
    ensures |r| <= n
    ensures |r| == if off >= |d| then 0 else if off + n <= |d| then n else |d| - off
    ensures forall i :: 0 <= i < |r| ==> r[i] == d[off + i]
  {
    if off >= |d| then [] else if off + n <= |d| then d[off..off + n] else d[off..]
  }

  /** A write past the end leaves a hole of zeros. */
  function DiskWrite(d: seq<byte>, off: nat, data: seq<byte>): (r: seq<byte>)
    requires data != []
    ensures |r| == if off + |data| <= |d| then |d| else off + |data|
    ensures forall i :: 0 <= i < |r| ==>
      r[i] == if off <= i < off + |data| then data[i - off] else if i < |d| then d[i] else 0
  {
    seq(if off + |data| <= |d| then |d| else off + |data|, i requires 0 <= i =>
      if off <= i < off + |data| then data[i - off] else if i < |d| then d[i] else 0)
  }

  /** The byte offset of a sector: a 64-bit product. */
  function DiskOffset(sector: u64): u64 {
    sector * SECTOR_SIZE % 0x1_0000_0000_0000_0000
  }

  /** Files are positioned with signed 64-bit offsets. */
  predicate Seekable(off: u64) {
    off < 0x8000_0000_0000_0000
  }

  // ---- Serving one request ----

  datatype Outcome = Outcome(mem: seq<byte>, disk: Option<seq<byte>>, written: u32)

  function MoveData(m: seq<byte>, disk: Option<seq<byte>>, r: Request): (o: Outcome)
    ensures |o.mem| == |m| && (o.disk.Some? <==> disk.Some?) && o.written <= r.dataLen
  {
    var off := DiskOffset(r.sector);
    if r.dataAddr == 0 || r.dataLen == 0 || disk.None? || !Seekable(off) then Outcome(m, disk, 0)
    else if r.out then
      match Load(m, r.dataAddr, r.dataLen)
      case None => Outcome(m, disk, 0)
      case Some(data) => Outcome(m, Some(DiskWrite(disk.value, off, data)), 0)
    else
      var data := DiskRead(disk.value, off, r.dataLen);
      Outcome(Store(m, r.dataAddr, data), disk, |data|)
  }

  function Answer(m: seq<byte>, disk: Option<seq<byte>>, r: Request): (o: Outcome)
    ensures |o.mem| == |m| && (o.disk.Some? <==> disk.Some?)
  {
    var moved := MoveData(m, disk, r);
    if r.statusAddr == 0 then moved
    else Outcome(Store(moved.mem, r.statusAddr, [S_OK]), moved.disk, (moved.written + 1) % 0x1_0000_0000)
  }

  // ---- Draining the queue ----

  datatype Device = Device(mem: seq<byte>, disk: Option<seq<byte>>, last: u16)

  /** The head index the cursor stands at. */
  function HeadAt(g: Geometry, m: seq<byte>, last: u16): Option<u16>
    requires g.size > 0
  {
    var off := AvailSlot(g, last);
    if off + 2 > |m| then None else Some(Word16(m, off))
  }

  /** The used index the engine reads before it publishes. */
  function NextUsed(g: Geometry, m: seq<byte>): u16 {
    if g.used + 4 > |m| then 0 else Word16(m, g.used + 2)
  }

  /** The element's two stores; each may be refused on its own. */
  function PutElement(g: Geometry, m: seq<byte>, idx: u16, e: Element): (m': seq<byte>)
    requires g.size > 0
    ensures |m'| == |m|
  {
    Store(Store(m, UsedSlot(g, idx), Bytes32(e.id)), UsedSlot(g, idx) + 4, Bytes32(e.len))
  }

  function PutIndex(g: Geometry, m: seq<byte>, idx: u16): (m': seq<byte>)
    ensures |m'| == |m|
  {
    Store(m, g.used + 2, Bytes16(Wrap(idx + 1)))
  }

  /** Publishing a used element: the element, then the index. */
  function PutUsed(g: Geometry, m: seq<byte>, e: Element): (m': seq<byte>)
    requires g.size > 0
    ensures |m'| == |m|
  {
    PutIndex(g, PutElement(g, m, NextUsed(g, m), e), NextUsed(g, m))
  }

  /** One turn of the drain loop: answer the chain at `head` and publish its completion. */
  function Serve(g: Geometry, b: Device, head: u16, ds: seq<Desc>): (b': Device)
    requires g.size > 0
    ensures |b'.mem| == |b.mem| && b'.last == Wrap(b.last + 1)
    ensures b'.disk.Some? <==> b.disk.Some?
  {
    var o := Answer(b.mem, b.disk, Reading(b.mem, ds));
    Device(PutUsed(g, o.mem, Element(head, o.written)), o.disk, Wrap(b.last + 1))
  }

  lemma ServeCloser(g: Geometry, b: Device, head: u16, ds: seq<Desc>, target: u16)
    requires g.size > 0 && b.last != target
    ensures Gap(Serve(g, b, head, ds).last, target) == Gap(b.last, target) - 1
  {
    hide Serve, Gap, Wrap;
    GapStep(b.last, target);
  }

  /** The drain loop from cursor `b.last` up to the index `target`; `None` when it never ends. */
  function Drain(g: Geometry, b: Device, target: u16): (r: Option<Device>)
    requires g.size > 0
    ensures r.Some? ==> |r.value.mem| == |b.mem|
    decreases Gap(b.last, target)
  {
    if b.last == target then Some(b)
    else
      match HeadAt(g, b.mem, b.last)
      case None => Some(b)
      case Some(head) =>
        match Chain(b.mem, g.desc, head, {})
        case None => None
        case Some(ds) =>
          ServeCloser(g, b, head, ds, target);
          Drain(g, Serve(g, b, head, ds), target)
  }

  // ---- Addresses ----

  /** The address sums for the header of a chain do not wrap ... */
  predicate HeaderFits(ds: seq<Desc>) {
    ds != [] ==> NoWrap(Region(ds[0].addr, if ds[0].len < 16 then ds[0].len else 16))
  }

  /** ... nor those for its data and status ... */
  predicate ChainFits(m: seq<byte>, ds: seq<Desc>) {
    var r := Reading(m, ds);
    HeaderFits(ds) && NoWrap(Region(r.dataAddr, r.dataLen)) && NoWrap(Region(r.statusAddr, 1))
  }

  /** ... nor any others of a drain. */
  predicate DrainFits(g: Geometry, b: Device, target: u16)
    requires g.size > 0
    decreases Gap(b.last, target)
  {
    QueueFits(g) &&
    if b.last == target then true
    else
      match HeadAt(g, b.mem, b.last)
      case None => true
      case Some(head) =>
        match Chain(b.mem, g.desc, head, {})
        case None => true
        case Some(ds) =>
          ServeCloser(g, b, head, ds, target);
          ChainFits(b.mem, ds) && DrainFits(g, Serve(g, b, head, ds), target)
  }

  lemma DrainFitsStep(g: Geometry, b: Device, target: u16)
    requires g.size > 0 && DrainFits(g, b, target) && b.last != target && HeadAt(g, b.mem, b.last).Some?
    ensures var head := HeadAt(g, b.mem, b.last).value;
            Chain(b.mem, g.desc, head, {}).Some? ==>
              var ds := Chain(b.mem, g.desc, head, {}).value;
              ChainFits(b.mem, ds) && DrainFits(g, Serve(g, b, head, ds), target)
  {
    hide Chain, Serve, HeadAt, Gap, ChainFits, QueueFits;
  }

  /** Unrolling the drain loop once. */
  lemma DrainStep(g: Geometry, b: Device, target: u16)
    requires g.size > 0 && Drain(g, b, target).Some? && b.last != target
    ensures var head := HeadAt(g, b.mem, b.last);
            if head.None? then Drain(g, b, target) == Some(b)
            else
              && Chain(b.mem, g.desc, head.value, {}).Some?
              && Drain(g, b, target) == Drain(g, Serve(g, b, head.value, Chain(b.mem, g.desc, head.value, {}).value), target)
  {
    hide Chain, Serve, HeadAt, Gap;
  }

  lemma DrainDone(g: Geometry, b: Device)
    requires g.size > 0
    ensures Drain(g, b, b.last) == Some(b)
  {
  }

  /** The drain moves the cursor by the number `n` of requests it served. It stops at the target,
      or earlier at a slot outside memory, so the cursor moved exactly when it served one. */
  lemma {:induction false} DrainCursor(g: Geometry, b: Device, target: u16) returns (n: nat)
    requires g.size > 0 && Drain(g, b, target).Some?
    ensures var b' := Drain(g, b, target).value;
            && b'.last == Wrap(b.last + n) && n <= Gap(b.last, target)
            && (b'.last == target || HeadAt(g, b'.mem, b'.last).None?)
            && (n == 0 <==> b.last == target || HeadAt(g, b.mem, b.last).None?)
            && (n == 0 <==> b'.last == b.last)
    decreases Gap(b.last, target)
  {
    hide Serve, Chain, HeadAt, Gap, Wrap;
    n := 0;
    WrapMoves(b.last, 0);
    if b.last != target && HeadAt(g, b.mem, b.last).Some? {
      var head := HeadAt(g, b.mem, b.last).value;
      var ds := Chain(b.mem, g.desc, head, {}).value;
      GapStep(b.last, target);
      n := DrainCursor(g, Serve(g, b, head, ds), target);
      WrapPlus(b.last, n);
      n := n + 1;
      WrapMoves(b.last, n);
    }
  }
}
