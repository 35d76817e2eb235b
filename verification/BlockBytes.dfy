/** What a batch does, byte by byte: which byte of guest memory each disk byte ends up with, and
    which disk byte each byte of a read buffer. Nothing here is computed by the engine's own
    functions: a sector is 512 bytes, and a disk byte is the last store's. */
module BlockBytes {
  import opened Bytes
  import opened Ring
  import opened BlockQueue
  import opened BlockChain
  import opened BlockRefinement
  import opened BlockFootprint

  // ---- Chains in guest memory ----

  /** Where the descriptor table has the entry of an index. */
  function EntryAt(table: nat, idx: u16): nat {
    table + 16 * idx
  }

  /** The indices of `path` are different, their entries are inside memory, each but the last
      continues with the next one, and the last does not continue. */
  ghost predicate Linked(m: seq<byte>, table: nat, path: seq<u16>) {
    && |path| > 0
    && (forall i :: 0 <= i < |path| ==> EntryAt(table, path[i]) + 16 <= |m|)
    && (forall i, j :: 0 <= i < j < |path| ==> path[i] != path[j])
    && (forall i :: 0 <= i < |path| - 1 ==>
          Word16(m, EntryAt(table, path[i]) + 12) % 2 == 1 && Word16(m, EntryAt(table, path[i]) + 14) == path[i + 1])
    && Word16(m, EntryAt(table, path[|path| - 1]) + 12) % 2 == 0
  }

  function Entries(m: seq<byte>, table: nat, path: seq<u16>): (ds: seq<Desc>)
    requires forall i :: 0 <= i < |path| ==> EntryAt(table, path[i]) + 16 <= |m|
    ensures |ds| == |path|
  {
    seq(|path|, i requires 0 <= i < |path| =>
      var e := EntryAt(table, path[i]);
      Desc(Word64(m, e), Word32(m, e + 8), Word16(m, e + 12), Word16(m, e + 14)))
  }

  lemma EntryReads(m: seq<byte>, table: nat, idx: u16)
    requires EntryAt(table, idx) + 16 <= |m|
    ensures var e := EntryAt(table, idx);
            ReadDesc(m, table, idx) == Some(Desc(Word64(m, e), Word32(m, e + 8), Word16(m, e + 12), Word16(m, e + 14)))
  {
    hide Word64, Word32, Word16;
  }

  function Before(path: seq<u16>, i: nat): (s: set<u16>)
    requires i <= |path|
    ensures forall x :: x in s <==> exists j :: 0 <= j < i && path[j] == x
  {
    set j | 0 <= j < i :: path[j]
  }

  /** The walk goes along the path to its end. */
  lemma {:induction false} PathWalked(m: seq<byte>, table: nat, path: seq<u16>, i: nat)
    requires Linked(m, table, path) && i < |path|
    ensures Chain(m, table, path[i], Before(path, i)) == Some(Entries(m, table, path)[i..])
    decreases |path| - i
  {
    hide Word64, Word32, Word16, ReadDesc;
    var ds := Entries(m, table, path);
    EntryReads(m, table, path[i]);
    assert ReadDesc(m, table, path[i]) == Some(ds[i]);
    if i == |path| - 1 {
      assert ds[i..] == [ds[i]];
    } else {
      assert Word16(m, EntryAt(table, path[i]) + 14) == path[i + 1];
      assert Before(path, i) + {path[i]} == Before(path, i + 1);
      PathWalked(m, table, path, i + 1);
      assert ds[i..] == [ds[i]] + ds[i + 1..];
    }
  }

  /** A chain of any length, read from the bytes of guest memory: the header is where the first
      descriptor points, with the type at its start and the sector 8 bytes on; the data is the
      buffer of the last descriptor but one, unless that is the header; the status byte is where
      the last one points. */
  lemma PathReads(m: seq<byte>, table: nat, path: seq<u16>)
    requires |path| >= 2 && Linked(m, table, path)
    ensures forall i :: 0 <= i < |path| ==> EntryAt(table, path[i]) + 16 <= |m|
    ensures Chain(m, table, path[0], {}).Some?
    ensures var r := Reading(m, Chain(m, table, path[0], {}).value);
            var first, data, last := EntryAt(table, path[0]), EntryAt(table, path[|path| - 2]), EntryAt(table, path[|path| - 1]);
            var header, whole := Word64(m, first), Word32(m, first + 8) >= 16 && Word64(m, first) + 16 <= |m|;
            && (r.out <==> whole && Word32(m, header) == 1)
            && r.sector == (if whole then Word64(m, header + 8) else 0)
            && (if |path| == 2 then r.dataAddr == 0 && r.dataLen == 0
                else r.dataAddr == Word64(m, data) && r.dataLen == Word32(m, data + 8))
            && r.statusAddr == Word64(m, last)
  {
    hide Word64, Word32, Word16, Chain, Reading, HeaderOut, HeaderSector, Linked, Entries, EntryAt, ReadDesc;
    LastEntry(m, table, path);
    var ds := Entries(m, table, path);
    PathEnds(m, table, path);
    EntriesHave(m, table, path, 0);
    EntriesHave(m, table, path, |path| - 2);
    EntriesHave(m, table, path, |path| - 1);
    ReadingByPlace(m, ds);
    HeaderBytes(m, ds[0]);
  }

  lemma PathEnds(m: seq<byte>, table: nat, path: seq<u16>)
    requires Linked(m, table, path)
    ensures Chain(m, table, path[0], {}) == Some(Entries(m, table, path))
  {
    hide Word64, Word32, Word16, Chain, Entries;
    assert Before(path, 0) == {};
    PathWalked(m, table, path, 0);
    assert Entries(m, table, path)[0..] == Entries(m, table, path);
  }

  lemma EntriesHave(m: seq<byte>, table: nat, path: seq<u16>, i: nat)
    requires i < |path| && forall j :: 0 <= j < |path| ==> EntryAt(table, path[j]) + 16 <= |m|
    ensures var e := EntryAt(table, path[i]);
            Entries(m, table, path)[i] == Desc(Word64(m, e), Word32(m, e + 8), Word16(m, e + 12), Word16(m, e + 14))
  {
    hide Word64, Word32, Word16;
  }

  lemma LastEntry(m: seq<byte>, table: nat, path: seq<u16>)
    requires Linked(m, table, path)
    ensures |path| > 0 && forall i :: 0 <= i < |path| ==> EntryAt(table, path[i]) + 16 <= |m|
    ensures Word16(m, EntryAt(table, path[|path| - 1]) + 12) % 2 == 0
  {
    hide Word16;
  }

  lemma ReadingByPlace(m: seq<byte>, ds: seq<Desc>)
    requires |ds| >= 2 && !ds[|ds| - 1].HasNext()
    ensures var r := Reading(m, ds);
            && r.out == HeaderOut(m, ds[0]) && r.sector == HeaderSector(m, ds[0])
            && r.dataAddr == (if |ds| == 2 then 0 else ds[|ds| - 2].addr)
            && r.dataLen == (if |ds| == 2 then 0 else ds[|ds| - 2].len)
            && r.statusAddr == ds[|ds| - 1].addr
  {
    hide HeaderOut, HeaderSector;
    var body := ds[1..|ds| - 1];
    assert |ds| > 2 ==> body[|body| - 1] == ds[|ds| - 2];
  }

  lemma HeaderBytes(m: seq<byte>, d: Desc)
    ensures var whole := d.len >= 16 && d.addr + 16 <= |m|;
            && (HeaderOut(m, d) <==> whole && Word32(m, d.addr) == 1)
            && HeaderSector(m, d) == (if whole then Word64(m, d.addr + 8) else 0)
  {
    hide Word32, Word64;
  }

  /** So the request of a well-formed chain, from the bytes of its three descriptors. */
  lemma RequestInBytes(g: Geometry, m: seq<byte>, head: u16)
    requires WellFormed(g, m, head)
    ensures var first := EntryAt(g.desc, head);
            && first + 16 <= |m|
            && var data := EntryAt(g.desc, Word16(m, first + 14));
            && data + 16 <= |m|
            && var last := EntryAt(g.desc, Word16(m, data + 14));
            && last + 16 <= |m| && Word64(m, first) + 16 <= |m|
            && RequestAt(g, m, head) ==
                 Request(Word32(m, Word64(m, first)) == 1, Word64(m, Word64(m, first) + 8),
                         Word64(m, data), Word32(m, data + 8), Word64(m, last))
  {
    hide Word64, Word32, Word16, Chain, Reading;
    EntryReads(m, g.desc, head);
    EntryReads(m, g.desc, DescAt(m, g, head).next);
    EntryReads(m, g.desc, DescAt(m, g, DescAt(m, g, head).next).next);
  }

  // ---- The disk ----

  /** The first disk byte of a request. */
  function FirstByte(r: Request): nat {
    512 * (r.sector % 0x80_0000_0000_0000)
  }

  lemma OffsetIsFirstByte(r: Request)
    ensures DiskOffset(r.sector) == FirstByte(r)
    ensures 512 * r.sector < TWO_TO_64 ==> FirstByte(r) == 512 * r.sector
  {
    SectorOffset(r.sector);
  }

  /** The request stores to disk byte `p`. */
  predicate Stores(r: Request, p: nat) {
    r.out && FirstByte(r) <= p < FirstByte(r) + r.dataLen
  }

  /** Which of the requests stores to disk byte `p` last. */
  function LastStore(rs: seq<Request>, p: nat): (k: Option<nat>)
    ensures k.Some? ==> k.value < |rs| && Stores(rs[k.value], p)
    ensures forall j :: 0 <= j < |rs| && Stores(rs[j], p) ==> k.Some? && j <= k.value
  {
    if rs == [] then None
    else if Stores(rs[|rs| - 1], p) then Some(|rs| - 1)
    else LastStore(rs[..|rs| - 1], p)
  }

  ghost predicate Buffered(m: seq<byte>, rs: seq<Request>) {
    forall k :: 0 <= k < |rs| ==>
      rs[k].dataLen > 0 && rs[k].dataAddr + rs[k].dataLen <= |m| && rs[k].statusAddr < |m|
  }

  /** Disk byte `p` after the requests: from the buffer of the last store to it, or as it was, or
      zero in a hole. */
  function DiskByte(m: seq<byte>, d: seq<byte>, rs: seq<Request>, p: nat): byte {
    match LastStore(rs, p)
    case Some(k) =>
      var from := rs[k].dataAddr + (p - FirstByte(rs[k]));
      if from < |m| then m[from] else 0
    case None => if p < |d| then d[p] else 0
  }

  /** The size of the disk after the requests: stores past its end extend it. */
  function DiskEnd(d: seq<byte>, rs: seq<Request>): nat {
    if rs == [] then |d|
    else
      var r, end := rs[|rs| - 1], DiskEnd(d, rs[..|rs| - 1]);
      if r.out && FirstByte(r) + r.dataLen > end then FirstByte(r) + r.dataLen else end
  }

  /** `disk` is `d` after the requests. */
  ghost predicate DiskAfter(m: seq<byte>, d: seq<byte>, rs: seq<Request>, disk: seq<byte>) {
    |disk| == DiskEnd(d, rs) && forall p :: 0 <= p < |disk| ==> disk[p] == DiskByte(m, d, rs, p)
  }

  function OpOf(m: seq<byte>, r: Request): Op
    requires r.dataAddr + r.dataLen <= |m|
  {
    if r.out then Write(DiskOffset(r.sector), m[r.dataAddr..r.dataAddr + r.dataLen]) else Read(DiskOffset(r.sector), r.dataLen)
  }

  lemma LastStoreStep(rs: seq<Request>, r: Request, p: nat)
    ensures LastStore(rs + [r], p) == if Stores(r, p) then Some(|rs|) else LastStore(rs, p)
  {
    hide Stores;
    assert (rs + [r])[..|rs|] == rs;
  }

  lemma DiskEndStep(d: seq<byte>, rs: seq<Request>, r: Request)
    ensures var end, mine := DiskEnd(d, rs), FirstByte(r) + r.dataLen;
            DiskEnd(d, rs + [r]) == if r.out && mine > end then mine else end
  {
    hide FirstByte;
    assert (rs + [r])[..|rs|] == rs;
  }

  /** Nothing is stored past the end. */
  lemma {:induction false} EndsLate(d: seq<byte>, rs: seq<Request>, p: nat)
    requires p >= DiskEnd(d, rs)
    ensures LastStore(rs, p).None? && p >= |d|
    decreases |rs|
  {
    hide FirstByte, DiskEnd, LastStore;
    if rs == [] {
      EndsAtStart(d, rs, p);
    } else {
      var init, r := rs[..|rs| - 1], rs[|rs| - 1];
      assert rs == init + [r];
      DiskEndStep(d, init, r);
      LastStoreStep(init, r, p);
      EndsLate(d, init, p);
    }
  }

  lemma EndsAtStart(d: seq<byte>, rs: seq<Request>, p: nat)
    requires rs == []
    ensures DiskEnd(d, rs) == |d| && LastStore(rs, p).None?
  {
  }

  lemma ByteStep(m: seq<byte>, d: seq<byte>, rs: seq<Request>, r: Request, p: nat)
    requires r.dataAddr + r.dataLen <= |m|
    ensures DiskByte(m, d, rs + [r], p) ==
      if Stores(r, p) then m[r.dataAddr + (p - FirstByte(r))] else DiskByte(m, d, rs, p)
  {
    hide LastStore, FirstByte;
    LastStoreStep(rs, r, p);
    var k := LastStore(rs, p);
    assert k.Some? ==> (rs + [r])[k.value] == rs[k.value];
  }

  lemma OneMore(m: seq<byte>, d: seq<byte>, rs: seq<Request>, r: Request, disk: seq<byte>)
    requires DiskAfter(m, d, rs, disk)
    requires r.dataLen > 0 && r.dataAddr + r.dataLen <= |m|
    ensures DiskAfter(m, d, rs + [r], Apply(disk, OpOf(m, r)))
  {
    hide FirstByte, DiskOffset, DiskByte, DiskEnd;
    OffsetIsFirstByte(r);
    DiskEndStep(d, rs, r);
    var disk' := Apply(disk, OpOf(m, r));
    forall p | 0 <= p < |disk'|
      ensures disk'[p] == DiskByte(m, d, rs + [r], p)
    {
      ByteStep(m, d, rs, r, p);
      if p >= |disk| {
        HoleByte(m, d, rs, p);
      }
    }
  }

  lemma HoleByte(m: seq<byte>, d: seq<byte>, rs: seq<Request>, p: nat)
    requires p >= DiskEnd(d, rs)
    ensures DiskByte(m, d, rs, p) == 0
  {
    hide DiskEnd, LastStore;
    EndsLate(d, rs, p);
  }

  /** The sequential server, byte by byte. */
  lemma {:induction false} RunDiskBytes(m: seq<byte>, d: seq<byte>, rs: seq<Request>, ops: seq<Op>)
    requires Buffered(m, rs) && |ops| == |rs|
    requires forall k :: 0 <= k < |rs| ==> ops[k] == OpOf(m, rs[k])
    ensures DiskAfter(m, d, rs, RunDisk(d, ops))
    decreases |rs|
  {
    hide OpOf, Apply, FirstByte;
    if rs == [] {
      RunNone(d, ops);
    } else {
      var n := |rs| - 1;
      RunDiskBytes(m, d, rs[..n], ops[..n]);
      RunDiskSplit(d, ops, n, |ops|);
      assert ops[..|ops|] == ops;
      RunNone(Apply(RunDisk(d, ops[..n]), ops[n]), ops[n + 1..]);
      assert rs == rs[..n] + [rs[n]];
      OneMore(m, d, rs[..n], rs[n], RunDisk(d, ops[..n]));
    }
  }

  // ---- One request, well-formed or not ----

  /** How many of the `len` bytes from `from` on a disk of `size` bytes has. */
  function Available(size: nat, from: nat, len: nat): nat {
    if from >= size then 0 else if from + len <= size then len else size - from
  }

  /** There is a disk, a buffer, and a byte offset below 2^63. */
  predicate Transfers(disk: Option<seq<byte>>, r: Request) {
    disk.Some? && r.dataAddr != 0 && r.dataLen != 0 && FirstByte(r) < 0x8000_0000_0000_0000
  }

  /** How many bytes a request reads from the disk. */
  function Fetched(disk: Option<seq<byte>>, r: Request): nat {
    if Transfers(disk, r) && !r.out then Available(|disk.value|, FirstByte(r), r.dataLen) else 0
  }

  lemma AnswerDisk(m: seq<byte>, disk: Option<seq<byte>>, r: Request)
    ensures var o := Answer(m, disk, r);
            if Transfers(disk, r) && r.out && r.dataAddr + r.dataLen <= |m|
            then o.disk.Some? && DiskAfter(m, disk.value, [r], o.disk.value)
            else o.disk == disk
  {
    hide FirstByte, DiskOffset, DiskAfter, Apply, Store, DiskRead;
    OffsetIsFirstByte(r);
    if Transfers(disk, r) && r.out && r.dataAddr + r.dataLen <= |m| {
      StartAfter(m, disk.value);
      assert [] + [r] == [r];
      OneMore(m, disk.value, [], r, disk.value);
      StoreApplied(m, disk.value, r);
    }
  }

  lemma AnswerMemory(m: seq<byte>, disk: Option<seq<byte>>, r: Request)
    ensures var o := Answer(m, disk, r);
            var n := Fetched(disk, r);
            && |o.mem| == |m|
            && forall p :: 0 <= p < |m| ==>
                 o.mem[p] == if p == r.statusAddr && p != 0 then 0
                             else if r.dataAddr <= p < r.dataAddr + n && r.dataAddr + n <= |m| then disk.value[FirstByte(r) + (p - r.dataAddr)]
                             else m[p]
  {
    hide FirstByte, DiskOffset, DiskWrite;
    OffsetIsFirstByte(r);
  }

  lemma AnswerLength(m: seq<byte>, disk: Option<seq<byte>>, r: Request)
    ensures Answer(m, disk, r).written == (Fetched(disk, r) + if r.statusAddr != 0 then 1 else 0) % 0x1_0000_0000
  {
    hide FirstByte, DiskOffset, DiskWrite, Store;
    OffsetIsFirstByte(r);
  }

  /** What answering any request does, complete or not, byte by byte. The disk takes a store whose
      buffer is inside memory. Memory takes a zero status, if there is a place for it, and what was
      read, if all of it fits into memory. The length counts what was read even where it does not. */
  lemma AnswerInBytes(m: seq<byte>, disk: Option<seq<byte>>, r: Request)
    ensures var o := Answer(m, disk, r);
            var n := Fetched(disk, r);
            && (if Transfers(disk, r) && r.out && r.dataAddr + r.dataLen <= |m|
                then o.disk.Some? && DiskAfter(m, disk.value, [r], o.disk.value)
                else o.disk == disk)
            && |o.mem| == |m|
            && (forall p :: 0 <= p < |m| ==>
                  o.mem[p] == if p == r.statusAddr && p != 0 then 0
                              else if r.dataAddr <= p < r.dataAddr + n && r.dataAddr + n <= |m| then disk.value[FirstByte(r) + (p - r.dataAddr)]
                              else m[p])
            && o.written == (n + if r.statusAddr != 0 then 1 else 0) % 0x1_0000_0000
  {
    hide FirstByte, Answer, DiskAfter;
    AnswerDisk(m, disk, r);
    AnswerMemory(m, disk, r);
    AnswerLength(m, disk, r);
  }

  lemma StartAfter(m: seq<byte>, d: seq<byte>)
    ensures DiskAfter(m, d, [], d)
  {
  }

  lemma StoreApplied(m: seq<byte>, d: seq<byte>, r: Request)
    requires r.out && r.dataLen > 0 && r.dataAddr + r.dataLen <= |m|
    ensures Apply(d, OpOf(m, r)) == DiskWrite(d, DiskOffset(r.sector), m[r.dataAddr..r.dataAddr + r.dataLen])
  {
    hide DiskWrite, DiskOffset;
  }

  // ---- The batch ----

  /** The requests of a batch, in order. */
  function Requests(g: Geometry, m: seq<byte>, heads: seq<u16>): (rs: seq<Request>)
    requires forall k :: 0 <= k < |heads| ==> WellFormed(g, m, heads[k])
    ensures |rs| == |heads| && forall k :: 0 <= k < |rs| ==> rs[k] == RequestAt(g, m, heads[k])
    ensures Buffered(m, rs)
  {
    seq(|heads|, k requires 0 <= k < |heads| => RequestAt(g, m, heads[k]))
  }

  /** What the read buffer of `r` holds in `m'` when the disk as of its place is `d` after the
      earlier requests `before`. */
  ghost predicate Filled(m: seq<byte>, m': seq<byte>, d: seq<byte>, before: seq<Request>, r: Request)
    requires |m'| == |m| && r.dataAddr + r.dataLen <= |m|
  {
    forall p :: r.dataAddr <= p < r.dataAddr + r.dataLen ==>
      var at := FirstByte(r) + (p - r.dataAddr);
      m'[p] == if at < DiskEnd(d, before) then DiskByte(m, d, before, at) else m[p]
  }

  /** The outcome of a batch in terms of bytes. */
  ghost predicate ByBytes(g: Geometry, b: Device, b': Device, heads: seq<u16>)
    requires forall k :: 0 <= k < |heads| ==> WellFormed(g, b.mem, heads[k])
    requires b.disk.Some? && |b'.mem| == |b.mem|
  {
    var rs := Requests(g, b.mem, heads);
    && b'.disk.Some? && DiskAfter(b.mem, b.disk.value, rs, b'.disk.value)
    && (forall k :: 0 <= k < |rs| ==>
          && b'.mem[rs[k].statusAddr] == 0
          && (!rs[k].out ==> Filled(b.mem, b'.mem, b.disk.value, rs[..k], rs[k])))
  }

  lemma OpOfRequest(g: Geometry, m: seq<byte>, head: u16)
    requires WellFormed(g, m, head)
    ensures OpAt(g, m, head) == OpOf(m, RequestAt(g, m, head))
  {
    hide WellFormed, RequestAt, DiskOffset;
  }

  lemma PrefixBytes(g: Geometry, m: seq<byte>, d: seq<byte>, heads: seq<u16>, k: nat)
    requires k <= |heads| && forall j :: 0 <= j < |heads| ==> WellFormed(g, m, heads[j])
    ensures DiskAfter(m, d, Requests(g, m, heads)[..k], RunDisk(d, Ops(g, m, heads)[..k]))
  {
    hide WellFormed, RequestAt, OpAt, OpOf, DiskAfter;
    var rs, ops := Requests(g, m, heads)[..k], Ops(g, m, heads)[..k];
    forall j | 0 <= j < k
      ensures ops[j] == OpOf(m, rs[j])
    {
      OpOfRequest(g, m, heads[j]);
    }
    RunDiskBytes(m, d, rs, ops);
  }

  lemma AnswerFills(g: Geometry, m: seq<byte>, m': seq<byte>, d: seq<byte>, before: seq<Request>, head: u16, disk: seq<byte>)
    requires WellFormed(g, m, head) && |m'| == |m|
    requires Answered(g, m, m', head, disk) && DiskAfter(m, d, before, disk)
    ensures !RequestAt(g, m, head).out ==> Filled(m, m', d, before, RequestAt(g, m, head))
  {
    hide WellFormed, RequestAt, DiskOffset, FirstByte, DiskByte, DiskEnd;
    var r := RequestAt(g, m, head);
    OffsetIsFirstByte(r);
    if !r.out {
      var data := DiskRead(disk, DiskOffset(r.sector), r.dataLen);
      var a, z := r.dataAddr + |data|, r.dataAddr + r.dataLen;
      forall p | r.dataAddr <= p < z
        ensures var at := FirstByte(r) + (p - r.dataAddr); m'[p] == if at < |disk| then disk[at] else m[p]
      {
        if p < a {
          assert m'[r.dataAddr..a][p - r.dataAddr] == m'[p];
        } else {
          assert m'[a..z][p - a] == m'[p] && m[a..z][p - a] == m[p];
        }
      }
    }
  }

  /** The sequential outcome, in bytes: every disk byte is that of the last store to it, a sector
      being 512 bytes; every byte of a read buffer is the disk byte of its place, as the requests
      before it left the disk, and stays what it was past the end of the disk. */
  lemma SequentialByBytes(g: Geometry, b: Device, b': Device, heads: seq<u16>)
    requires forall k :: 0 <= k < |heads| ==> WellFormed(g, b.mem, heads[k])
    requires b.disk.Some? && Sequential(g, b, b', heads)
    ensures ByBytes(g, b, b', heads)
  {
    hide WellFormed, RequestAt, DiskAfter, Filled, Answered, RunDisk, Framed, OpAt;
    var rs, d := Requests(g, b.mem, heads), b.disk.value;
    var ops := Ops(g, b.mem, heads);
    PrefixBytes(g, b.mem, d, heads, |heads|);
    assert rs[..|heads|] == rs && ops[..|heads|] == ops;
    AllStatusesOk(g, b.mem, b'.mem, heads, d);
    forall k | 0 <= k < |rs| && !rs[k].out
      ensures Filled(b.mem, b'.mem, d, rs[..k], rs[k])
    {
      PrefixBytes(g, b.mem, d, heads, k);
      assert Answered(g, b.mem, b'.mem, heads[k], RunDisk(d, ops[..k]));
      AnswerFills(g, b.mem, b'.mem, d, rs[..k], heads[k], RunDisk(d, ops[..k]));
    }
  }

  // ---- What that means ----

  /** No store of `rs` is to one of the `len` disk bytes from `from`. */
  ghost predicate Untouched(rs: seq<Request>, from: nat, len: nat) {
    forall k :: 0 <= k < |rs| && rs[k].out ==>
      rs[k].dataLen == 0 || 512 * rs[k].sector + rs[k].dataLen <= from || from + len <= 512 * rs[k].sector
  }

  lemma UntouchedByte(rs: seq<Request>, from: nat, len: nat, p: nat)
    requires Untouched(rs, from, len) && from <= p < from + len
    requires forall k :: 0 <= k < |rs| ==> FirstByte(rs[k]) == 512 * rs[k].sector
    ensures LastStore(rs, p).None?
  {
    hide FirstByte;
  }

  /** Requests on other sectors do not matter. A read no earlier store of the batch overlaps gets
      the disk's own bytes from `512 * sector` on ... */
  lemma ReadsOwnSectors(g: Geometry, b: Device, b': Device, heads: seq<u16>, k: nat)
    requires forall j :: 0 <= j < |heads| ==> WellFormed(g, b.mem, heads[j])
    requires b.disk.Some? && |b'.mem| == |b.mem| && ByBytes(g, b, b', heads)
    requires forall j :: 0 <= j < |heads| ==> 512 * RequestAt(g, b.mem, heads[j]).sector < TWO_TO_64
    requires k < |heads| && !RequestAt(g, b.mem, heads[k]).out
    requires var r := RequestAt(g, b.mem, heads[k]);
             && 512 * r.sector + r.dataLen <= |b.disk.value|
             && Untouched(Requests(g, b.mem, heads)[..k], 512 * r.sector, r.dataLen)
    ensures var r := RequestAt(g, b.mem, heads[k]);
            b'.mem[r.dataAddr..r.dataAddr + r.dataLen] == b.disk.value[512 * r.sector..512 * r.sector + r.dataLen]
  {
    hide WellFormed, RequestAt, FirstByte, LastStore, DiskEnd;
    var rs, d := Requests(g, b.mem, heads), b.disk.value;
    forall j | 0 <= j < |rs|
      ensures FirstByte(rs[j]) == 512 * rs[j].sector
    {
      OffsetIsFirstByte(rs[j]);
    }
    assert Filled(b.mem, b'.mem, d, rs[..k], rs[k]);
    var have := b'.mem[rs[k].dataAddr..rs[k].dataAddr + rs[k].dataLen];
    var want := d[512 * rs[k].sector..512 * rs[k].sector + rs[k].dataLen];
    forall i | 0 <= i < |have|
      ensures have[i] == want[i]
    {
      var p := 512 * rs[k].sector + i;
      UntouchedByte(rs[..k], 512 * rs[k].sector, rs[k].dataLen, p);
      if p >= DiskEnd(d, rs[..k]) {
        EndsLate(d, rs[..k], p);
      }
      assert b'.mem[rs[k].dataAddr + i] == DiskByte(b.mem, d, rs[..k], p);
    }
  }

  /** ... and a disk byte changes only if a store of the batch covers it. */
  lemma OtherSectorsKept(g: Geometry, b: Device, b': Device, heads: seq<u16>, p: nat)
    requires forall j :: 0 <= j < |heads| ==> WellFormed(g, b.mem, heads[j])
    requires b.disk.Some? && |b'.mem| == |b.mem| && ByBytes(g, b, b', heads)
    requires forall j :: 0 <= j < |heads| ==> 512 * RequestAt(g, b.mem, heads[j]).sector < TWO_TO_64
    requires p < |b.disk.value| && Untouched(Requests(g, b.mem, heads), p, 1)
    ensures p < |b'.disk.value| && b'.disk.value[p] == b.disk.value[p]
  {
    hide WellFormed, RequestAt, FirstByte, LastStore, DiskEnd;
    var rs, d := Requests(g, b.mem, heads), b.disk.value;
    forall j | 0 <= j < |rs|
      ensures FirstByte(rs[j]) == 512 * rs[j].sector
    {
      OffsetIsFirstByte(rs[j]);
    }
    UntouchedByte(rs, p, 1, p);
    if p >= DiskEnd(d, rs) {
      EndsLate(d, rs, p);
    }
  }
}
