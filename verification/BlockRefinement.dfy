/** The block engine refines a sequential disk server: over a batch of well-formed requests the
    wrap-around, memory-aliased drain leaves the disk as if the requests had been applied one
    after another, in available-ring order, to a flat byte array. */
module BlockRefinement {
  import opened Bytes
  import opened Ring
  import opened BlockQueue
  import opened BlockChain
  import opened BlockFootprint

  // ---- The abstract server ----

  datatype Op = Read(off: nat, len: nat) | Write(off: nat, data: seq<byte>)

  function Apply(d: seq<byte>, op: Op): seq<byte> {
    match op
    case Read(_, _) => d
    case Write(off, data) => if data == [] then d else DiskWrite(d, off, data)
  }

  function RunDisk(d: seq<byte>, ops: seq<Op>): seq<byte>
    decreases |ops|
  {
    if ops == [] then d else RunDisk(Apply(d, ops[0]), ops[1..])
  }

  // ---- A batch the driver may submit ----

  function DataRegion(g: Geometry, m: seq<byte>, head: u16): Region
    requires WellFormed(g, m, head)
  {
    var r := RequestAt(g, m, head);
    Region(r.dataAddr, r.dataLen)
  }

  function StatusRegion(g: Geometry, m: seq<byte>, head: u16): Region
    requires WellFormed(g, m, head)
  {
    Region(RequestAt(g, m, head).statusAddr, 1)
  }

  /** What serving `head` may write stays off `region`. */
  predicate Spares(g: Geometry, m: seq<byte>, head: u16, region: Region)
    requires WellFormed(g, m, head)
  {
    && Disjoint(region, StatusRegion(g, m, head))
    && (RequestAt(g, m, head).out || Disjoint(region, DataRegion(g, m, head)))
    && Disjoint(region, UsedRegion(g))
  }

  /** One request respects the queue's own structures and any other request `other`. */
  predicate Compatible(g: Geometry, m: seq<byte>, head: u16, other: u16)
    requires WellFormed(g, m, head) && WellFormed(g, m, other)
  {
    && Spares(g, m, head, AvailRegion(g))
    && Spares(g, m, head, TableRegion(g))
    && Spares(g, m, head, HeaderRegion(g, m, other))
    && Disjoint(UsedRegion(g), StatusRegion(g, m, head))
    && Disjoint(UsedRegion(g), DataRegion(g, m, other))
    && Disjoint(StatusRegion(g, m, head), DataRegion(g, m, other))
  }

  /** Two different requests share data only if both are writes to the disk. */
  predicate DataApart(g: Geometry, m: seq<byte>, head: u16, other: u16)
    requires WellFormed(g, m, head) && WellFormed(g, m, other)
  {
    || Disjoint(DataRegion(g, m, head), DataRegion(g, m, other))
    || (RequestAt(g, m, head).out && RequestAt(g, m, other).out)
  }

  /** Requests the driver may have outstanding together. */
  ghost predicate Submitted(g: Geometry, m: seq<byte>, heads: seq<u16>) {
    && (forall k :: 0 <= k < |heads| ==> WellFormed(g, m, heads[k]))
    && (forall j, k :: 0 <= j < |heads| && 0 <= k < |heads| ==> Compatible(g, m, heads[j], heads[k]))
    && (forall j, k :: 0 <= j < k < |heads| ==> DataApart(g, m, heads[j], heads[k]))
  }

  /** Such requests, in the slots from the cursor on. */
  ghost predicate Batch(g: Geometry, m: seq<byte>, last: u16, heads: seq<u16>) {
    && g.size > 0
    && Within(AvailRegion(g), |m|)
    && (forall k :: 0 <= k < |heads| ==> HeadAt(g, m, Wrap(last + k)) == Some(heads[k]))
    && Submitted(g, m, heads)
  }

  function OpAt(g: Geometry, m: seq<byte>, head: u16): Op
    requires WellFormed(g, m, head)
  {
    var r := RequestAt(g, m, head);
    if r.out then Write(DiskOffset(r.sector), m[r.dataAddr..r.dataAddr + r.dataLen])
    else Read(DiskOffset(r.sector), r.dataLen)
  }

  /** The disk operations a batch asks for, with the data the buffers hold at the start. */
  function Ops(g: Geometry, m: seq<byte>, heads: seq<u16>): seq<Op>
    requires forall k :: 0 <= k < |heads| ==> WellFormed(g, m, heads[k])
  {
    seq(|heads|, k requires 0 <= k < |heads| => OpAt(g, m, heads[k]))
  }

  // ---- One request ----

  /** Final memory `m'` holds the answer to the request at `head` on a disk `d`: the status, and in a
      read buffer what the disk has, with the bytes after that as they were. */
  ghost predicate Answered(g: Geometry, m: seq<byte>, m': seq<byte>, head: u16, d: seq<byte>)
    requires WellFormed(g, m, head) && |m'| == |m|
  {
    var r := RequestAt(g, m, head);
    && m'[r.statusAddr] == 0
    && (!r.out ==>
          var data := DiskRead(d, DiskOffset(r.sector), r.dataLen);
          && m'[r.dataAddr..r.dataAddr + |data|] == data
          && m'[r.dataAddr + |data|..r.dataAddr + r.dataLen] == m[r.dataAddr + |data|..r.dataAddr + r.dataLen])
  }

  /** One turn of the drain, on a chain that ends. */
  function Served(g: Geometry, b: Device, head: u16): (b': Device)
    requires g.size > 0
    ensures |b'.mem| == |b.mem|
  {
    match Chain(b.mem, g.desc, head, {})
    case None => b
    case Some(ds) => Serve(g, b, head, ds)
  }

  lemma ServedSpares(g: Geometry, b: Device, head: u16, region: Region)
    requires g.size > 0 && WellFormed(g, b.mem, head) && Spares(g, b.mem, head, region)
    ensures Unchanged(b.mem, Served(g, b, head).mem, region)
  {
    hide Serve, Chain, Reading, WellFormed, RequestAt;
    WellFormedReads(g, b.mem, head);
    forall p | region.base <= p < region.base + region.len && p < |b.mem|
      ensures Served(g, b, head).mem[p] == b.mem[p]
    {
      ServeConfined(g, b, head, Chain(b.mem, g.desc, head, {}).value, p);
    }
  }

  /** What two stores put in a buffer and a status byte stays there when the used element is
      published, and the rest of the buffer stays what it was. */
  lemma StoresStay(g: Geometry, m: seq<byte>, r: Request, data: seq<byte>, e: Element)
    requires g.size > 0 && |data| <= r.dataLen && r.dataAddr + r.dataLen <= |m| && r.statusAddr < |m|
    requires Disjoint(Region(r.statusAddr, 1), Region(r.dataAddr, r.dataLen))
    requires Disjoint(UsedRegion(g), Region(r.statusAddr, 1)) && Disjoint(UsedRegion(g), Region(r.dataAddr, r.dataLen))
    ensures var m' := PutUsed(g, Store(Store(m, r.dataAddr, data), r.statusAddr, [S_OK]), e);
            && m'[r.statusAddr] == 0 && m'[r.dataAddr..r.dataAddr + |data|] == data
            && m'[r.dataAddr + |data|..r.dataAddr + r.dataLen] == m[r.dataAddr + |data|..r.dataAddr + r.dataLen]
  {
    hide PutUsed;
    var m1 := Store(m, r.dataAddr, data);
    var m2 := Store(m1, r.statusAddr, [S_OK]);
    StoreLoad(m, r.dataAddr, data);
    StoreFrame(m1, r.statusAddr, [S_OK], Region(r.dataAddr, |data|));
    SliceSame(m1, m2, r.dataAddr, |data|);
    PutUsedSpares(g, m2, e, Region(r.statusAddr, 1));
    PutUsedSpares(g, m2, e, Region(r.dataAddr, |data|));
    SliceSame(m2, PutUsed(g, m2, e), r.dataAddr, |data|);
    TailStays(g, m, r, data, e);
  }

  /** The answer to a request stays where it was put when its used element is published. */
  lemma AnswerStays(g: Geometry, m: seq<byte>, d: seq<byte>, r: Request, e: Element)
    requires g.size > 0
    requires r.dataAddr > 0 && r.dataLen > 0 && r.dataAddr + r.dataLen <= |m| && 0 < r.statusAddr < |m|
    requires Seekable(DiskOffset(r.sector)) && Disjoint(Region(r.statusAddr, 1), Region(r.dataAddr, r.dataLen))
    requires Disjoint(UsedRegion(g), Region(r.statusAddr, 1)) && Disjoint(UsedRegion(g), Region(r.dataAddr, r.dataLen))
    ensures var m' := PutUsed(g, Answer(m, Some(d), r).mem, e);
            var data := if r.out then [] else DiskRead(d, DiskOffset(r.sector), r.dataLen);
            && m'[r.statusAddr] == 0 && m'[r.dataAddr..r.dataAddr + |data|] == data
            && m'[r.dataAddr + |data|..r.dataAddr + r.dataLen] == m[r.dataAddr + |data|..r.dataAddr + r.dataLen]
  {
    hide Answer, PutUsed, DiskRead, DiskWrite, DiskOffset, Store, UsedRegion;
    AnswerOf(m, d, r);
    StoresStay(g, m, r, if r.out then [] else DiskRead(d, DiskOffset(r.sector), r.dataLen), e);
  }

  lemma TailStays(g: Geometry, m: seq<byte>, r: Request, data: seq<byte>, e: Element)
    requires g.size > 0 && |data| <= r.dataLen && r.dataAddr + r.dataLen <= |m|
    requires Disjoint(Region(r.statusAddr, 1), Region(r.dataAddr, r.dataLen))
    requires Disjoint(UsedRegion(g), Region(r.dataAddr, r.dataLen))
    ensures var m' := PutUsed(g, Store(Store(m, r.dataAddr, data), r.statusAddr, [S_OK]), e);
            m'[r.dataAddr + |data|..r.dataAddr + r.dataLen] == m[r.dataAddr + |data|..r.dataAddr + r.dataLen]
  {
    hide PutUsed;
    var tail := Region(r.dataAddr + |data|, r.dataLen - |data|);
    var m1 := Store(m, r.dataAddr, data);
    var m2 := Store(m1, r.statusAddr, [S_OK]);
    StoreFrame(m, r.dataAddr, data, tail);
    StoreFrame(m1, r.statusAddr, [S_OK], tail);
    PutUsedSpares(g, m2, e, tail);
    SliceSame(m, PutUsed(g, m2, e), tail.base, tail.len);
  }

  lemma PutUsedSpares(g: Geometry, m: seq<byte>, e: Element, region: Region)
    requires g.size > 0 && Disjoint(UsedRegion(g), region)
    ensures Unchanged(m, PutUsed(g, m, e), region)
  {
    hide PutUsed;
    forall p | region.base <= p < region.base + region.len && p < |m|
      ensures m[p] == PutUsed(g, m, e)[p]
    {
      PutUsedConfined(g, m, e, p);
    }
  }

  lemma ServedIs(g: Geometry, b: Device, head: u16)
    requires g.size > 0 && WellFormed(g, b.mem, head)
    ensures var o := Answer(b.mem, b.disk, RequestAt(g, b.mem, head));
            Served(g, b, head) == Device(PutUsed(g, o.mem, Element(head, o.written)), o.disk, Wrap(b.last + 1))
  {
    hide WellFormed, RequestAt, Chain, Reading, Answer, PutUsed, Wrap;
    WellFormedReads(g, b.mem, head);
  }

  lemma AnswerApplies(g: Geometry, m: seq<byte>, d: seq<byte>, head: u16)
    requires WellFormed(g, m, head)
    ensures Answer(m, Some(d), RequestAt(g, m, head)).disk == Some(Apply(d, OpAt(g, m, head)))
  {
    hide WellFormed, RequestAt, Answer, DiskRead, DiskWrite, Store, DiskOffset;
    AnswerOf(m, d, RequestAt(g, m, head));
  }

  lemma ServedEffect(g: Geometry, b: Device, head: u16)
    requires g.size > 0 && WellFormed(g, b.mem, head) && Compatible(g, b.mem, head, head)
    requires b.disk.Some?
    ensures var b' := Served(g, b, head);
            && b'.disk == Some(Apply(b.disk.value, OpAt(g, b.mem, head)))
            && b'.last == Wrap(b.last + 1)
            && Answered(g, b.mem, b'.mem, head, b.disk.value)
  {
    hide WellFormed, RequestAt, Served, Answer, PutUsed, DiskRead, HeaderRegion, DiskOffset, OpAt, Apply, Wrap, Spares;
    var r, d := RequestAt(g, b.mem, head), b.disk.value;
    ServedIs(g, b, head);
    AnswerApplies(g, b.mem, d, head);
    AnswerStays(g, b.mem, d, r, Element(head, Answer(b.mem, b.disk, r).written));
  }

  /** In `m'` the request at `head` asks for the same thing as in `m`. */
  ghost predicate SameAsk(g: Geometry, m: seq<byte>, m': seq<byte>, head: u16)
    requires WellFormed(g, m, head)
  {
    && WellFormed(g, m', head)
    && RequestAt(g, m', head) == RequestAt(g, m, head)
    && HeaderRegion(g, m', head) == HeaderRegion(g, m, head)
  }

  lemma AskSurvives(g: Geometry, b: Device, head: u16, other: u16)
    requires g.size > 0 && WellFormed(g, b.mem, head) && WellFormed(g, b.mem, other)
    requires Compatible(g, b.mem, head, other)
    ensures SameAsk(g, b.mem, Served(g, b, head).mem, other)
    ensures WellFormed(g, Served(g, b, head).mem, other)
  {
    hide WellFormed, Served, Spares, RequestAt, HeaderRegion;
    ServedSpares(g, b, head, TableRegion(g));
    ServedSpares(g, b, head, HeaderRegion(g, b.mem, other));
    SameRequest(g, b.mem, Served(g, b, head).mem, other);
  }

  lemma OpSurvives(g: Geometry, b: Device, head: u16, other: u16)
    requires g.size > 0 && WellFormed(g, b.mem, head) && WellFormed(g, b.mem, other)
    requires Compatible(g, b.mem, head, other) && DataApart(g, b.mem, head, other)
    ensures WellFormed(g, Served(g, b, head).mem, other)
    ensures OpAt(g, Served(g, b, head).mem, other) == OpAt(g, b.mem, other)
  {
    hide WellFormed, Served, RequestAt, HeaderRegion;
    AskSurvives(g, b, head, other);
    DataSurvives(g, b, head, other);
  }

  lemma DataSurvives(g: Geometry, b: Device, head: u16, other: u16)
    requires g.size > 0 && WellFormed(g, b.mem, head) && WellFormed(g, b.mem, other)
    requires Compatible(g, b.mem, head, other) && DataApart(g, b.mem, head, other)
    ensures Unchanged(b.mem, Served(g, b, head).mem, DataRegion(g, b.mem, other))
  {
    hide WellFormed, Served, RequestAt, HeaderRegion;
    ServedSpares(g, b, head, DataRegion(g, b.mem, other));
  }

  lemma HeadSurvives(g: Geometry, b: Device, head: u16, at: u16)
    requires g.size > 0 && WellFormed(g, b.mem, head) && Compatible(g, b.mem, head, head)
    requires Within(AvailRegion(g), |b.mem|)
    ensures HeadAt(g, Served(g, b, head).mem, at) == HeadAt(g, b.mem, at)
  {
    hide WellFormed, Served, RequestAt, HeaderRegion, Spares;
    ServedSpares(g, b, head, AvailRegion(g));
    SlotInRing(g, at);
    Word16Same(b.mem, Served(g, b, head).mem, AvailSlot(g, at));
  }

  lemma PairSurvives(g: Geometry, m: seq<byte>, m': seq<byte>, head: u16, other: u16)
    requires WellFormed(g, m, head) && WellFormed(g, m, other)
    requires SameAsk(g, m, m', head) && SameAsk(g, m, m', other)
    ensures Compatible(g, m', head, other) == Compatible(g, m, head, other)
    ensures DataApart(g, m', head, other) == DataApart(g, m, head, other)
  {
    hide WellFormed, RequestAt, HeaderRegion;
  }

  /** Serving the first request of a batch leaves a batch, with the same operations. */
  lemma BatchRest(g: Geometry, b: Device, heads: seq<u16>)
    requires |heads| > 0 && Batch(g, b.mem, b.last, heads)
    ensures var m' := Served(g, b, heads[0]).mem;
            && Batch(g, m', Wrap(b.last + 1), heads[1..])
            && (forall k :: 0 <= k < |heads| ==> SameAsk(g, b.mem, m', heads[k]) && WellFormed(g, m', heads[k]))
            && (forall k :: 1 <= k < |heads| ==>
                  && OpAt(g, m', heads[k]) == OpAt(g, b.mem, heads[k])
                  && Unchanged(b.mem, m', DataRegion(g, b.mem, heads[k])))
  {
    hide Served, Compatible, DataApart, WellFormed, HeadAt, OpAt, SameAsk, Wrap;
    var m' := Served(g, b, heads[0]).mem;
    var rest := heads[1..];
    forall k | 0 <= k < |heads|
      ensures SameAsk(g, b.mem, m', heads[k]) && WellFormed(g, m', heads[k])
      ensures k > 0 ==> OpAt(g, m', heads[k]) == OpAt(g, b.mem, heads[k])
      ensures k > 0 ==> Unchanged(b.mem, m', DataRegion(g, b.mem, heads[k]))
    {
      AskSurvives(g, b, heads[0], heads[k]);
      if k > 0 {
        OpSurvives(g, b, heads[0], heads[k]);
        DataSurvives(g, b, heads[0], heads[k]);
      }
    }
    forall k | 0 <= k < |rest|
      ensures HeadAt(g, m', Wrap(Wrap(b.last + 1) + k)) == Some(rest[k])
    {
      WrapPlus(b.last, k);
      assert Compatible(g, b.mem, heads[0], heads[0]);
      HeadSurvives(g, b, heads[0], Wrap(b.last + (k + 1)));
    }
    PairsSurvive(g, b.mem, m', heads);
  }

  lemma PairsSurvive(g: Geometry, m: seq<byte>, m': seq<byte>, heads: seq<u16>)
    requires |heads| > 0 && Submitted(g, m, heads)
    requires forall k :: 0 <= k < |heads| ==> SameAsk(g, m, m', heads[k])
    ensures Submitted(g, m', heads[1..])
  {
    hide Compatible, DataApart, WellFormed, RequestAt, HeaderRegion;
    var rest := heads[1..];
    assert forall k :: 0 <= k < |rest| ==> rest[k] == heads[k + 1];
    forall j, k | 0 <= j < |rest| && 0 <= k < |rest|
      ensures WellFormed(g, m', rest[j]) && WellFormed(g, m', rest[k])
      ensures Compatible(g, m', rest[j], rest[k])
      ensures j < k ==> DataApart(g, m', rest[j], rest[k])
    {
      PairSurvives(g, m, m', heads[j + 1], heads[k + 1]);
    }
  }

  // ---- The whole drain ----

  ghost predicate AllAnswered(g: Geometry, m: seq<byte>, m': seq<byte>, heads: seq<u16>, d: seq<byte>)
    requires forall k :: 0 <= k < |heads| ==> WellFormed(g, m, heads[k])
    requires |m'| == |m|
  {
    forall k :: 0 <= k < |heads| ==> Answered(g, m, m', heads[k], RunDisk(d, Ops(g, m, heads)[..k]))
  }

  /** No byte changes outside the used ring, the status bytes and the read buffers. */
  ghost predicate Framed(g: Geometry, m: seq<byte>, m': seq<byte>, heads: seq<u16>)
    requires forall k :: 0 <= k < |heads| ==> WellFormed(g, m, heads[k])
    requires |m'| == |m|
  {
    forall p :: 0 <= p < |m| && !UsedRegion(g).Has(p) && !AnyWrites(g, m, heads, p) ==> m'[p] == m[p]
  }

  ghost predicate AnyWrites(g: Geometry, m: seq<byte>, heads: seq<u16>, p: int)
    requires forall k :: 0 <= k < |heads| ==> WellFormed(g, m, heads[k])
  {
    exists k :: 0 <= k < |heads| && Writes(RequestAt(g, m, heads[k]), p)
  }

  lemma OpsRest(g: Geometry, m: seq<byte>, m1: seq<byte>, heads: seq<u16>)
    requires |heads| > 0
    requires forall k :: 0 <= k < |heads| ==> WellFormed(g, m, heads[k])
    requires forall k :: 0 <= k < |heads| - 1 ==> WellFormed(g, m1, heads[1..][k])
    requires forall k :: 1 <= k < |heads| ==> WellFormed(g, m1, heads[k]) && OpAt(g, m1, heads[k]) == OpAt(g, m, heads[k])
    ensures Ops(g, m1, heads[1..]) == Ops(g, m, heads)[1..]
  {
    hide WellFormed, OpAt;
  }

  lemma DrainUnfolds(g: Geometry, b: Device, head: u16, target: u16)
    requires g.size > 0 && b.last != target && HeadAt(g, b.mem, b.last) == Some(head)
    requires WellFormed(g, b.mem, head)
    ensures Drain(g, b, target) == Drain(g, Served(g, b, head), target)
  {
    hide Serve, Chain, WellFormed, Reading;
    WellFormedReads(g, b.mem, head);
  }

  /** What holds of the requests of a batch across the service of its first one. */
  ghost predicate Stable(g: Geometry, m: seq<byte>, m1: seq<byte>, heads: seq<u16>) {
    && |heads| > 0 && |m1| == |m|
    && Submitted(g, m, heads)
    && (forall k :: 0 <= k < |heads| ==> SameAsk(g, m, m1, heads[k]))
  }

  lemma StableFormed(g: Geometry, m: seq<byte>, m1: seq<byte>, heads: seq<u16>, k: nat)
    requires Stable(g, m, m1, heads) && k < |heads|
    ensures WellFormed(g, m1, heads[k]) && RequestAt(g, m1, heads[k]) == RequestAt(g, m, heads[k])
  {
    hide WellFormed, RequestAt, HeaderRegion;
    assert SameAsk(g, m, m1, heads[k]);
  }

  lemma StableRest(g: Geometry, m: seq<byte>, m1: seq<byte>, heads: seq<u16>)
    requires Stable(g, m, m1, heads)
    ensures forall k :: 0 <= k < |heads| - 1 ==> WellFormed(g, m1, heads[1..][k])
    ensures forall k :: 0 <= k < |heads| - 1 ==>
      RequestAt(g, m1, heads[1..][k]) == RequestAt(g, m, heads[k + 1])
  {
    hide Compatible, DataApart, SameAsk, WellFormed, RequestAt;
    forall k | 0 <= k < |heads| - 1
      ensures WellFormed(g, m1, heads[1..][k])
      ensures RequestAt(g, m1, heads[1..][k]) == RequestAt(g, m, heads[k + 1])
    {
      StableFormed(g, m, m1, heads, k + 1);
    }
  }

  /** Nothing after the first request writes to the buffer it filled. */
  lemma FirstDataSpared(g: Geometry, m: seq<byte>, m1: seq<byte>, heads: seq<u16>, p: nat)
    requires Stable(g, m, m1, heads) && !RequestAt(g, m, heads[0]).out
    requires DataRegion(g, m, heads[0]).Has(p)
    requires forall k :: 0 <= k < |heads| - 1 ==> WellFormed(g, m1, heads[1..][k])
    ensures !UsedRegion(g).Has(p) && !AnyWrites(g, m1, heads[1..], p)
  {
    hide WellFormed, RequestAt, HeaderRegion, SameAsk;
    StableRest(g, m, m1, heads);
    assert Compatible(g, m, heads[0], heads[0]);
    forall k | 0 <= k < |heads| - 1
      ensures !Writes(RequestAt(g, m1, heads[1..][k]), p)
    {
      assert Compatible(g, m, heads[k + 1], heads[0]) && DataApart(g, m, heads[0], heads[k + 1]);
    }
  }

  /** The first request's answer outlives the rest of the drain. */
  lemma FirstAnswerStays(g: Geometry, m: seq<byte>, m1: seq<byte>, m2: seq<byte>, heads: seq<u16>, d: seq<byte>)
    requires Stable(g, m, m1, heads) && |m2| == |m|
    requires forall k :: 0 <= k < |heads| - 1 ==> WellFormed(g, m1, heads[1..][k])
    requires Answered(g, m, m1, heads[0], d)
    requires Framed(g, m1, m2, heads[1..]) && StatusesOk(g, m1, m2, heads[1..])
    ensures Answered(g, m, m2, heads[0], d)
  {
    hide WellFormed, HeaderRegion, DiskRead, SameAsk, Compatible, DataApart;
    var r := RequestAt(g, m, heads[0]);
    var data := if r.out then [] else DiskRead(d, DiskOffset(r.sector), r.dataLen);
    FirstStatusStays(g, m, m1, m2, heads);
    if !r.out {
      forall p | DataRegion(g, m, heads[0]).Has(p)
        ensures m2[p] == m1[p]
      {
        FirstDataSpared(g, m, m1, heads, p);
      }
      SliceSame(m1, m2, r.dataAddr, |data|);
      SliceSame(m1, m2, r.dataAddr + |data|, r.dataLen - |data|);
    }
  }

  lemma FirstStatusStays(g: Geometry, m: seq<byte>, m1: seq<byte>, m2: seq<byte>, heads: seq<u16>)
    requires Stable(g, m, m1, heads) && |m2| == |m|
    requires forall k :: 0 <= k < |heads| - 1 ==> WellFormed(g, m1, heads[1..][k])
    requires m1[RequestAt(g, m, heads[0]).statusAddr] == 0
    requires Framed(g, m1, m2, heads[1..]) && StatusesOk(g, m1, m2, heads[1..])
    ensures m2[RequestAt(g, m, heads[0]).statusAddr] == 0
  {
    hide WellFormed, RequestAt, HeaderRegion, SameAsk;
    var p := RequestAt(g, m, heads[0]).statusAddr;
    var rest := heads[1..];
    assert Compatible(g, m, heads[0], heads[0]);
    StableRest(g, m, m1, heads);
    forall k | 0 <= k < |rest| && Writes(RequestAt(g, m1, rest[k]), p)
      ensures m2[p] == 0
    {
      assert Compatible(g, m, heads[0], heads[k + 1]);
    }
  }

  ghost predicate StatusesOk(g: Geometry, m: seq<byte>, m': seq<byte>, heads: seq<u16>)
    requires forall k :: 0 <= k < |heads| ==> WellFormed(g, m, heads[k])
    requires |m'| == |m|
  {
    forall k :: 0 <= k < |heads| ==> m'[RequestAt(g, m, heads[k]).statusAddr] == 0
  }

  lemma RunRest(d: seq<byte>, ops: seq<Op>, k: nat)
    requires 0 < k <= |ops|
    ensures RunDisk(d, ops[..k]) == RunDisk(Apply(d, ops[0]), ops[1..][..k - 1])
  {
    hide Apply;
    assert ops[..k][1..] == ops[1..][..k - 1];
  }

  lemma AnswersJoin(g: Geometry, m: seq<byte>, m1: seq<byte>, m2: seq<byte>, heads: seq<u16>, d: seq<byte>)
    requires Stable(g, m, m1, heads) && |m2| == |m|
    requires forall k :: 0 <= k < |heads| - 1 ==> WellFormed(g, m1, heads[1..][k])
    requires Answered(g, m, m2, heads[0], d)
    requires Ops(g, m1, heads[1..]) == Ops(g, m, heads)[1..]
    requires AllAnswered(g, m1, m2, heads[1..], Apply(d, OpAt(g, m, heads[0])))
    requires forall k :: 1 <= k < |heads| ==> Unchanged(m, m1, DataRegion(g, m, heads[k]))
    ensures AllAnswered(g, m, m2, heads, d)
  {
    hide WellFormed, RequestAt, HeaderRegion, DiskRead, SameAsk, OpAt, Apply, RunDisk, Compatible, DataApart;
    var ops := Ops(g, m, heads);
    StableRest(g, m, m1, heads);
    forall k | 0 <= k < |heads|
      ensures Answered(g, m, m2, heads[k], RunDisk(d, ops[..k]))
    {
      if k == 0 {
        RunNone(d, ops[..0]);
      } else {
        RunRest(d, ops, k);
        assert Answered(g, m1, m2, heads[1..][k - 1], RunDisk(Apply(d, ops[0]), ops[1..][..k - 1]));
        AnsweredBefore(g, m, m1, m2, heads[k], RunDisk(d, ops[..k]));
      }
    }
  }

  lemma AnsweredBefore(g: Geometry, m: seq<byte>, m1: seq<byte>, m2: seq<byte>, head: u16, d: seq<byte>)
    requires WellFormed(g, m, head) && WellFormed(g, m1, head) && |m1| == |m| == |m2|
    requires RequestAt(g, m1, head) == RequestAt(g, m, head) && Unchanged(m, m1, DataRegion(g, m, head))
    requires Answered(g, m1, m2, head, d)
    ensures Answered(g, m, m2, head, d)
  {
    hide WellFormed, RequestAt, DiskRead, DiskOffset;
    var r := RequestAt(g, m, head);
    var n := |DiskRead(d, DiskOffset(r.sector), r.dataLen)|;
    SliceSame(m, m1, r.dataAddr + n, r.dataLen - n);
  }

  lemma RunNone(d: seq<byte>, ops: seq<Op>)
    requires ops == []
    ensures RunDisk(d, ops) == d
  {
  }

  lemma FramesJoin(g: Geometry, b: Device, m1: seq<byte>, m2: seq<byte>, heads: seq<u16>)
    requires g.size > 0 && Stable(g, b.mem, m1, heads) && |m2| == |m1|
    requires m1 == Served(g, b, heads[0]).mem
    requires forall k :: 0 <= k < |heads| - 1 ==> WellFormed(g, m1, heads[1..][k])
    requires Framed(g, m1, m2, heads[1..])
    ensures Framed(g, b.mem, m2, heads)
  {
    hide WellFormed, RequestAt, Writes, Chain, Serve, Reading, Compatible, DataApart, SameAsk;
    StableRest(g, b.mem, m1, heads);
    WellFormedReads(g, b.mem, heads[0]);
    forall p | 0 <= p < |b.mem| && !UsedRegion(g).Has(p) && !AnyWrites(g, b.mem, heads, p)
      ensures m2[p] == b.mem[p]
    {
      ServeConfined(g, b, heads[0], Chain(b.mem, g.desc, heads[0], {}).value, p);
      forall k | 0 <= k < |heads| - 1
        ensures !Writes(RequestAt(g, m1, heads[1..][k]), p)
      {
        assert !Writes(RequestAt(g, b.mem, heads[k + 1]), p);
      }
    }
  }

  lemma AllStatusesOk(g: Geometry, m: seq<byte>, m': seq<byte>, heads: seq<u16>, d: seq<byte>)
    requires forall k :: 0 <= k < |heads| ==> WellFormed(g, m, heads[k])
    requires |m'| == |m| && AllAnswered(g, m, m', heads, d)
    ensures StatusesOk(g, m, m', heads)
  {
    hide WellFormed, RequestAt;
    forall k | 0 <= k < |heads|
      ensures m'[RequestAt(g, m, heads[k]).statusAddr] == 0
    {
      assert Answered(g, m, m', heads[k], RunDisk(d, Ops(g, m, heads)[..k]));
    }
  }

  /** The outcome of a drain on a batch that starts at `b`. */
  ghost predicate Sequential(g: Geometry, b: Device, b': Device, heads: seq<u16>)
    requires forall k :: 0 <= k < |heads| ==> WellFormed(g, b.mem, heads[k])
    requires b.disk.Some?
  {
    && |b'.mem| == |b.mem|
    && b'.disk == Some(RunDisk(b.disk.value, Ops(g, b.mem, heads)))
    && AllAnswered(g, b.mem, b'.mem, heads, b.disk.value)
    && Framed(g, b.mem, b'.mem, heads)
  }

  lemma SequentialNone(g: Geometry, b: Device)
    requires g.size > 0 && b.disk.Some?
    ensures Drain(g, b, b.last) == Some(b) && Sequential(g, b, b, [])
  {
  }

  lemma SequentialJoin(g: Geometry, b: Device, b1: Device, b2: Device, heads: seq<u16>)
    requires |heads| > 0 && Batch(g, b.mem, b.last, heads) && b.disk.Some?
    requires b1 == Served(g, b, heads[0]) && b1.disk.Some?
    requires forall k :: 0 <= k < |heads| - 1 ==> WellFormed(g, b1.mem, heads[1..][k])
    requires Sequential(g, b1, b2, heads[1..])
    ensures Sequential(g, b, b2, heads)
  {
    hide Served, Compatible, DataApart, WellFormed, HeadAt, OpAt, SameAsk, Wrap, Answered, Framed, RequestAt, AllAnswered, StatusesOk, Apply;
    var d := b.disk.value;
    BatchRest(g, b, heads);
    assert Compatible(g, b.mem, heads[0], heads[0]);
    ServedEffect(g, b, heads[0]);
    OpsRest(g, b.mem, b1.mem, heads);
    assert Stable(g, b.mem, b1.mem, heads);
    AllStatusesOk(g, b1.mem, b2.mem, heads[1..], b1.disk.value);
    FirstAnswerStays(g, b.mem, b1.mem, b2.mem, heads, d);
    AnswersJoin(g, b.mem, b1.mem, b2.mem, heads, d);
    FramesJoin(g, b, b1.mem, b2.mem, heads);
  }

  lemma BatchFirst(g: Geometry, b: Device, heads: seq<u16>, target: u16)
    requires |heads| > 0 && Batch(g, b.mem, b.last, heads) && b.disk.Some? && b.last != target
    ensures g.size > 0 && Drain(g, b, target) == Drain(g, Served(g, b, heads[0]), target)
    ensures Served(g, b, heads[0]).last == Wrap(b.last + 1) && Served(g, b, heads[0]).disk.Some?
    ensures WellFormed(g, b.mem, heads[0]) && HeadAt(g, b.mem, b.last) == Some(heads[0])
  {
    hide Served, Compatible, DataApart, WellFormed, HeadAt, OpAt, Answered, Drain;
    WrapMoves(b.last, 0);
    DrainUnfolds(g, b, heads[0], target);
    assert Compatible(g, b.mem, heads[0], heads[0]);
    ServedEffect(g, b, heads[0]);
  }

  /** The drain of a batch, wherever the cursor stands in its 16-bit range: the disk is the
      sequential one, every read buffer holds the disk as of its place in the order, every
      status is OK, and no other memory changes but the used ring. */
  lemma {:induction false} DrainServesInOrder(g: Geometry, b: Device, heads: seq<u16>, target: u16)
    requires Batch(g, b.mem, b.last, heads) && b.disk.Some?
    requires |heads| < 0x1_0000 && target == Wrap(b.last + |heads|)
    ensures Drain(g, b, target).Some?
    ensures var b' := Drain(g, b, target).value;
            b'.last == target && Sequential(g, b, b', heads)
    decreases |heads|
  {
    hide Served, Compatible, DataApart, WellFormed, HeadAt, OpAt, SameAsk, Wrap, Answered, RequestAt;
    hide Sequential, Drain;
    WrapMoves(b.last, |heads|);
    if heads == [] {
      SequentialNone(g, b);
    } else {
      BatchFirst(g, b, heads, target);
      var b1 := Served(g, b, heads[0]);
      BatchRest(g, b, heads);
      WrapPlus(b.last, |heads| - 1);
      DrainServesInOrder(g, b1, heads[1..], target);
      SequentialJoin(g, b, b1, Drain(g, b1, target).value, heads);
    }
  }

  /** No address sum of that drain wraps, if those of the queue do not. */
  lemma {:induction false} BatchFits(g: Geometry, b: Device, heads: seq<u16>, target: u16)
    requires Batch(g, b.mem, b.last, heads) && b.disk.Some?
    requires |heads| < 0x1_0000 && target == Wrap(b.last + |heads|)
    requires QueueFits(g) && |b.mem| < TWO_TO_64
    ensures DrainFits(g, b, target)
    decreases |heads|
  {
    hide Served, Compatible, DataApart, WellFormed, HeadAt, OpAt, SameAsk, Wrap, RequestAt, Drain, QueueFits;
    WrapMoves(b.last, |heads|);
    if heads != [] {
      BatchFirst(g, b, heads, target);
      BatchRest(g, b, heads);
      WrapPlus(b.last, |heads| - 1);
      BatchFits(g, Served(g, b, heads[0]), heads[1..], target);
      FitsFirst(g, b, heads[0], target);
    }
  }

  lemma FitsFirst(g: Geometry, b: Device, head: u16, target: u16)
    requires g.size > 0 && b.last != target && HeadAt(g, b.mem, b.last) == Some(head)
    requires WellFormed(g, b.mem, head) && |b.mem| < TWO_TO_64
    requires DrainFits(g, Served(g, b, head), target)
    ensures DrainFits(g, b, target)
  {
    hide Serve, Chain, WellFormed, Reading, HeadAt, ChainFits, QueueFits, Gap;
    WellFormedFits(g, b.mem, head);
    FitsQueue(g, Served(g, b, head), target);
  }

  lemma FitsQueue(g: Geometry, b: Device, target: u16)
    requires g.size > 0 && DrainFits(g, b, target)
    ensures QueueFits(g)
  {
    hide QueueFits, Serve, Chain, HeadAt, Gap;
  }

  // ---- Reading back what was written ----

  predicate Overwrites(op: Op, off: nat, len: nat) {
    op.Write? && !Disjoint(Region(op.off, |op.data|), Region(off, len))
  }

  lemma {:induction false} RunDiskAppend(d: seq<byte>, a: seq<Op>, b: seq<Op>)
    ensures RunDisk(d, a + b) == RunDisk(RunDisk(d, a), b)
    decreases |a|
  {
    if a == [] {
      assert a + b == b;
    } else {
      assert (a + b)[1..] == a[1..] + b;
      RunDiskAppend(Apply(d, a[0]), a[1..], b);
    }
  }

  lemma {:induction false} RunDiskKeeps(d: seq<byte>, ops: seq<Op>, p: nat)
    requires p < |d| && forall k :: 0 <= k < |ops| ==> !Overwrites(ops[k], p, 1)
    ensures p < |RunDisk(d, ops)| && RunDisk(d, ops)[p] == d[p]
    decreases |ops|
  {
    if ops != [] {
      assert !Overwrites(ops[0], p, 1);
      RunDiskKeeps(Apply(d, ops[0]), ops[1..], p);
    }
  }

  lemma ByteReadsBack(d: seq<byte>, ops: seq<Op>, i: nat, k: nat, p: nat)
    requires i < k <= |ops| && ops[i].Write? && ops[i].off <= p < ops[i].off + |ops[i].data|
    requires forall j :: i < j < k ==> !Overwrites(ops[j], p, 1)
    ensures p < |RunDisk(d, ops[..k])| && RunDisk(d, ops[..k])[p] == ops[i].data[p - ops[i].off]
  {
    hide RunDisk, Apply, Overwrites;
    RunDiskSplit(d, ops, i, k);
    var d0, later := RunDisk(d, ops[..i]), ops[i + 1..k];
    assert forall j :: 0 <= j < |later| ==> later[j] == ops[i + 1 + j];
    WriteLands(d0, ops[i], p);
    RunDiskKeeps(Apply(d0, ops[i]), later, p);
  }

  lemma WriteLands(d: seq<byte>, w: Op, p: nat)
    requires w.Write? && w.off <= p < w.off + |w.data|
    ensures p < |Apply(d, w)| && Apply(d, w)[p] == w.data[p - w.off]
  {
  }

  /** A read inside what an earlier operation wrote, with nothing written to it in between,
      returns those bytes, whatever was on the disk. */
  lemma ReadsBack(d: seq<byte>, ops: seq<Op>, i: nat, k: nat, off: nat, len: nat)
    requires i < k <= |ops| && ops[i].Write? && len > 0
    requires ops[i].off <= off && off + len <= ops[i].off + |ops[i].data|
    requires forall j :: i < j < k ==> !Overwrites(ops[j], off, len)
    ensures DiskRead(RunDisk(d, ops[..k]), off, len) == ops[i].data[off - ops[i].off..off - ops[i].off + len]
  {
    hide RunDisk;
    var w, e := ops[i], RunDisk(d, ops[..k]);
    var data := w.data[off - w.off..off - w.off + len];
    forall p, j | off <= p < off + len && i < j < k
      ensures !Overwrites(ops[j], p, 1)
    {
      assert !Overwrites(ops[j], off, len);
    }
    ByteReadsBack(d, ops, i, k, off + len - 1);
    forall p | off <= p < off + len
      ensures e[p] == data[p - off]
    {
      ByteReadsBack(d, ops, i, k, p);
    }
    ReadIs(e, off, data);
  }

  lemma ReadIs(d: seq<byte>, off: nat, data: seq<byte>)
    requires data != [] && off + |data| <= |d|
    requires forall p :: off <= p < off + |data| ==> d[p] == data[p - off]
    ensures DiskRead(d, off, |data|) == data
  {
  }

  lemma RunDiskSplit(d: seq<byte>, ops: seq<Op>, i: nat, k: nat)
    requires i < k <= |ops|
    ensures RunDisk(d, ops[..k]) == RunDisk(Apply(RunDisk(d, ops[..i]), ops[i]), ops[i + 1..k])
  {
    var rest := [ops[i]] + ops[i + 1..k];
    assert ops[..k] == ops[..i] + rest;
    RunDiskAppend(d, ops[..i], rest);
    assert rest[1..] == ops[i + 1..k];
  }

  /** In guest memory: when request `k` of a batch reads the sectors that request `i < k` wrote,
      with the same length and no overlapping write in between, its buffer ends up with the
      bytes that were in the buffer of `i`. */
  lemma BatchReadsBack(g: Geometry, b: Device, heads: seq<u16>, target: u16, i: nat, k: nat)
    requires Batch(g, b.mem, b.last, heads) && b.disk.Some?
    requires |heads| < 0x1_0000 && target == Wrap(b.last + |heads|)
    requires i < k < |heads|
    requires var w, r := RequestAt(g, b.mem, heads[i]), RequestAt(g, b.mem, heads[k]);
             w.out && !r.out && r.sector == w.sector && r.dataLen == w.dataLen
    requires var r := RequestAt(g, b.mem, heads[k]);
             forall j :: i < j < k ==> !Overwrites(OpAt(g, b.mem, heads[j]), DiskOffset(r.sector), r.dataLen)
    ensures Drain(g, b, target).Some?
    ensures var w, r := RequestAt(g, b.mem, heads[i]), RequestAt(g, b.mem, heads[k]);
            Drain(g, b, target).value.mem[r.dataAddr..r.dataAddr + r.dataLen]
              == b.mem[w.dataAddr..w.dataAddr + w.dataLen]
  {
    hide WellFormed, RequestAt, Compatible, DataApart, HeadAt, DiskOffset, Framed, RunDisk, DiskRead, Drain, Wrap;
    DrainServesInOrder(g, b, heads, target);
    var ops := Ops(g, b.mem, heads);
    var m' := Drain(g, b, target).value.mem;
    var w, r := RequestAt(g, b.mem, heads[i]), RequestAt(g, b.mem, heads[k]);
    assert Answered(g, b.mem, m', heads[k], RunDisk(b.disk.value, ops[..k]));
    assert ops[i] == OpAt(g, b.mem, heads[i]);
    forall j | i < j < k
      ensures !Overwrites(ops[j], DiskOffset(r.sector), r.dataLen)
    {
      assert ops[j] == OpAt(g, b.mem, heads[j]);
    }
    var data := b.mem[w.dataAddr..w.dataAddr + w.dataLen];
    ReadsBack(b.disk.value, ops, i, k, DiskOffset(r.sector), r.dataLen);
    assert data[0..r.dataLen] == data;
  }
}
