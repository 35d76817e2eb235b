/** Descriptor chains: when a walk ends, and what a well-formed block request reads as. */
module BlockChain {
  import opened Bytes
  import opened Ring
  import opened BlockQueue

  // ---- The walk ends exactly when `Chain` is defined ----

  /** The index a walk from `idx` stands at after following `n` links, if it gets that far. */
  function After(m: seq<byte>, table: nat, idx: u16, n: nat): Option<u16>
    decreases n
  {
    if n == 0 then Some(idx)
    else
      match ReadDesc(m, table, idx)
      case None => None
      case Some(d) => if d.HasNext() then After(m, table, d.next, n - 1) else None
  }

  /** The walk loop of the source has no bound. It runs for ever from `idx` exactly when `Chain`
      finds a repeated index; otherwise it ends. */
  lemma WalkEndsIffChain(m: seq<byte>, table: nat, idx: u16)
    ensures Chain(m, table, idx, {}).Some? <==> exists n :: After(m, table, idx, n).None?
  {
    if Chain(m, table, idx, {}).Some? {
      ChainEnds(m, table, idx, {});
    } else {
      forall n: nat
        ensures After(m, table, idx, n).Some?
      {
        RepeatNeverEnds(m, table, idx, {}, n);
      }
    }
  }

  lemma {:induction false} ChainEnds(m: seq<byte>, table: nat, idx: u16, seen: set<u16>)
    requires Chain(m, table, idx, seen).Some?
    ensures After(m, table, idx, |Chain(m, table, idx, seen).value| + 1).None?
    decreases |Chain(m, table, idx, seen).value|
  {
    ChainStep(m, table, idx, seen);
    match ReadDesc(m, table, idx)
    case None =>
    case Some(d) =>
      if d.HasNext() {
        ChainEnds(m, table, d.next, seen + {idx});
      }
  }

  ghost predicate Reaches(m: seq<byte>, table: nat, from: u16, to: u16) {
    exists k: nat :: k >= 1 && After(m, table, from, k) == Some(to)
  }

  lemma {:induction false} RepeatNeverEnds(m: seq<byte>, table: nat, idx: u16, seen: set<u16>, n: nat)
    requires Chain(m, table, idx, seen).None?
    requires forall s :: s in seen ==> Reaches(m, table, s, idx)
    ensures After(m, table, idx, n).Some?
    decreases Upto(0x1_0000) - seen
  {
    if idx in seen {
      var k: nat :| k >= 1 && After(m, table, idx, k) == Some(idx);
      CycleNeverEnds(m, table, idx, k, n);
    } else if n > 0 {
      IndexLeft(idx, seen);
      var d := ReadDesc(m, table, idx).value;
      forall s | s in seen + {idx}
        ensures Reaches(m, table, s, d.next)
      {
        assert After(m, table, idx, 1) == Some(d.next);
        if s != idx {
          var k: nat :| k >= 1 && After(m, table, s, k) == Some(idx);
          AfterPlus(m, table, s, k, 1);
        }
      }
      RepeatNeverEnds(m, table, d.next, seen + {idx}, n - 1);
    }
  }

  lemma {:induction false} AfterPlus(m: seq<byte>, table: nat, idx: u16, k: nat, n: nat)
    requires After(m, table, idx, k).Some?
    ensures After(m, table, idx, k + n) == After(m, table, After(m, table, idx, k).value, n)
    decreases k
  {
    if k > 0 {
      AfterPlus(m, table, ReadDesc(m, table, idx).value.next, k - 1, n);
    }
  }

  lemma {:induction false} CycleNeverEnds(m: seq<byte>, table: nat, idx: u16, k: nat, n: nat)
    requires k >= 1 && After(m, table, idx, k) == Some(idx)
    ensures After(m, table, idx, n).Some?
    decreases n
  {
    if n < k {
      if After(m, table, idx, n).None? {
        StaysEnded(m, table, idx, n, k - n);
      }
    } else {
      AfterPlus(m, table, idx, k, n - k);
      CycleNeverEnds(m, table, idx, k, n - k);
    }
  }

  lemma {:induction false} StaysEnded(m: seq<byte>, table: nat, idx: u16, n: nat, more: nat)
    requires After(m, table, idx, n).None?
    ensures After(m, table, idx, n + more).None?
    decreases n
  {
    match ReadDesc(m, table, idx)
    case None =>
    case Some(d) =>
      if n > 0 && d.HasNext() {
        StaysEnded(m, table, d.next, n - 1, more);
      }
  }

  // ---- Well-formed block requests ----

  function DescAt(m: seq<byte>, g: Geometry, idx: u16): Desc
    requires Within(TableRegion(g), |m|) && idx < g.size
  {
    ReadDesc(m, g.desc, idx).value
  }

  /** A sector is 512 bytes; of its number the low 55 bits count, as the byte offset has 64. */
  lemma SectorOffset(sector: u64)
    ensures DiskOffset(sector) == 512 * (sector % 0x80_0000_0000_0000)
    ensures Seekable(DiskOffset(sector)) <==> sector % 0x80_0000_0000_0000 < 0x40_0000_0000_0000
  {
    var q, t := sector / 0x80_0000_0000_0000, sector % 0x80_0000_0000_0000;
    assert sector * 512 == q * TWO_TO_64 + 512 * t;
    assert (q * TWO_TO_64 + 512 * t) % TWO_TO_64 == 512 * t;
  }

  /** A request as the driver must lay it out (VirtIO 1.2 section 5.2.6): a 16-byte header, one
      data buffer and one status byte, in three different descriptors of the table, all inside
      memory, for a sector whose byte offset, as 64 bits hold it, is below 2^63. */
  predicate WellFormed(g: Geometry, m: seq<byte>, head: u16) {
    && Within(TableRegion(g), |m|)
    && head < g.size
    && var d0 := DescAt(m, g, head);
    && d0.HasNext() && d0.len >= 16 && d0.addr + 16 <= |m|
    && d0.next < g.size && d0.next != head
    && var d1 := DescAt(m, g, d0.next);
    && d1.HasNext() && d1.addr != 0 && d1.len > 0 && d1.addr + d1.len <= |m|
    && d1.next < g.size && d1.next != head && d1.next != d0.next
    && var d2 := DescAt(m, g, d1.next);
    && !d2.HasNext() && 0 < d2.addr < |m|
    && Word64(m, d0.addr + 8) % 0x80_0000_0000_0000 < 0x40_0000_0000_0000
  }

  function HeaderRegion(g: Geometry, m: seq<byte>, head: u16): Region
    requires WellFormed(g, m, head)
  {
    Region(DescAt(m, g, head).addr, 16)
  }

  /** The request those three descriptors spell out. */
  function RequestAt(g: Geometry, m: seq<byte>, head: u16): (r: Request)
    requires WellFormed(g, m, head)
    ensures r.dataAddr > 0 && r.dataLen > 0 && r.dataAddr + r.dataLen <= |m| && 0 < r.statusAddr < |m|
    ensures Seekable(DiskOffset(r.sector))
  {
    SectorOffset(Word64(m, DescAt(m, g, head).addr + 8));
    var d0 := DescAt(m, g, head);
    var d1 := DescAt(m, g, d0.next);
    var d2 := DescAt(m, g, d1.next);
    Request(Word32(m, d0.addr) == T_OUT, Word64(m, d0.addr + 8), d1.addr, d1.len, d2.addr)
  }

  /** The walk of a well-formed request ends, and finds that request. */
  lemma WellFormedReads(g: Geometry, m: seq<byte>, head: u16)
    requires WellFormed(g, m, head)
    ensures Chain(m, g.desc, head, {}).Some?
    ensures Reading(m, Chain(m, g.desc, head, {}).value) == RequestAt(g, m, head)
  {
    var d0 := DescAt(m, g, head);
    var d1 := DescAt(m, g, d0.next);
    var d2 := DescAt(m, g, d1.next);
    hide ReadDesc;
    assert Chain(m, g.desc, d1.next, {head, d0.next}) == Some([d2]);
    assert Chain(m, g.desc, d0.next, {head}) == Some([d1] + [d2]) by {
      assert {head} + {d0.next} == {head, d0.next};
    }
    assert Chain(m, g.desc, head, {}) == Some([d0] + ([d1] + [d2])) by {
      assert {} + {head} == {head};
    }
  }

  /** Nothing the walk and the transfer of such a request access lies beyond memory, so no address
      sum wraps. */
  lemma WellFormedFits(g: Geometry, m: seq<byte>, head: u16)
    requires WellFormed(g, m, head) && |m| < TWO_TO_64
    ensures Chain(m, g.desc, head, {}).Some? && ChainFits(m, Chain(m, g.desc, head, {}).value)
  {
    hide ReadDesc, Reading, RequestAt, Word32, Word64;
    WellFormedReads(g, m, head);
    ChainStep(m, g.desc, head, {});
  }

  /** What the walk of a request depends on: the descriptor table and the header. */
  lemma SameRequest(g: Geometry, m: seq<byte>, m': seq<byte>, head: u16)
    requires WellFormed(g, m, head) && |m'| == |m|
    requires Unchanged(m, m', TableRegion(g)) && Unchanged(m, m', HeaderRegion(g, m, head))
    ensures WellFormed(g, m', head)
    ensures RequestAt(g, m', head) == RequestAt(g, m, head)
    ensures HeaderRegion(g, m', head) == HeaderRegion(g, m, head)
  {
    var d0 := DescAt(m, g, head);
    var d1 := DescAt(m, g, d0.next);
    SameDesc(g, m, m', head);
    SameDesc(g, m, m', d0.next);
    SameDesc(g, m, m', d1.next);
    Word32Same(m, m', d0.addr);
    Word64Same(m, m', d0.addr + 8);
  }

  lemma SameDesc(g: Geometry, m: seq<byte>, m': seq<byte>, idx: u16)
    requires Within(TableRegion(g), |m|) && idx < g.size && |m'| == |m|
    requires Unchanged(m, m', TableRegion(g))
    ensures DescAt(m', g, idx) == DescAt(m, g, idx)
  {
    var off := g.desc + idx * 16;
    assert Inside(Region(off, 16), TableRegion(g));
    Word64Same(m, m', off);
    Word32Same(m, m', off + 8);
    Word16Same(m, m', off + 12);
    Word16Same(m, m', off + 14);
  }

  /** What a complete request in bounds does: the disk transfer, then the status byte. The used
      length is the number of bytes written to guest memory, as 32 bits hold it. */
  lemma AnswerOf(m: seq<byte>, d: seq<byte>, r: Request)
    requires r.dataAddr > 0 && r.dataLen > 0 && r.dataAddr + r.dataLen <= |m| && r.statusAddr > 0
    requires Seekable(DiskOffset(r.sector))
    ensures var o := Answer(m, Some(d), r);
            var off := DiskOffset(r.sector);
            var data := if r.out then [] else DiskRead(d, off, r.dataLen);
            && o.mem == Store(Store(m, r.dataAddr, data), r.statusAddr, [S_OK])
            && o.disk == Some(if r.out then DiskWrite(d, off, m[r.dataAddr..r.dataAddr + r.dataLen]) else d)
            && o.written == (|data| + 1) % 0x1_0000_0000
  {
    hide Store, DiskRead, DiskWrite;
    if r.out {
      StoreNothing(m, r.dataAddr);
    }
  }

  lemma StoreNothing(m: seq<byte>, off: nat)
    ensures Store(m, off, []) == m
  {
  }

  /** So the length the engine publishes for a well-formed request is that number of bytes. */
  lemma WrittenIsCounted(g: Geometry, m: seq<byte>, d: seq<byte>, head: u16)
    requires WellFormed(g, m, head)
    ensures Chain(m, g.desc, head, {}).Some?
    ensures var r := RequestAt(g, m, head);
            var o := Answer(m, Some(d), Reading(m, Chain(m, g.desc, head, {}).value));
            var data := if r.out then [] else DiskRead(d, DiskOffset(r.sector), r.dataLen);
            && o.mem == Store(Store(m, r.dataAddr, data), r.statusAddr, [S_OK])
            && o.written == (|data| + 1) % 0x1_0000_0000
  {
    hide WellFormed, RequestAt, DiskRead, Answer, Store, Chain, Reading;
    WellFormedReads(g, m, head);
    AnswerOf(m, d, RequestAt(g, m, head));
  }
}
