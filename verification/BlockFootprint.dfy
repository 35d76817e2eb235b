/** Which guest memory a drain can change, whatever guest memory holds, as long as walks end and
    address sums do not wrap. */
module BlockFootprint {
  import opened Bytes
  import opened Ring
  import opened BlockQueue

  /** The requests a drain answers, in order. */
  function Walked(g: Geometry, b: Device, target: u16): (rs: seq<Request>)
    requires g.size > 0
    decreases Gap(b.last, target)
  {
    if b.last == target then []
    else
      match HeadAt(g, b.mem, b.last)
      case None => []
      case Some(head) =>
        match Chain(b.mem, g.desc, head, {})
        case None => []
        case Some(ds) =>
          ServeCloser(g, b, head, ds, target);
          [Reading(b.mem, ds)] + Walked(g, Serve(g, b, head, ds), target)
  }

  /** A request may write its status byte and, unless it writes to the disk, its data buffer. */
  ghost predicate Writes(r: Request, p: int) {
    || (r.statusAddr != 0 && p == r.statusAddr)
    || (!r.out && r.dataAddr != 0 && Region(r.dataAddr, r.dataLen).Has(p))
  }

  /** The used index and the used elements. */
  function UsedWritten(g: Geometry): Region {
    Region(g.used + 2, 2 + 8 * g.size)
  }

  ghost predicate MayWrite(g: Geometry, rs: seq<Request>, p: int) {
    UsedWritten(g).Has(p) || exists k :: 0 <= k < |rs| && Writes(rs[k], p)
  }

  lemma AnswerConfined(m: seq<byte>, disk: Option<seq<byte>>, r: Request, p: nat)
    requires p < |m| && !Writes(r, p)
    ensures Answer(m, disk, r).mem[p] == m[p]
  {
  }

  lemma PutUsedConfined(g: Geometry, m: seq<byte>, e: Element, p: nat)
    requires g.size > 0 && p < |m| && !UsedWritten(g).Has(p)
    ensures PutUsed(g, m, e)[p] == m[p]
  {
  }

  lemma ServeConfined(g: Geometry, b: Device, head: u16, ds: seq<Desc>, p: nat)
    requires g.size > 0 && p < |b.mem|
    requires !UsedWritten(g).Has(p) && !Writes(Reading(b.mem, ds), p)
    ensures Serve(g, b, head, ds).mem[p] == b.mem[p]
  {
    hide Answer, PutUsed, Writes, Reading;
    var o := Answer(b.mem, b.disk, Reading(b.mem, ds));
    AnswerConfined(b.mem, b.disk, Reading(b.mem, ds), p);
    PutUsedConfined(g, o.mem, Element(head, o.written), p);
  }

  /** Whatever guest memory holds, as long as the walks end and no 64-bit address sum of theirs
      wraps: a byte outside the used ring and outside the status bytes and read buffers of the
      walked requests keeps its value. A sum that wraps can pass the bound check
      (`Memory.PassesIffInside`), and then the byte written is not one of guest memory. */
  lemma {:induction false} DrainConfined(g: Geometry, b: Device, target: u16, p: nat)
    requires g.size > 0 && Drain(g, b, target).Some? && DrainFits(g, b, target) && p < |b.mem|
    requires !MayWrite(g, Walked(g, b, target), p)
    ensures Drain(g, b, target).value.mem[p] == b.mem[p]
    decreases Gap(b.last, target)
  {
    hide Chain, Serve, Writes, Reading, Gap, DrainFits, ChainFits, HeadAt;
    if b.last != target && HeadAt(g, b.mem, b.last).Some? {
      var head := HeadAt(g, b.mem, b.last).value;
      var ds := Chain(b.mem, g.desc, head, {}).value;
      var b1 := Serve(g, b, head, ds);
      ServeCloser(g, b, head, ds, target);
      DrainFitsStep(g, b, target);
      WalkedSplit(g, b, target, p);
      ServeConfined(g, b, head, ds, p);
      DrainConfined(g, b1, target, p);
    }
  }

  /** What none of the walked requests writes, neither the first nor the rest of them writes. */
  lemma WalkedSplit(g: Geometry, b: Device, target: u16, p: int)
    requires g.size > 0 && b.last != target && HeadAt(g, b.mem, b.last).Some?
    requires Chain(b.mem, g.desc, HeadAt(g, b.mem, b.last).value, {}).Some?
    ensures var head := HeadAt(g, b.mem, b.last).value;
            var ds := Chain(b.mem, g.desc, head, {}).value;
            MayWrite(g, Walked(g, b, target), p) <==>
              Writes(Reading(b.mem, ds), p) || MayWrite(g, Walked(g, Serve(g, b, head, ds), target), p)
  {
    hide Chain, Serve, Writes, Reading, Gap, HeadAt;
    var head := HeadAt(g, b.mem, b.last).value;
    var ds := Chain(b.mem, g.desc, head, {}).value;
    var rs, rest := Walked(g, b, target), Walked(g, Serve(g, b, head, ds), target);
    assert rs == [Reading(b.mem, ds)] + rest;
    assert rs[0] == Reading(b.mem, ds);
    assert forall k :: 0 <= k < |rest| ==> rest[k] == rs[k + 1];
    assert forall k :: 0 < k < |rs| ==> rs[k] == rest[k - 1];
  }

  /** A region apart from the used ring and from everything the walked requests may write, such
      as the available ring or the descriptor table of a sound driver, comes out unchanged. */
  lemma RegionSpared(g: Geometry, b: Device, target: u16, region: Region)
    requires g.size > 0 && Drain(g, b, target).Some? && DrainFits(g, b, target)
    requires Disjoint(region, UsedWritten(g))
    requires forall r :: r in Walked(g, b, target) ==>
      Disjoint(region, Region(r.statusAddr, 1)) && (r.out || Disjoint(region, Region(r.dataAddr, r.dataLen)))
    ensures Unchanged(b.mem, Drain(g, b, target).value.mem, region)
  {
    hide Drain, Walked, DrainFits;
    forall p | region.base <= p < region.base + region.len && p < |b.mem|
      ensures Drain(g, b, target).value.mem[p] == b.mem[p]
    {
      DrainConfined(g, b, target, p);
    }
  }
}
