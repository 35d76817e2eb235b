/** The identity map for long mode: the tables the VMM writes, and the page walk of the processor
    (Intel SDM Vol. 3A section 4.5) that reads them. */
module Paging {
  import opened Bytes
  import opened Memory

  const PML4: nat := 0x1000
  const PDPT: nat := 0x2000
  const PD: nat := 0x3000
  const GDT: nat := 0x4000
  const ENTRIES: nat := 512
  const PAGE_2M: nat := 0x20_0000

  // ---- The processor's walk ----

  datatype Translation = NotPresent | Mapped(phys: nat, writable: bool)

  function Entry(m: seq<byte>, table: nat, index: nat): u64 {
    if table + 8 * index + 8 > |m| then 0 else Word64(m, table + 8 * index)
  }

  predicate Present(e: u64) { e % 2 == 1 }

  predicate Writable(e: u64) { e / 2 % 2 == 1 }

  /** Bit 7: the entry maps a page and does not point to a table. */
  predicate IsPage(e: u64) { e / 0x80 % 2 == 1 }

  /** The address in bits 51 to 12, 21 or 30 of an entry. */
  function Frame4K(e: u64): nat { e % 0x10_0000_0000_0000 / 0x1000 * 0x1000 }

  function Frame2M(e: u64): nat { e % 0x10_0000_0000_0000 / 0x20_0000 * 0x20_0000 }

  function Frame1G(e: u64): nat { e % 0x10_0000_0000_0000 / 0x4000_0000 * 0x4000_0000 }

  /** Four-level translation of a linear address from the table at `cr3`. */
  function Walk(m: seq<byte>, cr3: nat, va: nat): Translation {
    var e4 := Entry(m, cr3, va / 0x80_0000_0000 % ENTRIES);
    if !Present(e4) then NotPresent
    else
      var e3 := Entry(m, Frame4K(e4), va / 0x4000_0000 % ENTRIES);
      if !Present(e3) then NotPresent
      else if IsPage(e3) then Mapped(Frame1G(e3) + va % 0x4000_0000, Writable(e4) && Writable(e3))
      else
        var e2 := Entry(m, Frame4K(e3), va / PAGE_2M % ENTRIES);
        if !Present(e2) then NotPresent
        else if IsPage(e2) then Mapped(Frame2M(e2) + va % PAGE_2M, Writable(e4) && Writable(e3) && Writable(e2))
        else
          var e1 := Entry(m, Frame4K(e2), va / 0x1000 % ENTRIES);
          if !Present(e1) then NotPresent
          else Mapped(Frame4K(e1) + va % 0x1000, Writable(e4) && Writable(e3) && Writable(e2) && Writable(e1))
  }

  // ---- The tables ----

  /** One entry in each upper table, the rest absent; 512 pages of 2 MiB, present and writable. */
  ghost predicate Tables(m: seq<byte>) {
    && |m| >= PD + 8 * ENTRIES
    && Word64(m, PML4) == PDPT + 3
    && (forall i :: 1 <= i < ENTRIES ==> Entry(m, PML4, i) == 0)
    && Word64(m, PDPT) == PD + 3
    && (forall i :: 1 <= i < ENTRIES ==> Entry(m, PDPT, i) == 0)
    && (forall i :: 0 <= i < ENTRIES ==> Entry(m, PD, i) == i * PAGE_2M + 0x83)
  }

  /** The tables map the first gigabyte to itself, writable, and nothing else below 2^47. */
  lemma TablesMapIdentity(m: seq<byte>, va: nat)
    requires Tables(m) && va < 0x8000_0000_0000
    ensures Walk(m, PML4, va) == if va < 0x4000_0000 then Mapped(va, true) else NotPresent
  {
    hide Word64, Entry, Present, Writable, IsPage, Frame4K, Frame2M, Frame1G;
    UpperEntries(m);
    TableEntry(PDPT);
    TableEntry(PD);
    if va >= 0x80_0000_0000 {
      assert 1 <= va / 0x80_0000_0000 % ENTRIES;
      AbsentEntry();
    } else if va >= 0x4000_0000 {
      assert va / 0x80_0000_0000 % ENTRIES == 0 && 1 <= va / 0x4000_0000 % ENTRIES;
      AbsentEntry();
    } else {
      assert va / 0x80_0000_0000 % ENTRIES == 0 && va / 0x4000_0000 % ENTRIES == 0;
      assert va / PAGE_2M % ENTRIES == va / PAGE_2M;
      PageEntry(va / PAGE_2M);
    }
  }

  lemma UpperEntries(m: seq<byte>)
    requires Tables(m)
    ensures Entry(m, PML4, 0) == PDPT + 3 && Entry(m, PDPT, 0) == PD + 3
  {
  }

  lemma AbsentEntry()
    ensures !Present(0)
  {
  }

  lemma TableEntry(table: nat)
    requires table == PDPT || table == PD
    ensures var e := table + 3; Present(e) && Writable(e) && !IsPage(e) && Frame4K(e) == table
  {
  }

  lemma PageEntry(i: nat)
    requires i < ENTRIES
    ensures var e := i * PAGE_2M + 0x83; Present(e) && Writable(e) && IsPage(e) && Frame2M(e) == i * PAGE_2M
  {
    hide Present, Writable, IsPage, Frame2M;
    PagePresent(i);
    PageWritable(i);
    PageIsPage(i);
    PageFrame(i);
  }

  lemma PagePresent(i: nat)
    requires i < ENTRIES
    ensures Present(i * PAGE_2M + 0x83)
  {
  }

  lemma PageWritable(i: nat)
    requires i < ENTRIES
    ensures Writable(i * PAGE_2M + 0x83)
  {
    assert (i * PAGE_2M + 0x83) / 2 == i * 0x10_0000 + 0x41;
  }

  lemma PageIsPage(i: nat)
    requires i < ENTRIES
    ensures IsPage(i * PAGE_2M + 0x83)
  {
    var q := i * 0x4000 + 1;
    assert i * PAGE_2M + 0x83 == 0x80 * q + 3;
    assert (0x80 * q + 3) / 0x80 == q;
    assert q == 2 * (i * 0x2000) + 1;
  }

  lemma PageFrame(i: nat)
    requires i < ENTRIES
    ensures Frame2M(i * PAGE_2M + 0x83) == i * PAGE_2M
  {
    assert (i * PAGE_2M + 0x83) / 0x20_0000 == i;
  }

  ghost predicate Directory(m: seq<byte>, n: nat) {
    forall k :: 0 <= k < n ==> Entry(m, PD, k) == k * PAGE_2M + 0x83
  }

  lemma DirectoryStep(m: seq<byte>, i: nat)
    requires i < ENTRIES && Directory(m, i) && PD + 8 * i + 8 <= |m|
    ensures Directory(Store(m, PD + 8 * i, Bytes64(i * PAGE_2M + 0x83)), i + 1)
  {
    hide Word64, Bytes64;
    var m' := Store(m, PD + 8 * i, Bytes64(i * PAGE_2M + 0x83));
    StoreWord64(m, PD + 8 * i, i * PAGE_2M + 0x83);
    forall k | 0 <= k < i
      ensures Entry(m', PD, k) == Entry(m, PD, k)
    {
      Word64Same(m, m', PD + 8 * k);
    }
  }

  method SetupPageTables(mem: GuestMemory) returns (ok: bool)
    requires forall p :: PML4 <= p < PD && p < mem.bytes.Length ==> mem.bytes[p] == 0
    modifies mem.bytes
    ensures ok <==> mem.bytes.Length >= PD + 8 * ENTRIES
    ensures ok ==> Tables(mem.bytes[..])
    ensures forall p :: 0 <= p < mem.bytes.Length && !(PML4 <= p < GDT) ==> mem.bytes[p] == old(mem.bytes[p])
  {
    hide Word64, Bytes64;
    ok := mem.WriteU64(PML4, PDPT + 3);
    if !ok { return; }
    ghost var m1 := mem.bytes[..];
    ok := mem.WriteU64(PDPT, PD + 3);
    if !ok { return; }
    ghost var m2 := mem.bytes[..];
    Word64Same(m1, m2, PML4);
    for i := 0 to ENTRIES
      invariant i > 0 ==> PD + 8 * i <= mem.bytes.Length
      invariant forall p :: 0 <= p < mem.bytes.Length && !(PD <= p < PD + 8 * i) ==> mem.bytes[p] == m2[p]
      invariant Directory(mem.bytes[..], i)
    {
      ghost var before := mem.bytes[..];
      ok := mem.WriteU64(PD + 8 * i, i * PAGE_2M + 0x83);
      if !ok { return; }
      DirectoryStep(before, i);
    }
    ok := true;
    UpperTables(m2, mem.bytes[..]);
  }

  lemma UpperTables(m: seq<byte>, m': seq<byte>)
    requires |m'| == |m| >= GDT && Unchanged(m, m', Region(PML4, PD - PML4))
    requires Word64(m, PML4) == PDPT + 3 && Word64(m, PDPT) == PD + 3
    requires forall p :: PML4 + 8 <= p < PDPT || PDPT + 8 <= p < PD ==> m[p] == 0
    ensures Word64(m', PML4) == PDPT + 3 && Word64(m', PDPT) == PD + 3
    ensures forall i :: 1 <= i < ENTRIES ==> Entry(m', PML4, i) == 0 && Entry(m', PDPT, i) == 0
  {
    Word64Same(m, m', PML4);
    Word64Same(m, m', PDPT);
  }

  /** A null descriptor, a code and a data segment. */
  ghost predicate GdtIs(m: seq<byte>, code: u64, data: u64) {
    |m| >= GDT + 24 && Word64(m, GDT) == 0 && Word64(m, GDT + 8) == code && Word64(m, GDT + 16) == data
  }

  // ---- Segments ----

  /** A segment descriptor as the processor reads it (Intel SDM Vol. 3A section 3.4.5): base, limit in
      bytes or 4 KiB pages, type and attributes. */
  datatype Segment = Segment(base: nat, limit: nat, pages: bool, code: bool, system: bool, ring: nat,
                             present: bool, wide: bool, long: bool)

  function Decode(d: u64): Segment {
    Segment(d / 0x1_0000 % 0x100_0000 + d / 0x100_0000_0000_0000 * 0x100_0000,
            d % 0x1_0000 + d / 0x1_0000_0000_0000 % 0x10 * 0x1_0000,
            d / 0x80_0000_0000_0000 % 2 == 1, d / 0x800_0000_0000 % 2 == 1, d / 0x1000_0000_0000 % 2 == 0,
            d / 0x2000_0000_0000 % 4, d / 0x8000_0000_0000 % 2 == 1,
            d / 0x40_0000_0000_0000 % 2 == 1, d / 0x20_0000_0000_0000 % 2 == 1)
  }

  /** The protected-mode segments are flat: base 0, 4 GiB, 32-bit, present in ring 0, one for code and
      one for data. The long-mode code segment is a 64-bit one. */
  lemma SegmentsAreFlat()
    ensures Decode(CODE32) == Segment(0, 0xF_FFFF, true, true, false, 0, true, true, false)
    ensures Decode(DATA32) == Segment(0, 0xF_FFFF, true, false, false, 0, true, true, false)
    ensures var c := Decode(CODE64); c.code && !c.system && c.ring == 0 && c.present && c.long && !c.wide
    ensures var d := Decode(DATA64); !d.code && !d.system && d.ring == 0 && d.present && d.base == 0
  {
  }

  const CODE64: u64 := 0x0020_9A00_0000_0000
  const DATA64: u64 := 0x0000_9200_0000_0000
  const CODE32: u64 := 0x00CF_9A00_0000_FFFF
  const DATA32: u64 := 0x00CF_9200_0000_FFFF

  method SetupGdt(mem: GuestMemory, code: u64, data: u64) returns (ok: bool)
    modifies mem.bytes
    ensures ok <==> mem.bytes.Length >= GDT + 24
    ensures ok ==> GdtIs(mem.bytes[..], code, data)
    ensures forall p :: 0 <= p < mem.bytes.Length && !(GDT <= p < GDT + 24) ==> mem.bytes[p] == old(mem.bytes[p])
  {
    hide Word64, Bytes64;
    ok := mem.WriteU64(GDT, 0);
    if !ok { return; }
    ghost var m1 := mem.bytes[..];
    ok := mem.WriteU64(GDT + 8, code);
    if !ok { return; }
    ghost var m2 := mem.bytes[..];
    ok := mem.WriteU64(GDT + 16, data);
    if !ok { return; }
    Word64Same(m1, m2, GDT);
    Word64Same(m2, mem.bytes[..], GDT);
    Word64Same(m2, mem.bytes[..], GDT + 8);
  }

  /** Tables and descriptor table, as the long-mode entry sets them up on zeroed memory: the
      processor then translates every address of the first gigabyte to itself, writable, and
      finds no page at any other lower-half address. */
  method SetupLongMode(mem: GuestMemory) returns (ok: bool)
    requires forall p :: PML4 <= p < PD && p < mem.bytes.Length ==> mem.bytes[p] == 0
    modifies mem.bytes
    ensures mem.bytes.Length >= GDT + 24 ==> ok
    ensures ok ==> GdtIs(mem.bytes[..], CODE64, DATA64)
    ensures ok ==> forall va: nat :: va < 0x8000_0000_0000 ==>
      Walk(mem.bytes[..], PML4, va) == if va < 0x4000_0000 then Mapped(va, true) else NotPresent
  {
    ok := SetupPageTables(mem);
    if !ok { return; }
    ghost var m := mem.bytes[..];
    ok := SetupGdt(mem, CODE64, DATA64);
    if !ok { return; }
    TablesSurvive(m, mem.bytes[..]);
    forall va: nat | va < 0x8000_0000_0000
      ensures Walk(mem.bytes[..], PML4, va) == if va < 0x4000_0000 then Mapped(va, true) else NotPresent
    {
      TablesMapIdentity(mem.bytes[..], va);
    }
  }

  lemma TablesSurvive(m: seq<byte>, m': seq<byte>)
    requires Tables(m) && |m'| == |m| && Unchanged(m, m', Region(PML4, GDT - PML4))
    ensures Tables(m')
  {
    hide Word64;
    forall i | 0 <= i < ENTRIES
      ensures Entry(m', PML4, i) == Entry(m, PML4, i)
      ensures Entry(m', PDPT, i) == Entry(m, PDPT, i)
      ensures Entry(m', PD, i) == Entry(m, PD, i)
    {
      Word64Same(m, m', PML4 + 8 * i);
      Word64Same(m, m', PDPT + 8 * i);
      Word64Same(m, m', PD + 8 * i);
    }
    Word64Same(m, m', PML4);
    Word64Same(m, m', PDPT);
  }
}
