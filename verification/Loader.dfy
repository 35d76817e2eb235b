/** Loading a bzImage: the zero page the loader assembles from the image's setup header, and
    where the command line, the kernel and the zero page go in guest memory. */
module Loader {
  import opened Bytes
  import opened Memory

  const ZERO_PAGE_START: nat := 0x7000
  const CMDLINE_START: nat := 0x20000
  const KERNEL_START: nat := 0x100000
  const E820_RAM: u32 := 1
  const HDRS_MAGIC: u32 := 0x53726448
  const SETUP_HEADER: nat := 0x1F1
  const SETUP_HEADER_LEN: nat := 119
  const DEFAULT_SETUP_SECTS: nat := 4
  const SECTOR_SIZE: nat := 512
  const PAGE: nat := 4096

  // Offsets in the zero page (and, for the setup header, in the image).
  const E820_ENTRIES: nat := 0x1E8
  const SETUP_SECTS: nat := 0x1F1
  const MAGIC: nat := 0x202
  const VERSION: nat := 0x206
  const TYPE_OF_LOADER: nat := 0x210
  const LOADFLAGS: nat := 0x211
  const CODE32_START: nat := 0x214
  const CMD_LINE_PTR: nat := 0x228
  const CMDLINE_SIZE: nat := 0x238
  const E820_TABLE: nat := 0x2D0
  const E820_ENTRY_LEN: nat := 20

  const LOW_RAM: u64 := 0x9FC00

  /** No string or vector of the source is longer. */
  const ISIZE_MAX: nat := 0x7FFF_FFFF_FFFF_FFFF

  // ---- The image ----

  predicate IsImage(file: seq<byte>) {
    |file| >= SETUP_HEADER + SETUP_HEADER_LEN && Word32(file, MAGIC) == HDRS_MAGIC
  }

  /** The code after the setup sectors; a count of zero means four. */
  function Kernel(file: seq<byte>): (code: seq<byte>)
    requires IsImage(file)
    ensures |code| <= |file|
  {
    var sects: nat := if file[SETUP_SECTS] == 0 then DEFAULT_SETUP_SECTS else file[SETUP_SECTS];
    var off := (sects + 1) * SECTOR_SIZE;
    if off > |file| then [] else file[off..]
  }

  // ---- The zero page ----

  function E820Entry(addr: u64, size: u64): (e: seq<byte>)
    ensures |e| == E820_ENTRY_LEN
  {
    Bytes64(addr) + Bytes64(size) + Bytes32(E820_RAM)
  }

  /** `v | 0x80` */
  function SetBit7(v: byte): byte {
    if v < 0x80 then v + 0x80 else v
  }

  /** A change to part of a page. */
  datatype Patch = Patch(at: nat, data: seq<byte>)

  function Place(q: Patch): Region {
    Region(q.at, |q.data|)
  }

  function Patched(z: seq<byte>, ps: seq<Patch>): (r: seq<byte>)
    ensures |r| == |z|
  {
    if ps == [] then z
    else
      var q := ps[|ps| - 1];
      Store(Patched(z, ps[..|ps| - 1]), q.at, q.data)
  }

  lemma {:induction false} PatchesSpare(z: seq<byte>, ps: seq<Patch>, k: nat, region: Region)
    requires k <= |ps| && forall j :: k <= j < |ps| ==> Disjoint(Place(ps[j]), region)
    ensures Unchanged(Patched(z, ps[..k]), Patched(z, ps), region)
    decreases |ps|
  {
    if k == |ps| {
      assert ps[..k] == ps;
    } else {
      var init, q := ps[..|ps| - 1], ps[|ps| - 1];
      assert init[..k] == ps[..k];
      PatchesSpare(z, init, k, region);
      StoreFrame(Patched(z, init), q.at, q.data, region);
    }
  }

  /** A patch that no later one overlaps can be read back. */
  lemma PatchReads(z: seq<byte>, ps: seq<Patch>, k: nat)
    requires k < |ps| && Within(Place(ps[k]), |z|)
    requires forall j :: k < j < |ps| ==> Disjoint(Place(ps[j]), Place(ps[k]))
    ensures Patched(z, ps)[ps[k].at..ps[k].at + |ps[k].data|] == ps[k].data
  {
    var q := ps[k];
    PatchesSpare(z, ps, k + 1, Place(q));
    assert ps[..k + 1][..k] == ps[..k];
    StoreLoad(Patched(z, ps[..k]), q.at, q.data);
    SliceSame(Patched(z, ps[..k + 1]), Patched(z, ps), q.at, |q.data|);
  }

  /** The size field of the command line, terminator included: 32 bits of it. */
  function SizeWord(cmdline: seq<byte>): u32 {
    (|cmdline| + 1) % 0x1_0000_0000
  }

  function FixedPatches(file: seq<byte>, memSize: u64): (ps: seq<Patch>)
    requires IsImage(file) && memSize >= KERNEL_START
    ensures |ps| == 4
  {
    [Patch(SETUP_HEADER, file[SETUP_HEADER..SETUP_HEADER + SETUP_HEADER_LEN]),
     Patch(E820_ENTRIES, [2]),
     Patch(E820_TABLE, E820Entry(0, LOW_RAM)),
     Patch(E820_TABLE + E820_ENTRY_LEN, E820Entry(KERNEL_START, memSize - KERNEL_START))]
  }

  function CmdlinePatches(cmdline: seq<byte>): seq<Patch> {
    if cmdline == [] then []
    else [Patch(CMD_LINE_PTR, Bytes32(CMDLINE_START)), Patch(CMDLINE_SIZE, Bytes32(SizeWord(cmdline)))]
  }

  function FlagPatches(file: seq<byte>): seq<Patch>
    requires IsImage(file)
  {
    if Word16(file, VERSION) >= 0x200 then [Patch(LOADFLAGS, [SetBit7(file[LOADFLAGS])])] else []
  }

  /** What the loader puts in the blank zero page: the header of the image, the memory map, the
      command line's place and size if there is one, the loader type, and the flag saying so. */
  function Patches(file: seq<byte>, memSize: u64, cmdline: seq<byte>): seq<Patch>
    requires IsImage(file) && memSize >= KERNEL_START
  {
    FixedPatches(file, memSize) + CmdlinePatches(cmdline) + [Patch(TYPE_OF_LOADER, [0xFF])] + FlagPatches(file)
  }

  function ZeroPage(file: seq<byte>, memSize: u64, cmdline: seq<byte>): (z: seq<byte>)
    requires IsImage(file) && memSize >= KERNEL_START
    ensures |z| == PAGE
  {
    Patched(Zeros(PAGE), Patches(file, memSize, cmdline))
  }

  datatype Range = Range(addr: u64, size: u64, kind: u32)

  /** The `i`-th range a kernel finds in its zero page. */
  function E820At(z: seq<byte>, i: nat): Range
    requires |z| == PAGE && i < 128
  {
    var at := E820_TABLE + E820_ENTRY_LEN * i;
    Range(Word64(z, at), Word64(z, at + 8), Word32(z, at + 16))
  }

  lemma EntryReads(z: seq<byte>, at: nat, addr: u64, size: u64)
    requires at + E820_ENTRY_LEN <= |z| && z[at..at + E820_ENTRY_LEN] == E820Entry(addr, size)
    ensures Word64(z, at) == addr && Word64(z, at + 8) == size && Word32(z, at + 16) == E820_RAM
  {
    hide Word64, Word32, Bytes64, Bytes32;
    var e := E820Entry(addr, size);
    assert forall k :: 0 <= k < E820_ENTRY_LEN ==> e[k] == z[at..at + E820_ENTRY_LEN][k];
    Word64Of(z, at, addr);
    Word64Of(z, at + 8, size);
    Word32Bytes(z, at + 16, E820_RAM);
  }

  lemma Word64Of(m: seq<byte>, off: nat, v: u64)
    requires off + 8 <= |m| && forall k :: 0 <= k < 8 ==> m[off + k] == Bytes64(v)[k]
    ensures Word64(m, off) == v
  {
    hide Word64;
    StoreWord64(m, off, v);
    assert Store(m, off, Bytes64(v)) == m;
  }

  /** Header bytes the loader does not own: of those at 0x1F1 to 0x267, all but the loader type, the
      load flags and the place and size of the command line. */
  predicate FromImage(p: nat) {
    0x1F1 <= p < 0x268 && p != 0x210 && p != 0x211 && !(0x228 <= p < 0x22C) && !(0x238 <= p < 0x23C)
  }

  /** The fields of the zero page as a kernel reads them: the two RAM ranges, the loader type, the
      command line if there is one, the load flags with bit 7 from protocol 2.0 on; every header byte
      the loader does not own is the image's. The offsets are those of the Linux boot protocol. */
  lemma ZeroPageReads(file: seq<byte>, memSize: u64, cmdline: seq<byte>)
    requires IsImage(file) && memSize >= KERNEL_START
    ensures var z := ZeroPage(file, memSize, cmdline);
            && z[0x1E8] == 2 && z[0x210] == 0xFF
            && E820At(z, 0) == Range(0, 0x9FC00, 1)
            && E820At(z, 1) == Range(0x10_0000, memSize - 0x10_0000, 1)
            && (cmdline != [] ==> Word32(z, 0x228) == 0x20000 && Word32(z, 0x238) == (|cmdline| + 1) % 0x1_0000_0000)
            && z[0x211] == (if Word16(file, 0x206) >= 0x200 && file[0x211] < 0x80 then file[0x211] + 0x80 else file[0x211])
            && (forall p: nat :: FromImage(p) ==> z[p] == file[p])
  {
    hide ZeroPage, Word32, Word64, IsImage, SizeWord;
    FlagsRead(file, memSize, cmdline);
    RangesRead(file, memSize, cmdline);
    TypeReads(file, memSize, cmdline);
    if cmdline != [] {
      CmdlineReads(file, memSize, cmdline);
      SizeWordIs(cmdline);
    }
    ImageBytes(file, memSize, cmdline);
  }

  lemma SizeWordIs(cmdline: seq<byte>)
    ensures SizeWord(cmdline) == (|cmdline| + 1) % 0x1_0000_0000
  {
  }

  lemma RangesRead(file: seq<byte>, memSize: u64, cmdline: seq<byte>)
    requires IsImage(file) && memSize >= KERNEL_START
    ensures var z := ZeroPage(file, memSize, cmdline);
            && z[0x1E8] == 2
            && E820At(z, 0) == Range(0, 0x9FC00, 1)
            && E820At(z, 1) == Range(0x10_0000, memSize - 0x10_0000, 1)
  {
    hide Patched, Bytes32, Word32, Word64, E820Entry, IsImage, SetBit7;
    var z, ps := ZeroPage(file, memSize, cmdline), Patches(file, memSize, cmdline);
    PatchReads(Zeros(PAGE), ps, 1);
    ByteReads(z, E820_ENTRIES, 2);
    PatchReads(Zeros(PAGE), ps, 2);
    EntryReads(z, E820_TABLE, 0, LOW_RAM);
    PatchReads(Zeros(PAGE), ps, 3);
    EntryReads(z, E820_TABLE + E820_ENTRY_LEN, KERNEL_START, memSize - KERNEL_START);
  }

  lemma TypeReads(file: seq<byte>, memSize: u64, cmdline: seq<byte>)
    requires IsImage(file) && memSize >= KERNEL_START
    ensures ZeroPage(file, memSize, cmdline)[0x210] == 0xFF
  {
    hide Patched, Bytes32, Word32, E820Entry, IsImage, SetBit7, FixedPatches;
    var z, ps := ZeroPage(file, memSize, cmdline), Patches(file, memSize, cmdline);
    PatchReads(Zeros(PAGE), ps, 4 + |CmdlinePatches(cmdline)|);
    ByteReads(z, TYPE_OF_LOADER, 0xFF);
  }

  lemma FlagsRead(file: seq<byte>, memSize: u64, cmdline: seq<byte>)
    requires IsImage(file) && memSize >= KERNEL_START
    ensures ZeroPage(file, memSize, cmdline)[0x211] ==
      if Word16(file, 0x206) >= 0x200 && file[0x211] < 0x80 then file[0x211] + 0x80 else file[0x211]
  {
    hide Patched, Bytes32, Word32, Word16, E820Entry, SizeWord;
    var z, ps := ZeroPage(file, memSize, cmdline), Patches(file, memSize, cmdline);
    if Word16(file, VERSION) >= 0x200 {
      PatchReads(Zeros(PAGE), ps, |ps| - 1);
      ByteReads(z, LOADFLAGS, SetBit7(file[LOADFLAGS]));
    } else {
      HeaderPatched(file, ps);
      PatchesSpare(Zeros(PAGE), ps, 1, Region(0x211, 1));
    }
  }

  lemma ByteReads(z: seq<byte>, at: nat, b: byte)
    requires at < |z| && z[at..at + 1] == [b]
    ensures z[at] == b
  {
    assert z[at..at + 1][0] == z[at];
  }

  lemma CmdlineReads(file: seq<byte>, memSize: u64, cmdline: seq<byte>)
    requires IsImage(file) && memSize >= KERNEL_START && cmdline != []
    ensures var z := ZeroPage(file, memSize, cmdline);
            Word32(z, CMD_LINE_PTR) == CMDLINE_START && Word32(z, CMDLINE_SIZE) == SizeWord(cmdline)
  {
    hide Patched, Bytes32, Word32, E820Entry, IsImage, SetBit7;
    var z, ps := ZeroPage(file, memSize, cmdline), Patches(file, memSize, cmdline);
    PatchReads(Zeros(PAGE), ps, 4);
    PatchReads(Zeros(PAGE), ps, 5);
    Word32Of(z, CMD_LINE_PTR, CMDLINE_START);
    Word32Of(z, CMDLINE_SIZE, SizeWord(cmdline));
  }

  lemma ImageBytes(file: seq<byte>, memSize: u64, cmdline: seq<byte>)
    requires IsImage(file) && memSize >= KERNEL_START
    ensures forall p: nat :: FromImage(p) ==> ZeroPage(file, memSize, cmdline)[p] == file[p]
  {
    hide Patched, Bytes32, E820Entry, SetBit7, Word32;
    var z, ps := ZeroPage(file, memSize, cmdline), Patches(file, memSize, cmdline);
    HeaderPatched(file, ps);
    forall p: nat | FromImage(p)
      ensures z[p] == file[p]
    {
      assert forall j :: 1 <= j < |ps| ==> Disjoint(Place(ps[j]), Region(p, 1));
      PatchesSpare(Zeros(PAGE), ps, 1, Region(p, 1));
    }
  }

  lemma HeaderPatched(file: seq<byte>, ps: seq<Patch>)
    requires IsImage(file) && |ps| > 0
    requires ps[0] == Patch(SETUP_HEADER, file[SETUP_HEADER..SETUP_HEADER + SETUP_HEADER_LEN])
    ensures forall p :: SETUP_HEADER <= p < SETUP_HEADER + SETUP_HEADER_LEN ==>
      Patched(Zeros(PAGE), ps[..1])[p] == file[p]
  {
    assert ps[..1][..0] == [];
  }

  // ---- Loading ----

  /** When loading succeeds: the file is an image, and everything it places fits. */
  predicate Loadable(file: seq<byte>, memLen: nat, cmdline: seq<byte>) {
    && IsImage(file)
    && (cmdline != [] ==> CMDLINE_START + |cmdline| + 1 <= memLen)
    && KERNEL_START + |Kernel(file)| <= memLen
    && KERNEL_START + 16 <= memLen
  }

  /** Guest memory after loading: command line with its terminator, kernel, zero page, in this
      order, each over the one before. */
  function Loaded(m: seq<byte>, file: seq<byte>, memSize: u64, cmdline: seq<byte>): (m': seq<byte>)
    requires IsImage(file) && memSize >= KERNEL_START
    ensures |m'| == |m|
  {
    var m1 := if cmdline == [] then m else Store(Store(m, CMDLINE_START, cmdline), CMDLINE_START + |cmdline|, [0]);
    var m2 := Store(m1, KERNEL_START, Kernel(file));
    Store(m2, ZERO_PAGE_START, ZeroPage(file, memSize, cmdline))
  }

  /** The entry point the image asks for, or the kernel's start. */
  function EntryPoint(file: seq<byte>): u64
    requires IsImage(file)
  {
    if Word32(file, CODE32_START) != 0 then Word32(file, CODE32_START) else KERNEL_START
  }

  method AssembleZeroPage(file: seq<byte>, memSize: u64, cmdline: seq<byte>) returns (z: array<byte>)
    requires IsImage(file) && memSize >= KERNEL_START
    ensures fresh(z) && z[..] == ZeroPage(file, memSize, cmdline)
  {
    hide Word16, Word32, Bytes32, E820Entry, SetBit7, Store;
    z := new byte[PAGE](_ => 0);
    assert z[..] == Zeros(PAGE);
    ghost var ps: seq<Patch> := [];
    ps := Change(z, ps, SETUP_HEADER, file[SETUP_HEADER..SETUP_HEADER + SETUP_HEADER_LEN]);
    ps := Change(z, ps, E820_ENTRIES, [2]);
    ps := Change(z, ps, E820_TABLE, E820Entry(0, LOW_RAM));
    ps := Change(z, ps, E820_TABLE + E820_ENTRY_LEN, E820Entry(KERNEL_START, memSize - KERNEL_START));
    assert ps == FixedPatches(file, memSize);
    ghost var before := ps;
    if cmdline != [] {
      ps := Change(z, ps, CMD_LINE_PTR, Bytes32(CMDLINE_START));
      ps := Change(z, ps, CMDLINE_SIZE, Bytes32(SizeWord(cmdline)));
    }
    assert ps == before + CmdlinePatches(cmdline);
    ps := Change(z, ps, TYPE_OF_LOADER, [0xFF]);
    before := ps;
    if Word16(file, VERSION) >= 0x200 {
      ps := Change(z, ps, LOADFLAGS, [SetBit7(file[LOADFLAGS])]);
    }
    assert ps == before + FlagPatches(file);
  }

  method Change(z: array<byte>, ghost ps: seq<Patch>, at: nat, data: seq<byte>) returns (ghost ps': seq<Patch>)
    requires z.Length == PAGE && z[..] == Patched(Zeros(PAGE), ps) && at + |data| <= PAGE
    modifies z
    ensures ps' == ps + [Patch(at, data)] && z[..] == Patched(Zeros(PAGE), ps')
  {
    ps' := ps + [Patch(at, data)];
    assert ps'[..|ps|] == ps;
    Poke(z, at, data);
  }

  method LoadLinux(mem: GuestMemory, file: seq<byte>, memSize: u64, cmdline: seq<byte>) returns (entry: Option<u64>)
    requires memSize >= KERNEL_START && |file| <= ISIZE_MAX && |cmdline| <= ISIZE_MAX
    modifies mem.bytes
    ensures entry.Some? <==> Loadable(file, mem.bytes.Length, cmdline)
    ensures entry.Some? ==>
      && mem.bytes[..] == Loaded(old(mem.bytes[..]), file, memSize, cmdline)
      && entry.value == EntryPoint(file)
  {
    hide Store, ZeroPage, Kernel;
    if |file| < SETUP_HEADER + SETUP_HEADER_LEN || Word32(file, MAGIC) != HDRS_MAGIC {
      return None;
    }
    var params := AssembleZeroPage(file, memSize, cmdline);
    if cmdline != [] {
      var placed := mem.WriteSlice(CMDLINE_START, cmdline);
      if !placed { return None; }
      placed := mem.WriteU8(CMDLINE_START + |cmdline|, 0);
      if !placed { return None; }
    }
    var ok := mem.WriteSlice(KERNEL_START, Kernel(file));
    if !ok { return None; }
    ok := mem.WriteSlice(ZERO_PAGE_START, params[..]);
    if !ok { return None; }
    var code32 := Word32(file, CODE32_START);
    var first := mem.ReadSlice(KERNEL_START, 16);
    if first.None? { return None; }
    return Some(if code32 != 0 then code32 else KERNEL_START);
  }
}
