/** The boot sequence: ACPI tables, kernel, command line and zero page, and the descriptor table
    of each vCPU, all in the same guest memory. What each step wrote must survive the later
    ones, and the memory map must tell the kernel the truth about it. */
module BootLayout {
  import opened Bytes
  import opened Memory
  import opened Acpi
  import opened Loader
  import Paging

  /** The smallest guest the configuration admits. */
  const MIN_MEMORY: nat := 0x800_0000

  /** Room for the command line and its terminator below the ACPI tables. */
  const CMDLINE_ROOM: nat := RSDP_START - CMDLINE_START

  function Terminated(cmdline: seq<byte>): seq<byte> {
    if cmdline == [] then [] else cmdline + [0]
  }

  function CmdlineRegion(cmdline: seq<byte>): Region {
    Region(CMDLINE_START, |Terminated(cmdline)|)
  }

  function AcpiRegion(vcpus: byte): Region {
    Region(RSDP_START, MADT_ADDR + MadtLen(vcpus) - RSDP_START)
  }

  /** What loading leaves in memory: the zero page and the kernel whole, the command line with its
      terminator as far as it stays below the kernel, everything else as it was. */
  lemma LoadedReads(m: seq<byte>, file: seq<byte>, memSize: u64, cmdline: seq<byte>)
    requires memSize >= KERNEL_START && Loadable(file, |m|, cmdline)
    ensures var m' := Loaded(m, file, memSize, cmdline);
            && m'[ZERO_PAGE_START..ZERO_PAGE_START + PAGE] == ZeroPage(file, memSize, cmdline)
            && m'[KERNEL_START..KERNEL_START + |Kernel(file)|] == Kernel(file)
            && (forall p :: 0 <= p < KERNEL_START && CmdlineRegion(cmdline).Has(p) ==>
                  m'[p] == Terminated(cmdline)[p - CMDLINE_START])
            && (forall p ::
                  (0 <= p < KERNEL_START && !CmdlineRegion(cmdline).Has(p) && !Region(ZERO_PAGE_START, PAGE).Has(p)) ==>
                    m'[p] == m[p])
  {
    hide IsImage, Kernel, ZeroPage;
    var m1 := if cmdline == [] then m else Store(Store(m, CMDLINE_START, cmdline), CMDLINE_START + |cmdline|, [0]);
    var m2 := Store(m1, KERNEL_START, Kernel(file));
    var m3 := Store(m2, ZERO_PAGE_START, ZeroPage(file, memSize, cmdline));
    StoreLoad(m1, KERNEL_START, Kernel(file));
    StoreLoad(m2, ZERO_PAGE_START, ZeroPage(file, memSize, cmdline));
    SliceSame(m2, m3, KERNEL_START, |Kernel(file)|);
  }

  /** Everything the boot sequence promises the guest. */
  ghost predicate Booted(m: seq<byte>, file: seq<byte>, cmdline: seq<byte>, vcpus: byte)
    requires IsImage(file) && KERNEL_START <= |m| < 0x1_0000_0000_0000_0000
  {
    && Paging.GdtIs(m, Paging.CODE32, Paging.DATA32)
    && m[ZERO_PAGE_START..ZERO_PAGE_START + PAGE] == ZeroPage(file, |m|, cmdline)
    && KERNEL_START + |Kernel(file)| <= |m|
    && m[KERNEL_START..KERNEL_START + |Kernel(file)|] == Kernel(file)
    && (forall p :: 0 <= p < KERNEL_START && CmdlineRegion(cmdline).Has(p) ==>
          m[p] == Terminated(cmdline)[p - CMDLINE_START])
    && TablesOutside(m, cmdline, vcpus)
  }

  /** The ACPI tables, as far as the command line does not lie over them. */
  ghost predicate TablesOutside(m: seq<byte>, cmdline: seq<byte>, vcpus: byte)
    requires KERNEL_START <= |m|
  {
    forall p :: AcpiRegion(vcpus).Has(p) && !CmdlineRegion(cmdline).Has(p) ==> m[p] == Tables(vcpus)[p - RSDP_START]
  }

  /** From 0x100000 on guest memory holds the image's code: what follows its boot sector and its setup
      sectors, of which a count of zero means four. */
  ghost predicate CodePlaced(m: seq<byte>, file: seq<byte>)
    requires |file| > 0x1F1
  {
    var sects: nat := if file[0x1F1] == 0 then 4 else file[0x1F1];
    var code := 512 * (sects + 1);
    code <= |file| ==>
      && 0x10_0000 + (|file| - code) <= |m|
      && forall p :: 0x10_0000 <= p < 0x10_0000 + (|file| - code) ==> m[p] == file[code + (p - 0x10_0000)]
  }

  /** What a start needs: a file that reaches to the end of the setup header, with "HdrS" in it, and
      memory that reaches to the end of the command line, of the code, and 16 bytes into the code. */
  predicate Bootable(file: seq<byte>, memSize: nat, cmdline: seq<byte>) {
    && |file| >= 0x268
    && file[0x202] == 0x48 && file[0x203] == 0x64 && file[0x204] == 0x72 && file[0x205] == 0x53
    && (cmdline == [] || 0x20000 + |cmdline| + 1 <= memSize)
    && var code := 512 * ((if file[0x1F1] == 0 then 4 else file[0x1F1] as nat) + 1);
    0x10_0000 + (if code <= |file| then |file| - code else 0) <= memSize && 0x10_0010 <= memSize
  }

  lemma LoadableIsBootable(file: seq<byte>, memSize: nat, cmdline: seq<byte>)
    ensures Loadable(file, memSize, cmdline) <==> Bootable(file, memSize, cmdline)
  {
    if |file| >= 0x268 {
      MagicBytes(file);
    }
  }

  lemma MagicBytes(file: seq<byte>)
    requires |file| >= 0x268
    ensures Word32(file, MAGIC) == HDRS_MAGIC <==>
      file[0x202] == 0x48 && file[0x203] == 0x64 && file[0x204] == 0x72 && file[0x205] == 0x53
  {
  }

  lemma KernelIsCode(m: seq<byte>, file: seq<byte>)
    requires IsImage(file) && KERNEL_START + |Kernel(file)| <= |m|
    requires m[KERNEL_START..KERNEL_START + |Kernel(file)|] == Kernel(file)
    ensures CodePlaced(m, file)
  {
    hide Word32;
    var k := Kernel(file);
    forall p | KERNEL_START <= p < KERNEL_START + |k|
      ensures m[p] == k[p - KERNEL_START]
    {
      assert m[KERNEL_START..KERNEL_START + |k|][p - KERNEL_START] == m[p];
    }
  }

  /** The memory-writing part of the VMM's start, in its order. It succeeds exactly when the image
      is loadable. */
  method Boot(mem: GuestMemory, file: seq<byte>, cmdline: seq<byte>, vcpus: byte) returns (entry: Option<u64>)
    requires MIN_MEMORY <= mem.bytes.Length < 0x1_0000_0000_0000_0000 && vcpus >= 1
    requires |file| <= ISIZE_MAX && |cmdline| <= ISIZE_MAX
    modifies mem.bytes
    ensures entry.Some? <==> Bootable(file, mem.bytes.Length, cmdline)
    ensures entry.Some? ==> IsImage(file)
    ensures entry.Some? ==> Booted(mem.bytes[..], file, cmdline, vcpus) && CodePlaced(mem.bytes[..], file)
    ensures entry.Some? ==> entry.value == if Word32(file, 0x214) != 0 then Word32(file, 0x214) else 0x10_0000
  {
    hide Installed, ZeroPage, Kernel, Loaded, Word64, Word32, CodePlaced, Bootable;
    LoadableIsBootable(file, mem.bytes.Length, cmdline);
    var ok := SetupAcpi(mem, vcpus);
    ghost var m1 := mem.bytes[..];
    entry := LoadLinux(mem, file, mem.bytes.Length, cmdline);
    if entry.None? {
      return None;
    }
    ghost var m2 := mem.bytes[..];
    LoadedReads(m1, file, mem.bytes.Length, cmdline);
    for cpu := 0 to vcpus
      invariant forall p :: 0 <= p < mem.bytes.Length && !(Paging.GDT <= p < Paging.GDT + 24) ==> mem.bytes[p] == m2[p]
      invariant cpu > 0 ==> Paging.GdtIs(mem.bytes[..], Paging.CODE32, Paging.DATA32)
    {
      ok := Paging.SetupGdt(mem, Paging.CODE32, Paging.DATA32);
    }
    SliceSame(m2, mem.bytes[..], ZERO_PAGE_START, PAGE);
    SliceSame(m2, mem.bytes[..], KERNEL_START, |Kernel(file)|);
    TablesKept(m1, mem.bytes[..], cmdline, vcpus);
    KernelIsCode(mem.bytes[..], file);
  }

  lemma TablesKept(m: seq<byte>, m': seq<byte>, cmdline: seq<byte>, vcpus: byte)
    requires |m'| == |m| >= KERNEL_START && Installed(m, vcpus)
    requires forall p :: AcpiRegion(vcpus).Has(p) && !CmdlineRegion(cmdline).Has(p) ==> m'[p] == m[p]
    ensures TablesOutside(m', cmdline, vcpus)
  {
    hide Installed, Tables, CmdlineRegion;
    InstalledIff(m, vcpus);
    forall p | AcpiRegion(vcpus).Has(p) && !CmdlineRegion(cmdline).Has(p)
      ensures m'[p] == Tables(vcpus)[p - RSDP_START]
    {
      assert m[RSDP_START..RSDP_START + |Tables(vcpus)|][p - RSDP_START] == m[p];
    }
  }

  /** The memory map a booted kernel reads from its zero page. The two ranges are apart and inside
      memory; the kernel is in the second; zero page and descriptor table are in the first; for
      every number of vCPUs the ACPI tables are in neither. The command line is in the first
      exactly when it has fewer than 0x7FC00 bytes: a longer one may be below the ACPI tables and
      still stick out of the RAM the kernel is told about. */
  lemma MemoryMap(m: seq<byte>, file: seq<byte>, cmdline: seq<byte>, vcpus: byte)
    requires MIN_MEMORY <= |m| < 0x1_0000_0000_0000_0000
    requires IsImage(file) && Booted(m, file, cmdline, vcpus)
    ensures var z := m[ZERO_PAGE_START..ZERO_PAGE_START + PAGE];
            var r0, r1 := E820At(z, 0), E820At(z, 1);
            var low, high := Region(r0.addr, r0.size), Region(r1.addr, r1.size);
            && z[E820_ENTRIES] == 2 && r0.kind == E820_RAM && r1.kind == E820_RAM
            && Disjoint(low, high) && Within(low, |m|) && Within(high, |m|)
            && Inside(Region(KERNEL_START, |Kernel(file)|), high)
            && Inside(Region(ZERO_PAGE_START, PAGE), low) && Inside(Region(Paging.GDT, 24), low)
            && Disjoint(AcpiRegion(vcpus), low) && Disjoint(AcpiRegion(vcpus), high)
            && (Inside(CmdlineRegion(cmdline), low) <==> |cmdline| < 0x7FC00)
  {
    hide ZeroPage, Kernel, Installed, IsImage, Paging.GdtIs;
    ZeroPageReads(file, |m|, cmdline);
  }

  /** What the booted guest finds at fixed addresses: the boot parameters at 0x7000, laid out as the
      Linux boot protocol has them; three descriptors at 0x4000, null, code and data; and the
      command line with its terminator at 0x20000, as far as it ends below the code. */
  lemma GuestFinds(m: seq<byte>, file: seq<byte>, cmdline: seq<byte>, vcpus: byte)
    requires MIN_MEMORY <= |m| < 0x1_0000_0000_0000_0000
    requires IsImage(file) && Booted(m, file, cmdline, vcpus)
    ensures m[0x71E8] == 2 && m[0x7210] == 0xFF
    ensures Word64(m, 0x72D0) == 0 && Word64(m, 0x72D8) == 0x9FC00 && Word32(m, 0x72E0) == 1
    ensures Word64(m, 0x72E4) == 0x10_0000 && Word64(m, 0x72EC) == |m| - 0x10_0000 && Word32(m, 0x72F4) == 1
    ensures cmdline != [] ==> Word32(m, 0x7228) == 0x20000 && Word32(m, 0x7238) == (|cmdline| + 1) % 0x1_0000_0000
    ensures Word64(m, 0x4000) == 0
    ensures Word64(m, 0x4008) == 0x00CF_9A00_0000_FFFF && Word64(m, 0x4010) == 0x00CF_9200_0000_FFFF
    ensures forall p :: 0x20000 <= p < 0x20000 + |cmdline| && p < 0x10_0000 ==> m[p] == cmdline[p - 0x20000]
    ensures cmdline != [] && 0x20000 + |cmdline| < 0x10_0000 ==> m[0x20000 + |cmdline|] == 0
    ensures CodePlaced(m, file)
  {
    hide ZeroPage, Kernel, TablesOutside, IsImage, Word64, Word32, CodePlaced;
    var z := m[ZERO_PAGE_START..ZERO_PAGE_START + PAGE];
    ZeroPageReads(file, |m|, cmdline);
    KernelIsCode(m, file);
    PageWords(m, 0x2D0);
    PageWords(m, 0x2D8);
    PageWords(m, 0x2E0);
    PageWords(m, 0x2E4);
    PageWords(m, 0x2EC);
    PageWords(m, 0x2F4);
    PageWords(m, 0x228);
    PageWords(m, 0x238);
    assert z[0x1E8] == m[0x71E8] && z[0x210] == m[0x7210];
  }

  lemma PageWords(m: seq<byte>, at: nat)
    requires ZERO_PAGE_START + PAGE <= |m| && at + 8 <= PAGE
    ensures var z := m[ZERO_PAGE_START..ZERO_PAGE_START + PAGE];
            Word64(m, ZERO_PAGE_START + at) == Word64(z, at) && Word32(m, ZERO_PAGE_START + at) == Word32(z, at)
  {
  }

  // ---- When the tables survive the command line ----

  /** Where the command line lies over the tables, it has their bytes. */
  ghost predicate SameBytes(cmdline: seq<byte>, vcpus: byte) {
    forall p :: AcpiRegion(vcpus).Has(p) && CmdlineRegion(cmdline).Has(p) ==>
      Terminated(cmdline)[p - CMDLINE_START] == Tables(vcpus)[p - RSDP_START]
  }

  /** Where it lies over the root pointer's signature, it has the signature's bytes. */
  ghost predicate KeepsSignature(cmdline: seq<byte>) {
    forall i :: 0 <= i < 8 && CMDLINE_ROOM + i < |Terminated(cmdline)| ==>
      Terminated(cmdline)[CMDLINE_ROOM + i] == Ascii("RSD PTR ")[i]
  }

  /** After the whole sequence the tables are as installed exactly when the command line has their
      bytes wherever it lies over them, and then a reader gets the processors. A line that spoils
      the signature leaves the reader with nothing. So, of the lines that do not happen to end in
      a piece of that signature, exactly those that end below the tables keep them readable. */
  lemma TablesSurviveIff(m: seq<byte>, file: seq<byte>, cmdline: seq<byte>, vcpus: byte)
    requires MIN_MEMORY <= |m| < 0x1_0000_0000_0000_0000
    requires IsImage(file) && Booted(m, file, cmdline, vcpus)
    ensures Installed(m, vcpus) <==> SameBytes(cmdline, vcpus)
    ensures SameBytes(cmdline, vcpus) ==> ReadPlatform(m) == Some(Expected(vcpus))
    ensures !KeepsSignature(cmdline) ==> ReadPlatform(m) == None
    ensures |cmdline| < CMDLINE_ROOM || !KeepsSignature(cmdline) ==>
      (ReadPlatform(m) == Some(Expected(vcpus)) <==> |cmdline| < CMDLINE_ROOM)
  {
    hide ZeroPage, Kernel, Installed, IsImage, Paging.GdtIs, ReadPlatform, SameBytes, KeepsSignature, Expected;
    InstalledIffSame(m, file, cmdline, vcpus);
    if SameBytes(cmdline, vcpus) {
      ReaderFindsProcessors(m, vcpus);
    }
    if !KeepsSignature(cmdline) {
      SignatureSpoilt(m, file, cmdline, vcpus);
    }
    if |cmdline| < CMDLINE_ROOM {
      BelowIsSame(cmdline, vcpus);
    }
  }

  lemma InstalledIffSame(m: seq<byte>, file: seq<byte>, cmdline: seq<byte>, vcpus: byte)
    requires MIN_MEMORY <= |m| < 0x1_0000_0000_0000_0000
    requires IsImage(file) && Booted(m, file, cmdline, vcpus)
    ensures Installed(m, vcpus) <==> SameBytes(cmdline, vcpus)
  {
    hide ZeroPage, Kernel, Installed, IsImage, Paging.GdtIs, Tables, Terminated;
    InstalledIff(m, vcpus);
    var t := Tables(vcpus);
    if Installed(m, vcpus) {
      forall p | AcpiRegion(vcpus).Has(p) && CmdlineRegion(cmdline).Has(p)
        ensures Terminated(cmdline)[p - CMDLINE_START] == t[p - RSDP_START]
      {
        assert m[RSDP_START..RSDP_START + |t|][p - RSDP_START] == m[p];
      }
    }
    if SameBytes(cmdline, vcpus) {
      forall i | 0 <= i < |t|
        ensures m[RSDP_START + i] == t[i]
      {
        assert AcpiRegion(vcpus).Has(RSDP_START + i);
      }
    }
  }

  lemma SignatureSpoilt(m: seq<byte>, file: seq<byte>, cmdline: seq<byte>, vcpus: byte)
    requires MIN_MEMORY <= |m| < 0x1_0000_0000_0000_0000
    requires IsImage(file) && Booted(m, file, cmdline, vcpus) && !KeepsSignature(cmdline)
    ensures ReadPlatform(m) == None
  {
    hide ZeroPage, Kernel, IsImage, Paging.GdtIs, Sum, Ascii, ReadTable, FindMadt, ReadApics, Terminated, TablesOutside;
    var i :| 0 <= i < 8 && CMDLINE_ROOM + i < |Terminated(cmdline)| && Terminated(cmdline)[CMDLINE_ROOM + i] != Ascii("RSD PTR ")[i];
    assert CmdlineRegion(cmdline).Has(RSDP_START + i);
    assert m[RSDP_START..RSDP_START + 8][i] == m[RSDP_START + i];
  }

  lemma BelowIsSame(cmdline: seq<byte>, vcpus: byte)
    requires |cmdline| < CMDLINE_ROOM
    ensures SameBytes(cmdline, vcpus) && KeepsSignature(cmdline)
  {
    hide Tables, Ascii;
  }

  /** For a line without zero bytes that is: it ends below the tables, or exactly at the root
      pointer's revision byte, the first zero of the tables, with the 15 bytes before that being
      the root pointer's own. */
  lemma SameBytesIff(cmdline: seq<byte>, vcpus: byte)
    requires 0 !in cmdline
    ensures SameBytes(cmdline, vcpus) <==>
      |cmdline| < CMDLINE_ROOM || cmdline[CMDLINE_ROOM..] == Rsdp()[..REVISION]
  {
    hide Rsdp, Rsdt, Madt, SameBytes;
    if |cmdline| < CMDLINE_ROOM {
      BelowIsSame(cmdline, vcpus);
    } else {
      if SameBytes(cmdline, vcpus) {
        LineMatches(cmdline, vcpus);
      }
      if cmdline[CMDLINE_ROOM..] == Rsdp()[..REVISION] {
        MatchIsSame(cmdline, vcpus);
      }
    }
  }

  lemma MatchIsSame(cmdline: seq<byte>, vcpus: byte)
    requires |cmdline| >= CMDLINE_ROOM && cmdline[CMDLINE_ROOM..] == Rsdp()[..REVISION]
    ensures SameBytes(cmdline, vcpus)
  {
    hide Rsdp, Rsdt, Madt;
    FirstZeroByte();
    var t := Tables(vcpus);
    assert forall i :: 0 <= i < RSDP_LEN ==> t[i] == Rsdp()[i];
    forall p | AcpiRegion(vcpus).Has(p) && CmdlineRegion(cmdline).Has(p)
      ensures Terminated(cmdline)[p - CMDLINE_START] == t[p - RSDP_START]
    {
      if p < RSDP_START + REVISION {
        assert cmdline[CMDLINE_ROOM..][p - RSDP_START] == Rsdp()[..REVISION][p - RSDP_START];
      }
    }
  }

  lemma LineMatches(cmdline: seq<byte>, vcpus: byte)
    requires 0 !in cmdline && |cmdline| >= CMDLINE_ROOM && SameBytes(cmdline, vcpus)
    ensures cmdline[CMDLINE_ROOM..] == Rsdp()[..REVISION]
  {
    hide Rsdp, Rsdt, Madt;
    FirstZeroByte();
    var t, over := Tables(vcpus), cmdline[CMDLINE_ROOM..];
    assert forall i :: 0 <= i < RSDP_LEN ==> t[i] == Rsdp()[i];
    forall i | 0 <= i < RSDP_LEN && i <= |over|
      ensures (over + [0])[i] == Rsdp()[i]
    {
      assert AcpiRegion(vcpus).Has(RSDP_START + i) && CmdlineRegion(cmdline).Has(RSDP_START + i);
    }
    EndsAtFirstZero(over, Rsdp(), REVISION);
  }

  lemma EndsAtFirstZero(s: seq<byte>, t: seq<byte>, z: nat)
    requires 0 !in s && z < |t| && t[z] == 0 && forall i :: 0 <= i < z ==> t[i] != 0
    requires forall i :: 0 <= i < |t| && i <= |s| ==> (s + [0])[i] == t[i]
    ensures |s| == z && s == t[..z]
  {
    var line := s + [0];
    assert line[|s|] == 0;
    assert forall i :: 0 <= i < |s| ==> line[i] == s[i] && s[i] in s;
  }
}
