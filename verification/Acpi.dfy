/** The ACPI tables the VMM builds for its vCPUs, and a reader that follows them (ACPI 6.4
    sections 5.2.5.3, 5.2.7 and 5.2.12). */
module Acpi {
  import opened Bytes
  import opened Memory

  const RSDP_START: nat := 0xE0000
  const RSDP_LEN: nat := 36
  const HEADER_LEN: nat := 36
  const RSDT_LEN: nat := 40
  const MADT_FIXED: nat := 44
  const ENTRY_LEN: nat := 8
  const REVISION: nat := 15
  const RSDT_ADDR: nat := RSDP_START + RSDP_LEN
  const MADT_ADDR: nat := RSDT_ADDR + RSDT_LEN

  function Ascii(s: string): (b: seq<byte>)
    ensures |b| == |s|
  {
    seq(|s|, i requires 0 <= i < |s| => (s[i] as int) % 0x100)
  }

  // ---- Checksums ----

  /** The sum of the bytes modulo 256. */
  function Sum(s: seq<byte>): byte {
    if s == [] then 0 else (Sum(s[..|s| - 1]) + s[|s| - 1]) % 0x100
  }

  function Checksum(s: seq<byte>): byte {
    (0x100 - Sum(s)) % 0x100
  }

  lemma ModAdd(x: int, y: int)
    ensures (x % 0x100 + y) % 0x100 == (x + y) % 0x100
  {
  }

  lemma SumNone(s: seq<byte>)
    requires s == []
    ensures Sum(s) == 0
  {
  }

  lemma SumNext(s: seq<byte>, n: nat)
    requires n < |s|
    ensures Sum(s[..n + 1]) == (Sum(s[..n]) + s[n]) % 0x100
  {
    assert s[..n + 1][..n] == s[..n];
  }

  /** Replacing one byte of a table changes its sum by the difference. */
  lemma {:induction false} SumUpdate(s: seq<byte>, at: nat, v: byte)
    requires at < |s|
    ensures Sum(s[at := v]) == (Sum(s) - s[at] + v) % 0x100
    decreases |s|
  {
    hide Sum;
    var n, t := |s| - 1, s[at := v];
    assert s[..n + 1] == s && t[..n + 1] == t;
    SumNext(s, n);
    SumNext(t, n);
    if at == n {
      assert t[..n] == s[..n];
      ModAdd(Sum(s[..n]) + s[n], v - s[n]);
    } else {
      assert t[..n] == s[..n][at := v];
      SumUpdate(s[..n], at, v);
      ModUpdate(Sum(s[..n]), s[n], v - s[at]);
    }
  }

  lemma ModUpdate(a: int, b: int, c: int)
    ensures ((a + c) % 0x100 + b) % 0x100 == ((a + b) % 0x100 + c) % 0x100
  {
    ModAdd(a + c, b);
    ModAdd(a + b, c);
  }

  /** Storing the checksum of a table in a byte that was zero makes the table sum to zero. */
  lemma SealedSumsToZero(s: seq<byte>, at: nat)
    requires at < |s| && s[at] == 0
    ensures Sum(s[at := Checksum(s)]) == 0
  {
    SumUpdate(s, at, Checksum(s));
    ModAdd(0x100 - Sum(s), Sum(s));
  }

  // ---- The tables ----

  function Header(sig: seq<byte>, length: u32, oemTable: seq<byte>): (h: seq<byte>)
    requires |sig| == 4 && |oemTable| == 8
    ensures |h| == HEADER_LEN && h[9] == 0
  {
    sig + Bytes32(length) + [1] + Zeros(1) + Ascii("AXVM  ") + oemTable + Bytes32(1) + Bytes32(0x4D5641) + Bytes32(1)
  }

  /** Local APIC structures 0 to n-1: type 0, length 8, both ids, enabled. */
  function Entries(n: nat): (e: seq<byte>)
    requires n < 0x100
    ensures |e| == ENTRY_LEN * n
  {
    if n == 0 then [] else Entries(n - 1) + ApicEntry(n - 1)
  }

  function ApicEntry(id: byte): (e: seq<byte>)
    ensures |e| == ENTRY_LEN
  {
    [0, 8, id, id] + Bytes32(1)
  }

  function MadtLen(n: nat): nat {
    MADT_FIXED + ENTRY_LEN * n
  }

  function MadtBlank(n: byte): (t: seq<byte>)
    ensures |t| == MadtLen(n) && t[9] == 0
  {
    Header(Ascii("APIC"), MadtLen(n), Ascii("AXVMCPU ")) + Bytes32(0xFEE0_0000) + Bytes32(1) + Entries(n)
  }

  function RsdtBlank(): (t: seq<byte>)
    ensures |t| == RSDT_LEN && t[9] == 0
  {
    Header(Ascii("RSDT"), RSDT_LEN, Ascii("AXVMRSDT")) + Bytes32(MADT_ADDR)
  }

  function RsdpBlank(): (t: seq<byte>)
    ensures |t| == RSDP_LEN && t[8] == 0
  {
    Ascii("RSD PTR ") + Zeros(1) + Ascii("AXVM  ") + Zeros(1) + Bytes32(RSDT_ADDR) + Bytes32(RSDP_LEN) + Zeros(12)
  }

  function Madt(n: byte): (t: seq<byte>)
    ensures |t| == MadtLen(n)
  {
    MadtBlank(n)[9 := Checksum(MadtBlank(n))]
  }

  function Rsdt(): (t: seq<byte>)
    ensures |t| == RSDT_LEN
  {
    RsdtBlank()[9 := Checksum(RsdtBlank())]
  }

  /** The pointer's checksum covers its first 20 bytes. */
  function Rsdp(): (t: seq<byte>)
    ensures |t| == RSDP_LEN
  {
    RsdpBlank()[8 := Checksum(RsdpBlank()[..20])]
  }

  // ---- The builder ----

  /** A table whose fields are filled up to here, and blank from here on. */
  ghost predicate FilledTo(t: seq<byte>, filled: seq<byte>) {
    |filled| <= |t| && t == filled + Zeros(|t| - |filled|)
  }

  method Field(t: array<byte>, ghost filled: seq<byte>, at: nat, data: seq<byte>)
    requires FilledTo(t[..], filled) && at == |filled| && at + |data| <= t.Length
    modifies t
    ensures FilledTo(t[..], filled + data)
  {
    Poke(t, at, data);
  }

  /** A field left at zero. */
  lemma ZeroField(t: seq<byte>, filled: seq<byte>, n: nat)
    requires FilledTo(t, filled) && |filled| + n <= |t|
    ensures FilledTo(t, filled + Zeros(n))
  {
  }

  method FillHeader(t: array<byte>, sig: seq<byte>, oemTable: seq<byte>)
    requires HEADER_LEN <= t.Length < 0x1_0000_0000 && |sig| == 4 && |oemTable| == 8
    requires FilledTo(t[..], [])
    modifies t
    ensures FilledTo(t[..], Header(sig, t.Length, oemTable))
  {
    hide Zeros, Ascii, Bytes32, FilledTo;
    ghost var h: seq<byte> := sig;
    assert [] + sig == sig;
    Field(t, [], 0, sig);
    Field(t, h, 4, Bytes32(t.Length));
    h := h + Bytes32(t.Length);
    Field(t, h, 8, [1]);
    h := h + [1];
    ZeroField(t[..], h, 1);
    h := h + Zeros(1);
    Field(t, h, 10, Ascii("AXVM  "));
    h := h + Ascii("AXVM  ");
    Field(t, h, 16, oemTable);
    h := h + oemTable;
    Field(t, h, 24, Bytes32(1));
    h := h + Bytes32(1);
    Field(t, h, 28, Bytes32(0x4D5641));
    h := h + Bytes32(0x4D5641);
    Field(t, h, 32, Bytes32(1));
  }

  lemma WholeTable(t: seq<byte>, filled: seq<byte>)
    requires FilledTo(t, filled) && |filled| == |t|
    ensures t == filled
  {
  }

  lemma BlankTable(t: seq<byte>)
    requires t == Zeros(|t|)
    ensures FilledTo(t, [])
  {
  }

  method BuildMadt(vcpus: byte) returns (t: array<byte>)
    ensures fresh(t) && t[..] == Madt(vcpus)
  {
    hide Zeros, Ascii, Bytes32, FilledTo, Header, Checksum;
    t := new byte[MadtLen(vcpus)](_ => 0);
    assert t[..] == Zeros(t.Length);
    BlankTable(t[..]);
    FillHeader(t, Ascii("APIC"), Ascii("AXVMCPU "));
    ghost var h := Header(Ascii("APIC"), t.Length, Ascii("AXVMCPU "));
    Field(t, h, 36, Bytes32(0xFEE0_0000));
    h := h + Bytes32(0xFEE0_0000);
    Field(t, h, 40, Bytes32(1));
    h := h + Bytes32(1);
    assert h + Entries(0) == h;
    for i := 0 to vcpus
      invariant t.Length == MadtLen(vcpus) && FilledTo(t[..], h + Entries(i))
    {
      var at := MADT_FIXED + ENTRY_LEN * i;
      Field(t, h + Entries(i), at, ApicEntry(i));
      assert h + Entries(i) + ApicEntry(i) == h + Entries(i + 1);
    }
    WholeTable(t[..], MadtBlank(vcpus));
    t[9] := Checksum(t[..]);
  }

  method BuildRsdt() returns (t: array<byte>)
    ensures fresh(t) && t[..] == Rsdt()
  {
    hide Zeros, Ascii, Bytes32, FilledTo, Header, Checksum;
    t := new byte[RSDT_LEN](_ => 0);
    assert t[..] == Zeros(t.Length);
    BlankTable(t[..]);
    FillHeader(t, Ascii("RSDT"), Ascii("AXVMRSDT"));
    Field(t, Header(Ascii("RSDT"), RSDT_LEN, Ascii("AXVMRSDT")), 36, Bytes32(MADT_ADDR));
    WholeTable(t[..], RsdtBlank());
    t[9] := Checksum(t[..]);
  }

  method BuildRsdp() returns (t: array<byte>)
    ensures fresh(t) && t[..] == Rsdp()
  {
    hide Zeros, Ascii, Bytes32, FilledTo, Checksum;
    t := new byte[RSDP_LEN](_ => 0);
    assert t[..] == Zeros(t.Length);
    BlankTable(t[..]);
    ghost var h := Ascii("RSD PTR ");
    assert [] + h == h;
    Field(t, [], 0, Ascii("RSD PTR "));
    ZeroField(t[..], h, 1);
    h := h + Zeros(1);
    Field(t, h, 9, Ascii("AXVM  "));
    h := h + Ascii("AXVM  ");
    ZeroField(t[..], h, 1);
    h := h + Zeros(1);
    Field(t, h, 16, Bytes32(RSDT_ADDR));
    h := h + Bytes32(RSDT_ADDR);
    Field(t, h, 20, Bytes32(RSDP_LEN));
    h := h + Bytes32(RSDP_LEN);
    ZeroField(t[..], h, 12);
    WholeTable(t[..], RsdpBlank());
    t[8] := Checksum(t[..20]);
  }

  /** Writes the tables to guest memory: the MADT, the RSDT that points to it, then the RSDP. The
      three do not overlap, so each reads back as it was written. */
  method SetupAcpi(mem: GuestMemory, vcpus: byte) returns (ok: bool)
    modifies mem.bytes
    ensures ok <==> MADT_ADDR + MadtLen(vcpus) <= mem.bytes.Length
    ensures ok ==> Installed(mem.bytes[..], vcpus)
    ensures forall p :: 0 <= p < mem.bytes.Length && !(RSDP_START <= p < MADT_ADDR + MadtLen(vcpus)) ==>
      mem.bytes[p] == old(mem.bytes[p])
  {
    hide Madt, Rsdt, Rsdp;
    var madt := BuildMadt(vcpus);
    ok := mem.WriteSlice(MADT_ADDR, madt[..]);
    if !ok { return; }
    ghost var m1 := mem.bytes[..];
    var rsdt := BuildRsdt();
    ok := mem.WriteSlice(RSDT_ADDR, rsdt[..]);
    if !ok { return; }
    ghost var m2 := mem.bytes[..];
    var rsdp := BuildRsdp();
    ok := mem.WriteSlice(RSDP_START, rsdp[..]);
    SliceSame(m1, mem.bytes[..], MADT_ADDR, MadtLen(vcpus));
    SliceSame(m2, mem.bytes[..], RSDT_ADDR, RSDT_LEN);
    assert m1[MADT_ADDR..MADT_ADDR + MadtLen(vcpus)] == Madt(vcpus);
    assert m2[RSDT_ADDR..RSDT_ADDR + RSDT_LEN] == Rsdt();
    assert mem.bytes[..][RSDP_START..RSDP_START + RSDP_LEN] == Rsdp();
  }

  ghost predicate Installed(m: seq<byte>, vcpus: byte) {
    && MADT_ADDR + MadtLen(vcpus) <= |m|
    && m[RSDP_START..RSDP_START + RSDP_LEN] == Rsdp()
    && m[RSDT_ADDR..RSDT_ADDR + RSDT_LEN] == Rsdt()
    && m[MADT_ADDR..MADT_ADDR + MadtLen(vcpus)] == Madt(vcpus)
  }

  /** The three tables as they lie in memory, one after the other. */
  function Tables(vcpus: byte): (t: seq<byte>)
    ensures |t| == MADT_ADDR + MadtLen(vcpus) - RSDP_START
  {
    Rsdp() + Rsdt() + Madt(vcpus)
  }

  lemma InstalledIff(m: seq<byte>, vcpus: byte)
    requires MADT_ADDR + MadtLen(vcpus) <= |m|
    ensures Installed(m, vcpus) <==> m[RSDP_START..RSDP_START + |Tables(vcpus)|] == Tables(vcpus)
  {
    hide Rsdp, Rsdt, Madt;
    var all := m[RSDP_START..RSDP_START + |Tables(vcpus)|];
    var a, b, c := m[RSDP_START..RSDT_ADDR], m[RSDT_ADDR..MADT_ADDR], m[MADT_ADDR..MADT_ADDR + MadtLen(vcpus)];
    assert all == a + b + c;
    assert all[..RSDP_LEN] == a && all[RSDP_LEN..RSDP_LEN + RSDT_LEN] == b && all[RSDP_LEN + RSDT_LEN..] == c;
    var t := Tables(vcpus);
    assert t[..RSDP_LEN] == Rsdp() && t[RSDP_LEN..RSDP_LEN + RSDT_LEN] == Rsdt() && t[RSDP_LEN + RSDT_LEN..] == Madt(vcpus);
  }

  /** Four bytes more, from a known sum. */
  lemma SumFour(s: seq<byte>, n: nat, sum: byte, w: int, x: int, y: int, z: int)
    requires n + 4 <= |s| && Sum(s[..n]) == sum
    requires s[n] == w && s[n + 1] == x && s[n + 2] == y && s[n + 3] == z
    ensures Sum(s[..n + 4]) == (sum + w + x + y + z) % 0x100
  {
    hide Sum;
    SumNext(s, n);
    SumNext(s, n + 1);
    SumNext(s, n + 2);
    SumNext(s, n + 3);
    ModAdd(sum + w, x);
    ModAdd(sum + w + x, y);
    ModAdd(sum + w + x + y, z);
  }

  /** The bytes the root pointer's checksum covers, before it is stored. */
  lemma PointerBytes()
    ensures var b := RsdpBlank();
            && b[0] == 0x52 && b[1] == 0x53 && b[2] == 0x44 && b[3] == 0x20
            && b[4] == 0x50 && b[5] == 0x54 && b[6] == 0x52 && b[7] == 0x20
            && b[8] == 0 && b[9] == 0x41 && b[10] == 0x58 && b[11] == 0x56
            && b[12] == 0x4D && b[13] == 0x20 && b[14] == 0x20 && b[15] == 0
  {
    hide Bytes32;
  }

  lemma PointerAddress()
    ensures var b := RsdpBlank(); b[16] == 0x24 && b[17] == 0 && b[18] == 0x0E && b[19] == 0
  {
    hide Ascii;
  }

  lemma PointerChecksum()
    ensures Checksum(RsdpBlank()[..20]) == 0x33
  {
    hide RsdpBlank, Sum;
    PointerBytes();
    PointerAddress();
    var b := RsdpBlank();
    SumNone(b[..0]);
    SumFour(b, 0, 0, 0x52, 0x53, 0x44, 0x20);
    SumFour(b, 4, 0x09, 0x50, 0x54, 0x52, 0x20);
    SumFour(b, 8, 0x1F, 0, 0x41, 0x58, 0x56);
    SumFour(b, 12, 0x0E, 0x4D, 0x20, 0x20, 0);
    SumFour(b, 16, 0x9B, 0x24, 0, 0x0E, 0);
  }

  /** The root pointer's bytes up to the revision are not zero, its checksum among them; the
      revision is. */
  lemma FirstZeroByte()
    ensures forall i :: 0 <= i < REVISION ==> Rsdp()[i] != 0
    ensures Rsdp()[REVISION] == 0
  {
    hide RsdpBlank, Checksum;
    PointerBytes();
    PointerChecksum();
  }

  // ---- The reader ----

  /** A root pointer at `at`: signature, checksum over 20 bytes; yields the RSDT address. */
  function ReadRsdp(m: seq<byte>, at: nat): Option<nat> {
    if at + 20 > |m| || m[at..at + 8] != Ascii("RSD PTR ") || Sum(m[at..at + 20]) != 0 then None
    else Some(Word32(m, at + 16))
  }

  /** A system table at `at` with signature `sig`: yields its length, if it is inside memory and
      sums to zero. */
  function ReadTable(m: seq<byte>, at: nat, sig: seq<byte>): Option<nat> {
    if at + 36 > |m| || m[at..at + 4] != sig then None
    else
      var len := Word32(m, at + 4);
      if len < 36 || at + len > |m| || Sum(m[at..at + len]) != 0 then None else Some(len)
  }

  /** The first MADT among the 32-bit table pointers from `at` to `end`. */
  function FindMadt(m: seq<byte>, at: nat, end: nat): (r: Option<nat>)
    requires end <= |m|
    ensures r.Some? ==> ReadTable(m, r.value, Ascii("APIC")).Some?
    decreases end - at
  {
    if at + 4 > end then None
    else if ReadTable(m, Word32(m, at), Ascii("APIC")).Some? then Some(Word32(m, at))
    else FindMadt(m, at + 4, end)
  }

  /** An enabled processor: its ACPI id and its Local APIC id. */
  datatype Processor = Processor(uid: byte, apicId: byte)

  /** What a MADT tells: where the Local APICs are, the flags, and the processors. */
  datatype Platform = Platform(apicBase: u32, flags: u32, processors: seq<Processor>)

  /** The enabled Local APIC structures from `at` to `end`, stepping by the length each
      structure gives; `None` if one is malformed. */
  function ReadApics(m: seq<byte>, at: nat, end: nat): Option<seq<Processor>>
    requires end <= |m|
    decreases end - at
  {
    if at == end then Some([])
    else if at + 2 > end || m[at + 1] < 2 || at + m[at + 1] > end then None
    else
      match ReadApics(m, at + m[at + 1], end)
      case None => None
      case Some(rest) =>
        if m[at] != 0 then Some(rest)
        else if m[at + 1] != 8 then None
        else if Word32(m, at + 4) % 2 == 1 then Some([Processor(m[at + 2], m[at + 3])] + rest)
        else Some(rest)
  }

  /** Root pointer to RSDT to MADT to processors. */
  function ReadPlatform(m: seq<byte>): Option<Platform> {
    match ReadRsdp(m, 0xE0000)
    case None => None
    case Some(rsdt) =>
      match ReadTable(m, rsdt, Ascii("RSDT"))
      case None => None
      case Some(len) =>
        match FindMadt(m, rsdt + 36, rsdt + len)
        case None => None
        case Some(madt) =>
          var end := madt + ReadTable(m, madt, Ascii("APIC")).value;
          if madt + 44 > end then None
          else
            match ReadApics(m, madt + 44, end)
            case None => None
            case Some(ps) => Some(Platform(Word32(m, madt + 36), Word32(m, madt + 40), ps))
  }

  /** Processors with equal ids counting upwards. */
  function Upwards(from: nat, to: nat): (ps: seq<Processor>)
    requires from <= to <= 0x100
    ensures |ps| == to - from && forall i :: 0 <= i < |ps| ==> ps[i] == Processor(from + i, from + i)
  {
    seq(to - from, i requires 0 <= i < to - from => Processor(from + i, from + i))
  }

  /** What the guest is to learn: Local APICs at their usual place, legacy interrupt controllers
      present, and one processor for each vCPU. */
  function Expected(vcpus: byte): Platform {
    Platform(0xFEE0_0000, 1, Upwards(0, vcpus))
  }

  // ---- The reader inverts the builder ----

  lemma SliceWord32(m: seq<byte>, at: nat, len: nat, off: nat)
    requires at + len <= |m| && off + 4 <= len
    ensures Word32(m, at + off) == Word32(m[at..at + len], off)
  {
  }

  lemma HeaderFields(sig: seq<byte>, length: u32, oemTable: seq<byte>)
    requires |sig| == 4 && |oemTable| == 8
    ensures var h := Header(sig, length, oemTable);
            h[..4] == sig && h[4..8] == Bytes32(length)
  {
    hide Bytes32, Ascii;
  }

  /** A sealed table in memory is read as a table of its signature and length. */
  lemma TableRead(m: seq<byte>, at: nat, blank: seq<byte>, sig: seq<byte>, oemTable: seq<byte>, body: seq<byte>)
    requires |sig| == 4 && |oemTable| == 8 && |blank| < 0x1_0000_0000
    requires blank == Header(sig, |blank|, oemTable) + body
    requires at + |blank| <= |m| && m[at..at + |blank|] == blank[9 := Checksum(blank)]
    ensures ReadTable(m, at, sig) == Some(|blank|)
  {
    hide Bytes32, Checksum, Sum, Header, Word32;
    var t, h := blank[9 := Checksum(blank)], Header(sig, |blank|, oemTable);
    HeaderFields(sig, |blank|, oemTable);
    assert t[..4] == h[..4] && t[4..8] == h[4..8];
    assert m[at..at + 4] == t[..4];
    Word32Of(t, 4, |blank|);
    SliceWord32(m, at, |blank|, 4);
    SealedSumsToZero(blank, 9);
  }

  lemma RsdpRead(m: seq<byte>, vcpus: byte)
    requires Installed(m, vcpus)
    ensures ReadRsdp(m, RSDP_START) == Some(RSDT_ADDR)
  {
    hide Checksum, Sum, Ascii, Madt, Rsdt, Word32, Bytes32, Zeros;
    var b, t := RsdpBlank(), Rsdp();
    SealedSumsToZero(b[..20], 8);
    assert t[..20] == b[..20][8 := Checksum(b[..20])];
    SliceOfSlice(m, RSDP_START, RSDP_LEN, 0, 20);
    SliceOfSlice(m, RSDP_START, RSDP_LEN, 0, 8);
    assert t[0..20] == t[..20] && t[0..8] == b[..8] == Ascii("RSD PTR ");
    assert t[16..20] == b[16..20] == Bytes32(RSDT_ADDR);
    Word32Of(t, 16, RSDT_ADDR);
    SliceWord32(m, RSDP_START, RSDP_LEN, 16);
  }

  lemma {:induction false} EntryAt(n: nat, k: nat)
    requires k < n < 0x100
    ensures Entries(n)[ENTRY_LEN * k..ENTRY_LEN * (k + 1)] == ApicEntry(k)
  {
    if k < n - 1 {
      EntryAt(n - 1, k);
      assert Entries(n)[ENTRY_LEN * k..ENTRY_LEN * (k + 1)] == Entries(n - 1)[ENTRY_LEN * k..ENTRY_LEN * (k + 1)];
    }
  }

  /** The structures of the installed MADT, from the k-th on, read as processors k to n-1. */
  lemma {:induction false} ApicsRead(m: seq<byte>, at: nat, n: nat, k: nat)
    requires k <= n < 0x100 && at + ENTRY_LEN * n <= |m|
    requires m[at..at + ENTRY_LEN * n] == Entries(n)
    ensures ReadApics(m, at + ENTRY_LEN * k, at + ENTRY_LEN * n) == Some(Upwards(k, n))
    decreases n - k
  {
    if k < n {
      EntryAt(n, k);
      var here := at + ENTRY_LEN * k;
      var e := ApicEntry(k);
      EntryBytes(m, at, n, k);
      ApicsRead(m, at, n, k + 1);
      assert Upwards(k, n) == [Processor(k, k)] + Upwards(k + 1, n);
    }
  }

  lemma EntryBytes(m: seq<byte>, at: nat, n: nat, k: nat)
    requires k < n < 0x100 && at + ENTRY_LEN * n <= |m|
    requires m[at..at + ENTRY_LEN * n] == Entries(n)
    ensures var here := at + ENTRY_LEN * k;
            m[here] == 0 && m[here + 1] == 8 && m[here + 2] == k && m[here + 3] == k && Word32(m, here + 4) == 1
  {
    hide Entries, Bytes32, Word32;
    EntryAt(n, k);
    var here, e := at + ENTRY_LEN * k, ApicEntry(k);
    SliceOfSlice(m, at, ENTRY_LEN * n, ENTRY_LEN * k, ENTRY_LEN * (k + 1));
    assert m[here..here + ENTRY_LEN] == e;
    assert m[here] == e[0] && m[here + 1] == e[1] && m[here + 2] == e[2] && m[here + 3] == e[3];
    SliceOfSlice(m, here, ENTRY_LEN, 4, 8);
    Word32Of(m, here + 4, 1);
  }

  /** For every number of vCPUs, the reader gets from the installed tables exactly the processors 0
      to vcpus-1, in order, and where their Local APICs are; on the way it has checked every
      signature, length and checksum. */
  lemma ReaderFindsProcessors(m: seq<byte>, vcpus: byte)
    requires Installed(m, vcpus)
    ensures ReadPlatform(m) == Some(Expected(vcpus))
  {
    hide Checksum, Sum, Ascii, Word32, Bytes32, Header, ReadRsdp, ReadTable, ReadApics, Upwards, Rsdp;
    RsdpRead(m, vcpus);
    TableRead(m, RSDT_ADDR, RsdtBlank(), Ascii("RSDT"), Ascii("AXVMRSDT"), Bytes32(MADT_ADDR));
    MadtRead(m, vcpus);
    RsdtPoints(m, vcpus);
    MadtEntries(m, vcpus);
    MadtFields(m, vcpus);
    ApicsRead(m, MADT_ADDR + MADT_FIXED, vcpus, 0);
  }

  lemma MadtRead(m: seq<byte>, vcpus: byte)
    requires Installed(m, vcpus)
    ensures ReadTable(m, MADT_ADDR, Ascii("APIC")) == Some(MadtLen(vcpus))
  {
    hide Checksum, Sum, Ascii, Word32, Bytes32, Header, Rsdp, Rsdt, ReadTable, Entries;
    var body := Bytes32(0xFEE0_0000) + Bytes32(1) + Entries(vcpus);
    var h := Header(Ascii("APIC"), MadtLen(vcpus), Ascii("AXVMCPU "));
    assert h + Bytes32(0xFEE0_0000) + Bytes32(1) + Entries(vcpus) == h + body;
    TableRead(m, MADT_ADDR, MadtBlank(vcpus), Ascii("APIC"), Ascii("AXVMCPU "), body);
  }

  lemma RsdtPoints(m: seq<byte>, vcpus: byte)
    requires Installed(m, vcpus)
    ensures Word32(m, RSDT_ADDR + HEADER_LEN) == MADT_ADDR
  {
    hide Checksum, Sum, Ascii, Word32, Bytes32, Header, Rsdp, Madt;
    assert Rsdt()[36..40] == Bytes32(MADT_ADDR);
    Word32Of(Rsdt(), 36, MADT_ADDR);
    SliceWord32(m, RSDT_ADDR, RSDT_LEN, 36);
  }

  lemma MadtFields(m: seq<byte>, vcpus: byte)
    requires Installed(m, vcpus)
    ensures Word32(m, MADT_ADDR + 36) == 0xFEE0_0000 && Word32(m, MADT_ADDR + 40) == 1
  {
    hide Checksum, Sum, Ascii, Word32, Bytes32, Header, Rsdp, Rsdt, Entries;
    var t, b := Madt(vcpus), MadtBlank(vcpus);
    assert t[36..40] == b[36..40] == Bytes32(0xFEE0_0000);
    assert t[40..44] == b[40..44] == Bytes32(1);
    Word32Of(t, 36, 0xFEE0_0000);
    Word32Of(t, 40, 1);
    SliceWord32(m, MADT_ADDR, MadtLen(vcpus), 36);
    SliceWord32(m, MADT_ADDR, MadtLen(vcpus), 40);
  }

  lemma MadtEntries(m: seq<byte>, vcpus: byte)
    requires Installed(m, vcpus)
    ensures m[MADT_ADDR + MADT_FIXED..MADT_ADDR + MadtLen(vcpus)] == Entries(vcpus)
  {
    hide Checksum, Sum, Ascii, Bytes32, Header, Rsdp, Rsdt, Entries;
    var t := Madt(vcpus);
    assert t[MADT_FIXED..] == MadtBlank(vcpus)[MADT_FIXED..] == Entries(vcpus);
    assert m[MADT_ADDR + MADT_FIXED..MADT_ADDR + MadtLen(vcpus)] == t[MADT_FIXED..];
  }
}
