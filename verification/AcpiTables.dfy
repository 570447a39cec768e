/** The bytes of the ACPI tables, and the sums that make them valid. */
module AcpiTables {
  import opened Wrappers
  import opened Layout
  import opened Bytes
  import opened Collections

  const RSDP_LEN := 36
  const RSDP_V1_LEN := 20
  const RSDP_CHECKSUM := 8
  const RSDP_EXT_CHECKSUM := 32
  const TABLE_HEADER_LEN := 36
  const TABLE_CHECKSUM := 9
  const XSDT_LEN := 52
  const FADT_LEN := 276
  const DSDT_LEN := 36

  const ACPI_XSDT := 0x100
  const ACPI_FADT := 0x200
  const ACPI_DSDT := 0x400

  const RSD_PTR: Bytes := [0x52, 0x53, 0x44, 0x20, 0x50, 0x54, 0x52, 0x20]
  const OEM_ID: Bytes := [0x54, 0x49, 0x4e, 0x46, 0x4f, 0x49]
  const OEM_TABLE_ID: Bytes := [0x54, 0x44, 0x58, 0x53, 0x48, 0x49, 0x4d, 0x20]
  const CREATOR_ID: Bytes := [0x54, 0x46, 0x4e, 0x4c]
  const XSDT: Bytes := [0x58, 0x53, 0x44, 0x54]
  const FACP: Bytes := [0x46, 0x41, 0x43, 0x50]
  const DSDT: Bytes := [0x44, 0x53, 0x44, 0x54]
  const APIC: Bytes := [0x41, 0x50, 0x49, 0x43]

  const MADT_LOCAL_APIC: Byte := 0
  const MADT_WAKEUP: Byte := 16
  const LAPIC_ENABLED := 1
  const MADT_PCAT_COMPAT := 1
  const LOCAL_APIC_ADDR := 0xfee0_0000
  const FADT_REDUCED_WBINVD := 0x10_0001

  // ---------- checksums ----------

  function Sum(s: Bytes): nat {
    if s == [] then 0 else Sum(s[..|s| - 1]) + s[|s| - 1]
  }

  /** `fold` with `wrapping_add`, from the left. */
  function WrapSum(s: Bytes): Byte {
    if s == [] then 0 else (WrapSum(s[..|s| - 1]) + s[|s| - 1]) % 256
  }

  function Checksum(s: Bytes): Byte { (256 - WrapSum(s)) % 256 }

  lemma {:induction false} WrapAdd(n: nat, b: Byte)
    ensures (n % 256 + b) % 256 == (n + b) % 256
  {
  }

  lemma {:induction false} WrapSumIsSum(s: Bytes)
    ensures WrapSum(s) == Sum(s) % 256
  {
    if s != [] {
      WrapSumIsSum(s[..|s| - 1]);
      WrapAdd(Sum(s[..|s| - 1]), s[|s| - 1]);
    }
  }

  lemma {:induction false} SumUpdate(s: Bytes, k: nat, c: Byte)
    requires k < |s|
    ensures Sum(s[k := c]) == Sum(s) - s[k] + c
  {
    var n := |s| - 1;
    if k < n {
      SumUpdate(s[..n], k, c);
      assert s[k := c][..n] == s[..n][k := c];
    } else {
      assert s[k := c][..n] == s[..n];
    }
  }

  predicate SumsToZero(s: Bytes) { Sum(s) % 256 == 0 }

  lemma {:induction false} SealArithmetic(n: nat)
    ensures (n + (256 - n % 256) % 256) % 256 == 0
  {
    var q, r := n / 256, n % 256;
    assert n == 256 * q + r;
    if r != 0 {
      assert n + (256 - r) % 256 == 256 * (q + 1);
    }
  }

  /** A checksum stored in a zero byte makes the whole sum to zero. */
  lemma {:induction false} SealSums(s: Bytes, k: nat)
    requires k < |s| && s[k] == 0
    ensures SumsToZero(s[k := Checksum(s)])
  {
    SumUpdate(s, k, Checksum(s));
    WrapSumIsSum(s);
    SealArithmetic(Sum(s));
  }

  // ---------- tables ----------

  function Header(signature: Bytes, len: nat, revision: Byte): (r: Bytes)
    requires |signature| == 4
    ensures |r| == TABLE_HEADER_LEN
  {
    HeaderStart(signature, len, revision) + OEM_TABLE_ID + Le(1, 4) + CREATOR_ID + Le(1, 4)
  }

  function HeaderStart(signature: Bytes, len: nat, revision: Byte): (r: Bytes)
    requires |signature| == 4
    ensures |r| == 16 && r[TABLE_CHECKSUM] == 0
  {
    signature + Le(len, 4) + [revision] + [0] + OEM_ID
  }

  /** A table: its header, with the byte that makes it sum to zero, and its body. */
  function Table(signature: Bytes, revision: Byte, body: Bytes): (r: Bytes)
    requires |signature| == 4
    ensures |r| == TABLE_HEADER_LEN + |body|
  {
    var raw := Header(signature, TABLE_HEADER_LEN + |body|, revision) + body;
    raw[TABLE_CHECKSUM := Checksum(raw)]
  }

  lemma {:induction false} TableSums(signature: Bytes, revision: Byte, body: Bytes)
    requires |signature| == 4
    ensures SumsToZero(Table(signature, revision, body))
  {
    SealSums(Header(signature, TABLE_HEADER_LEN + |body|, revision) + body, TABLE_CHECKSUM);
  }

  lemma {:induction false} TableBody(signature: Bytes, revision: Byte, body: Bytes)
    requires |signature| == 4
    ensures var t := Table(signature, revision, body);
            t[TABLE_HEADER_LEN..] == body && t == t[..TABLE_HEADER_LEN] + body
  {
  }

  /** A description header as section 5.2.6 of ACPI 6.5 lays it out, over a table that sums to zero. */
  ghost predicate HasHeader(t: Bytes, signature: string, revision: Byte) {
    && |t| >= 36 && |signature| == 4
    && t[0..4] == Ascii(signature) && FromLe(t[4..8]) == |t| && t[8] == revision
    && t[10..16] == Ascii("TINFOI") && t[16..24] == Ascii("TDXSHIM ") && FromLe(t[24..28]) == 1
    && t[28..32] == Ascii("TFNL") && FromLe(t[32..36]) == 1
    && SumsToZero(t)
  }

  lemma {:induction false} NamesSpelled()
    ensures RSD_PTR == Ascii("RSD PTR ") && OEM_ID == Ascii("TINFOI") && OEM_TABLE_ID == Ascii("TDXSHIM ")
    ensures CREATOR_ID == Ascii("TFNL")
    ensures XSDT == Ascii("XSDT") && FACP == Ascii("FACP") && DSDT == Ascii("DSDT") && APIC == Ascii("APIC")
  {
  }

  lemma {:induction false} HeaderStartParts(signature: Bytes, len: nat, revision: Byte)
    requires |signature| == 4
    ensures var h := HeaderStart(signature, len, revision);
            h[0..4] == signature && h[4..8] == Le(len, 4) && h[8] == revision && h[10..16] == OEM_ID
  {
  }

  lemma {:induction false} HeaderParts(signature: Bytes, len: nat, revision: Byte)
    requires |signature| == 4
    ensures var h := Header(signature, len, revision);
            && h[..16] == HeaderStart(signature, len, revision)
            && h[16..24] == OEM_TABLE_ID && h[24..28] == Le(1, 4) && h[28..32] == CREATOR_ID && h[32..36] == Le(1, 4)
  {
  }

  /** Every byte of a table but the sealed one is as it was written. */
  lemma {:induction false} TableKeeps(signature: Bytes, revision: Byte, body: Bytes, lo: nat, hi: nat)
    requires |signature| == 4 && lo <= hi <= TABLE_HEADER_LEN && !(lo <= TABLE_CHECKSUM < hi)
    ensures Table(signature, revision, body)[lo..hi] ==
            Header(signature, TABLE_HEADER_LEN + |body|, revision)[lo..hi]
  {
  }

  /** The part of a header before its checksum... */
  lemma {:induction false} LowerReads(signature: Bytes, revision: Byte, body: Bytes)
    requires |signature| == 4 && |body| < PAGE
    ensures var t := Table(signature, revision, body);
            t[0..4] == signature && FromLe(t[4..8]) == |t| && t[8] == revision
  {
    var t, len := Table(signature, revision, body), TABLE_HEADER_LEN + |body|;
    var h := HeaderStart(signature, len, revision);
    HeaderParts(signature, len, revision);
    HeaderStartParts(signature, len, revision);
    TableKeeps(signature, revision, body, 0, 9);
    assert t[..9] == h[..9];
    SliceOfSlice(t, 0, 9, 0, 4);
    SliceOfSlice(h, 0, 9, 0, 4);
    SliceOfSlice(t, 0, 9, 4, 8);
    SliceOfSlice(h, 0, 9, 4, 8);
    assert t[8] == t[..9][8];
    LeRoundTrip32(len);
  }

  /** ...and the part after it. */
  lemma {:induction false} UpperReads(signature: Bytes, revision: Byte, body: Bytes)
    requires |signature| == 4
    ensures var t := Table(signature, revision, body);
            && t[10..16] == OEM_ID && t[16..24] == OEM_TABLE_ID && t[24..28] == Le(1, 4)
            && t[28..32] == CREATOR_ID && t[32..36] == Le(1, 4)
  {
    var len := TABLE_HEADER_LEN + |body|;
    var h := Header(signature, len, revision);
    HeaderParts(signature, len, revision);
    HeaderStartParts(signature, len, revision);
    SliceOfSlice(h, 0, 16, 10, 16);
    TableKeeps(signature, revision, body, 10, 16);
    TableKeeps(signature, revision, body, 16, 24);
    TableKeeps(signature, revision, body, 24, 28);
    TableKeeps(signature, revision, body, 28, 32);
    TableKeeps(signature, revision, body, 32, 36);
  }

  lemma {:induction false} TableReads(signature: Bytes, name: string, revision: Byte, body: Bytes)
    requires |name| == 4 && signature == Ascii(name) && |body| < PAGE
    ensures HasHeader(Table(signature, revision, body), name, revision)
    ensures Table(signature, revision, body)[TABLE_HEADER_LEN..] == body
  {
    NamesSpelled();
    LowerReads(signature, revision, body);
    UpperReads(signature, revision, body);
    LeRoundTrip32(1);
    TableSums(signature, revision, body);
    TableBody(signature, revision, body);
  }

  /** The RSDP before its two checksums. */
  function RsdpRaw(xsdt: U64): (r: Bytes)
    ensures |r| == RSDP_LEN && r[RSDP_CHECKSUM] == 0 && r[RSDP_EXT_CHECKSUM] == 0
  {
    RSD_PTR + [0] + OEM_ID + [2] + Zeros(4) + Le(RSDP_LEN, 4) + Le(xsdt, 8) + Zeros(4)
  }

  function Rsdp(xsdt: U64): (r: Bytes)
    ensures |r| == RSDP_LEN
  {
    var raw := RsdpRaw(xsdt);
    var one := raw[RSDP_CHECKSUM := Checksum(raw[..RSDP_V1_LEN])];
    one[RSDP_EXT_CHECKSUM := Checksum(one)]
  }

  /** Both sums hold: the second checksum lies outside what the first covers. */
  lemma {:induction false} RsdpSums(xsdt: U64)
    ensures SumsToZero(Rsdp(xsdt)[..RSDP_V1_LEN]) && SumsToZero(Rsdp(xsdt))
  {
    var raw := RsdpRaw(xsdt);
    var one := raw[RSDP_CHECKSUM := Checksum(raw[..RSDP_V1_LEN])];
    SealSums(raw[..RSDP_V1_LEN], RSDP_CHECKSUM);
    SealSums(one, RSDP_EXT_CHECKSUM);
    assert Rsdp(xsdt)[..RSDP_V1_LEN] == raw[..RSDP_V1_LEN][RSDP_CHECKSUM := Checksum(raw[..RSDP_V1_LEN])];
  }

  /** A root pointer as section 5.2.5.3 lays it out, both its sums zero. */
  ghost predicate IsRsdp(r: Bytes, xsdt: nat) {
    && |r| == 36 && r[0..8] == Ascii("RSD PTR ") && r[9..15] == Ascii("TINFOI") && r[15] == 2
    && r[16..20] == Zeros(4) && FromLe(r[20..24]) == 36 && FromLe(r[24..32]) == xsdt && r[33..36] == Zeros(3)
    && SumsToZero(r[..20]) && SumsToZero(r)
  }

  lemma {:induction false} RsdpRawParts(xsdt: U64)
    ensures var r := RsdpRaw(xsdt);
            && r[0..8] == RSD_PTR && r[9..15] == OEM_ID && r[15] == 2 && r[16..20] == Zeros(4)
            && r[20..24] == Le(36, 4) && r[24..32] == Le(xsdt, 8) && r[33..36] == Zeros(3)
  {
  }

  lemma {:induction false} RsdpKeeps(xsdt: U64, lo: nat, hi: nat)
    requires lo <= hi <= RSDP_LEN && !(lo <= RSDP_CHECKSUM < hi) && !(lo <= RSDP_EXT_CHECKSUM < hi)
    ensures Rsdp(xsdt)[lo..hi] == RsdpRaw(xsdt)[lo..hi]
  {
  }

  lemma {:induction false} RsdpReads(xsdt: U64)
    ensures IsRsdp(Rsdp(xsdt), xsdt)
  {
    var r := Rsdp(xsdt);
    NamesSpelled();
    RsdpRawParts(xsdt);
    RsdpKeeps(xsdt, 0, 8);
    RsdpKeeps(xsdt, 9, 15);
    RsdpKeeps(xsdt, 15, 16);
    RsdpKeeps(xsdt, 16, 20);
    RsdpKeeps(xsdt, 20, 24);
    RsdpKeeps(xsdt, 24, 32);
    RsdpKeeps(xsdt, 33, 36);
    assert r[15] == r[15..16][0] && RsdpRaw(xsdt)[15] == RsdpRaw(xsdt)[15..16][0];
    LeRoundTrip32(36);
    LeRoundTrip64(xsdt);
    RsdpSums(xsdt);
  }

  function XsdtBody(): Bytes {
    Le(ACPI_BASE + ACPI_FADT, 8) + Le(ACPI_BASE + ACPI_MADT, 8)
  }

  /** The FADT up to its minor version... */
  function FadtLow(): (r: Bytes)
    ensures |r| == 96
  {
    Zeros(4) + Le(ACPI_BASE + ACPI_DSDT, 4) + Zeros(68) + Le(FADT_REDUCED_WBINVD, 4) + Zeros(15) + [5]
  }

  /** ...and the rest, where the 64-bit DSDT address is. */
  function FadtHigh(): (r: Bytes)
    ensures |r| == 144
  {
    Zeros(8) + Le(ACPI_BASE + ACPI_DSDT, 8) + Zeros(128)
  }

  function FadtBody(): Bytes { FadtLow() + FadtHigh() }

  // ---------- the MADT ----------

  function Lapic(id: nat): (r: Bytes)
    ensures |r| == MADT_LAPIC_LEN
  {
    [MADT_LOCAL_APIC, MADT_LAPIC_LEN, id % 256, id % 256] + Le(LAPIC_ENABLED, 4)
  }

  function Lapics(cpus: nat): (r: Bytes)
    ensures |r| == cpus * MADT_LAPIC_LEN
  {
    if cpus == 0 then [] else Lapics(cpus - 1) + Lapic(cpus - 1)
  }

  function WakeupBytes(): (r: Bytes)
    ensures |r| == MADT_WAKEUP_LEN
  {
    [MADT_WAKEUP, MADT_WAKEUP_LEN] + Zeros(6) + Le(MAILBOX, 8)
  }

  function MadtHead(): (r: Bytes)
    ensures |r| == 8
  {
    Le(LOCAL_APIC_ADDR, 4) + Le(MADT_PCAT_COMPAT, 4)
  }

  function MadtBody(cpus: nat, wakeup: bool): (r: Bytes)
    ensures |r| == MadtLen(cpus, wakeup) - TABLE_HEADER_LEN
  {
    MadtHead() + Lapics(cpus) + (if wakeup then WakeupBytes() else [])
  }

  function MadtLen(cpus: nat, wakeup: bool): nat {
    MADT_HEADER_LEN + cpus * MADT_LAPIC_LEN + (if wakeup then MADT_WAKEUP_LEN else 0)
  }

  /** What a reader finds in a MADT. */
  datatype Structure = LocalApic(uid: Byte, id: Byte, flags: nat) | Wakeup(mailbox: nat) | Unknown(kind: Byte)

  function ReadStructure(t: Bytes, at: nat): Structure
    requires at + 2 <= |t| && at + t[at + 1] <= |t|
  {
    if t[at] == 0 && t[at + 1] == 8 then LocalApic(t[at + 2], t[at + 3], Get32(t, at + 4))
    else if t[at] == 16 && t[at + 1] == 16 then Wakeup(Get64(t, at + 8))
    else Unknown(t[at])
  }

  /** The structures from `at` on, each its own length; nothing if one is cut short. */
  function Structures(t: Bytes, at: nat): Option<seq<Structure>>
    decreases |t| - at
  {
    if at == |t| then Some([])
    else if at + 2 > |t| || t[at + 1] < 2 || at + t[at + 1] > |t| then None
    else
      match Structures(t, at + t[at + 1])
      case None => None
      case Some(rest) => Some([ReadStructure(t, at)] + rest)
  }

  /** One processor after another, then the wakeup structure where there is one. */
  function Expected(from: nat, cpus: nat, wakeup: bool): seq<Structure>
    requires from <= cpus
    decreases cpus - from
  {
    if from == cpus then (if wakeup then [Wakeup(0xf_0000)] else [])
    else [LocalApic(from % 256, from % 256, 1)] + Expected(from + 1, cpus, wakeup)
  }

  lemma {:induction false} LapicAt(cpus: nat, k: nat)
    requires k < cpus
    ensures Lapics(cpus)[k * MADT_LAPIC_LEN..(k + 1) * MADT_LAPIC_LEN] == Lapic(k)
  {
    var n := cpus - 1;
    if k < n {
      LapicAt(n, k);
      SliceOfConcat(Lapics(n), Lapic(n), k * MADT_LAPIC_LEN, (k + 1) * MADT_LAPIC_LEN);
    } else {
      SliceOfConcat(Lapics(n), Lapic(n), 0, 0);
    }
  }

  /** A MADT, as far as its structures go. */
  ghost predicate Carries(t: Bytes, cpus: nat, wakeup: bool) {
    && |t| == MadtLen(cpus, wakeup)
    && t[MADT_HEADER_LEN..MADT_HEADER_LEN + cpus * MADT_LAPIC_LEN] == Lapics(cpus)
    && (wakeup ==> t[MADT_HEADER_LEN + cpus * MADT_LAPIC_LEN..] == WakeupBytes())
  }

  lemma {:induction false} LapicReads(t: Bytes, at: nat, id: nat)
    requires at + MADT_LAPIC_LEN <= |t| && t[at..at + MADT_LAPIC_LEN] == Lapic(id)
    ensures t[at + 1] == MADT_LAPIC_LEN
    ensures ReadStructure(t, at) == LocalApic(id % 256, id % 256, LAPIC_ENABLED)
  {
    var s := t[at..at + MADT_LAPIC_LEN];
    assert t[at] == s[0] && t[at + 1] == s[1] && t[at + 2] == s[2] && t[at + 3] == s[3];
    assert t[at + 4..at + 8] == s[4..8] == Le(LAPIC_ENABLED, 4);
    LeRoundTrip32(LAPIC_ENABLED);
  }

  lemma {:induction false} StepReads(t: Bytes, at: nat, next: nat, found: Structure, rest: seq<Structure>)
    requires at + 2 <= |t| && t[at + 1] >= 2 && next == at + t[at + 1] <= |t|
    requires ReadStructure(t, at) == found && Structures(t, next) == Some(rest)
    ensures Structures(t, at) == Some([found] + rest)
  {
  }

  lemma {:induction false} WakeupRead(t: Bytes, at: nat)
    requires at + MADT_WAKEUP_LEN == |t| && t[at..] == WakeupBytes()
    ensures t[at + 1] == MADT_WAKEUP_LEN && ReadStructure(t, at) == Wakeup(MAILBOX)
  {
    var s := t[at..];
    assert t[at] == s[0] && t[at + 1] == s[1];
    assert t[at + 8..at + 16] == s[8..16] == Le(MAILBOX, 8);
    LeRoundTrip64(MAILBOX);
  }

  lemma {:induction false} WakeupReads(t: Bytes, at: nat)
    requires at + MADT_WAKEUP_LEN == |t| && t[at..] == WakeupBytes()
    ensures Structures(t, at) == Some([Wakeup(MAILBOX)])
  {
    WakeupRead(t, at);
    StepReads(t, at, |t|, Wakeup(MAILBOX), []);
    assert [Wakeup(MAILBOX)] + [] == [Wakeup(MAILBOX)];
  }

  lemma {:induction false} LapicIn(t: Bytes, cpus: nat, wakeup: bool, k: nat)
    requires Carries(t, cpus, wakeup) && k < cpus
    ensures var at := MADT_HEADER_LEN + k * MADT_LAPIC_LEN;
            at + MADT_LAPIC_LEN <= |t| && t[at..at + MADT_LAPIC_LEN] == Lapic(k)
  {
    LapicAt(cpus, k);
    SliceOfSlice(t, MADT_HEADER_LEN, MADT_HEADER_LEN + cpus * MADT_LAPIC_LEN,
                 k * MADT_LAPIC_LEN, (k + 1) * MADT_LAPIC_LEN);
  }

  lemma {:induction false} TurnReads(t: Bytes, cpus: nat, wakeup: bool, k: nat, at: nat, rest: seq<Structure>)
    requires Carries(t, cpus, wakeup) && k < cpus && at == 44 + 8 * k
    requires at + 8 <= |t| && Structures(t, at + 8) == Some(rest)
    ensures Structures(t, at) == Some([LocalApic(k % 256, k % 256, LAPIC_ENABLED)] + rest)
  {
    LapicIn(t, cpus, wakeup, k);
    LapicReads(t, at, k);
    StepReads(t, at, at + MADT_LAPIC_LEN, LocalApic(k % 256, k % 256, LAPIC_ENABLED), rest);
  }

  lemma {:induction false} EndReads(t: Bytes, cpus: nat, wakeup: bool, at: nat)
    requires Carries(t, cpus, wakeup) && at == 44 + 8 * cpus
    ensures Structures(t, at) == Some(Expected(cpus, cpus, wakeup))
  {
    if wakeup {
      WakeupReads(t, at);
    }
  }

  lemma {:induction false} WalkFrom(t: Bytes, cpus: nat, wakeup: bool, k: nat, at: nat)
    requires Carries(t, cpus, wakeup) && k <= cpus && at == 44 + 8 * k
    ensures Structures(t, at) == Some(Expected(k, cpus, wakeup))
    decreases cpus - k
  {
    if k == cpus {
      EndReads(t, cpus, wakeup, at);
    } else {
      WalkFrom(t, cpus, wakeup, k + 1, at + 8);
      TurnReads(t, cpus, wakeup, k, at, Expected(k + 1, cpus, wakeup));
    }
  }

  lemma {:induction false} BodySplits(head: Bytes, cpus: nat, wakeup: bool)
    ensures head + MadtBody(cpus, wakeup) ==
            (head + MadtHead()) + Lapics(cpus) + (if wakeup then WakeupBytes() else [])
  {
    var tail: Bytes := if wakeup then WakeupBytes() else [];
    ConcatAssoc(head, MadtHead() + Lapics(cpus), tail);
    ConcatAssoc(head, MadtHead(), Lapics(cpus));
  }

  lemma {:induction false} PiecesCarry(head: Bytes, cpus: nat, wakeup: bool)
    requires |head| == MADT_HEADER_LEN
    ensures Carries(head + Lapics(cpus) + (if wakeup then WakeupBytes() else []), cpus, wakeup)
  {
    MiddleOfThree(head, Lapics(cpus), if wakeup then WakeupBytes() else []);
  }

  lemma {:induction false} MadtCarries(cpus: nat, wakeup: bool)
    ensures Carries(Table(APIC, 6, MadtBody(cpus, wakeup)), cpus, wakeup)
  {
    var head := Table(APIC, 6, MadtBody(cpus, wakeup))[..TABLE_HEADER_LEN];
    TableBody(APIC, 6, MadtBody(cpus, wakeup));
    BodySplits(head, cpus, wakeup);
    PiecesCarry(head + MadtHead(), cpus, wakeup);
  }

  /** Walking the MADT finds one entry per processor in order, then the wakeup structure if asked for. */
  lemma {:induction false} MadtRoundTrip(cpus: nat, wakeup: bool)
    ensures Structures(Table(APIC, 6, MadtBody(cpus, wakeup)), MADT_HEADER_LEN) == Some(Expected(0, cpus, wakeup))
  {
    MadtCarries(cpus, wakeup);
    WalkFrom(Table(APIC, 6, MadtBody(cpus, wakeup)), cpus, wakeup, 0, MADT_HEADER_LEN);
  }

  lemma {:induction false} FadtLowParts()
    ensures var b := FadtLow();
            && b[0..4] == Zeros(4) && b[4..8] == Le(0xe_0400, 4) && b[8..76] == Zeros(68)
            && b[76..80] == Le(0x10_0001, 4) && b[80..95] == Zeros(15) && b[95] == 5
  {
    var x, y := Le(0xe_0400, 4), Le(0x10_0001, 4);
    var low := Zeros(4) + x + Zeros(68);
    var most := low + y + Zeros(15);
    assert FadtLow() == most + [5];
    MiddleOfThree(Zeros(4), x, Zeros(68));
    MiddleOfThree(low, y, Zeros(15));
    SliceOfConcat(low + y, Zeros(15), 0, 80);
    assert most[..76] == low && FadtLow()[..95] == most;
    assert low[0..4] == Zeros(4) && low[8..76] == Zeros(68);
    SliceOfSlice(most, 0, 76, 0, 4);
    SliceOfSlice(most, 0, 76, 4, 8);
    SliceOfSlice(most, 0, 76, 8, 76);
    SliceOfSlice(FadtLow(), 0, 95, 0, 4);
    SliceOfSlice(FadtLow(), 0, 95, 4, 8);
    SliceOfSlice(FadtLow(), 0, 95, 8, 76);
    SliceOfSlice(FadtLow(), 0, 95, 76, 80);
    SliceOfSlice(FadtLow(), 0, 95, 80, 95);
  }

  lemma {:induction false} FadtHighParts()
    ensures var b := FadtHigh(); b[0..8] == Zeros(8) && b[8..16] == Le(0xe_0400, 8) && b[16..144] == Zeros(128)
  {
    MiddleOfThree(Zeros(8), Le(ACPI_BASE + ACPI_DSDT, 8), Zeros(128));
  }

  /** A FADT of a machine without legacy hardware: the DSDT twice, two flags, a minor version, and zeroes. */
  ghost predicate IsFadt(t: Bytes) {
    && HasHeader(t, "FACP", 6) && |t| == 276
    && FromLe(t[40..44]) == 0xe_0400 && FromLe(t[112..116]) == 0x10_0001 && t[131] == 5
    && FromLe(t[140..148]) == 0xe_0400
    && t[36..40] == Zeros(4) && t[44..112] == Zeros(68) && t[116..131] == Zeros(15) && t[132..140] == Zeros(8)
    && t[148..276] == Zeros(128)
  }

  /** Pieces of a table's body are pieces of the table, 36 bytes on. */
  lemma {:induction false} InBody(t: Bytes, body: Bytes, lo: nat, hi: nat)
    requires |t| == 36 + |body| && t[36..] == body && lo <= hi <= |body|
    ensures t[36 + lo..36 + hi] == body[lo..hi]
  {
    SliceShift(t, 36, 36 + lo, 36 + hi);
  }

  lemma {:induction false} LowInBody(lo: nat, hi: nat)
    requires lo <= hi <= 96
    ensures FadtBody()[lo..hi] == FadtLow()[lo..hi]
  {
    SliceOfConcat(FadtLow(), FadtHigh(), lo, hi);
  }

  lemma {:induction false} HighInBody(lo: nat, hi: nat)
    requires lo <= hi <= 144
    ensures FadtBody()[96 + lo..96 + hi] == FadtHigh()[lo..hi]
  {
    SliceOfTail(FadtLow(), FadtHigh(), lo, hi);
  }

  lemma {:induction false} FadtLowReads(t: Bytes)
    requires |t| == 276 && t[36..] == FadtBody()
    ensures FromLe(t[40..44]) == 0xe_0400 && FromLe(t[112..116]) == 0x10_0001 && t[131] == 5
    ensures t[36..40] == Zeros(4) && t[44..112] == Zeros(68) && t[116..131] == Zeros(15)
  {
    FadtLowParts();
    LowInBody(0, 4);
    LowInBody(4, 8);
    LowInBody(8, 76);
    LowInBody(76, 80);
    LowInBody(80, 95);
    LowInBody(95, 96);
    InBody(t, FadtBody(), 0, 4);
    InBody(t, FadtBody(), 4, 8);
    InBody(t, FadtBody(), 8, 76);
    InBody(t, FadtBody(), 76, 80);
    InBody(t, FadtBody(), 80, 95);
    InBody(t, FadtBody(), 95, 96);
    assert t[131] == t[131..132][0] && FadtLow()[95] == FadtLow()[95..96][0];
    LeRoundTrip32(0xe_0400);
    LeRoundTrip32(0x10_0001);
  }

  lemma {:induction false} FadtHighReads(t: Bytes)
    requires |t| == 276 && t[36..] == FadtBody()
    ensures t[132..140] == Zeros(8) && FromLe(t[140..148]) == 0xe_0400 && t[148..276] == Zeros(128)
  {
    FadtHighParts();
    HighInBody(0, 8);
    HighInBody(8, 16);
    HighInBody(16, 144);
    InBody(t, FadtBody(), 96, 104);
    InBody(t, FadtBody(), 104, 112);
    InBody(t, FadtBody(), 112, 240);
    LeRoundTrip64(0xe_0400);
  }

  lemma {:induction false} FadtReads()
    ensures IsFadt(Table(FACP, 6, FadtBody()))
  {
    NamesSpelled();
    TableReads(FACP, "FACP", 6, FadtBody());
    FadtLowReads(Table(FACP, 6, FadtBody()));
    FadtHighReads(Table(FACP, 6, FadtBody()));
  }

  lemma {:induction false} TwoWordsRead(t: Bytes, body: Bytes)
    requires |body| >= 8 && |t| == 36 + |body| && t[36..] == body
    requires body[0..4] == Le(0xfee0_0000, 4) && body[4..8] == Le(1, 4)
    ensures FromLe(t[36..40]) == 0xfee0_0000 && FromLe(t[40..44]) == 1
  {
    InBody(t, body, 0, 4);
    InBody(t, body, 4, 8);
    LeRoundTrip32(0xfee0_0000);
    LeRoundTrip32(1);
  }

  /** A MADT's two fields before its structures: where the local APICs are, and that there are also two old 8259s. */
  lemma {:induction false} MadtHeadReads(cpus: nat, wakeup: bool)
    requires MadtLen(cpus, wakeup) <= PAGE
    ensures var t := Table(APIC, 6, MadtBody(cpus, wakeup));
            && HasHeader(t, "APIC", 6) && |t| == MadtLen(cpus, wakeup)
            && FromLe(t[36..40]) == 0xfee0_0000 && FromLe(t[40..44]) == 1
  {
    var t, body := Table(APIC, 6, MadtBody(cpus, wakeup)), MadtBody(cpus, wakeup);
    MadtHeadParts(cpus, wakeup);
    NamesSpelled();
    TableReads(APIC, "APIC", 6, body);
    TwoWordsRead(t, body);
  }

  lemma {:induction false} MadtHeadParts(cpus: nat, wakeup: bool)
    ensures MadtBody(cpus, wakeup)[0..4] == Le(0xfee0_0000, 4) && MadtBody(cpus, wakeup)[4..8] == Le(1, 4)
  {
    var head := MadtHead();
    assert head[0..4] == Le(LOCAL_APIC_ADDR, 4) && head[4..8] == Le(MADT_PCAT_COMPAT, 4);
    SliceOfConcat(head + Lapics(cpus), if wakeup then WakeupBytes() else [], 0, 4);
    SliceOfConcat(head + Lapics(cpus), if wakeup then WakeupBytes() else [], 4, 8);
    SliceOfConcat(head, Lapics(cpus), 0, 4);
    SliceOfConcat(head, Lapics(cpus), 4, 8);
  }

  lemma {:induction false} ExpectedAt(from: nat, cpus: nat, wakeup: bool, k: nat)
    requires from <= k < cpus
    ensures k - from < |Expected(from, cpus, wakeup)|
    ensures Expected(from, cpus, wakeup)[k - from] == LocalApic(k % 256, k % 256, LAPIC_ENABLED)
    decreases k - from
  {
    if from < k {
      ExpectedAt(from + 1, cpus, wakeup, k);
    }
  }

  /** The processor ids a reader finds are distinct exactly when there are at most 256 processors. */
  lemma {:induction false} IdsDistinctIffFew(cpus: nat, wakeup: bool)
    ensures (forall i, j :: 0 <= i < j < cpus ==> IdAt(cpus, wakeup, i) != IdAt(cpus, wakeup, j)) <==> cpus <= 256
  {
    forall k | 0 <= k < cpus
      ensures IdAt(cpus, wakeup, k) == LocalApic(k % 256, k % 256, LAPIC_ENABLED)
    {
      ExpectedAt(0, cpus, wakeup, k);
    }
    if cpus > 256 {
      assert IdAt(cpus, wakeup, 0) == IdAt(cpus, wakeup, 256);
    } else {
      assert forall k :: 0 <= k < cpus ==> k % 256 == k;
    }
  }

  /** The `k`-th structure found, which for a processor is its ids and flags. */
  function IdAt(cpus: nat, wakeup: bool, k: nat): Structure
    requires k < cpus
  {
    ExpectedAt(0, cpus, wakeup, k);
    Expected(0, cpus, wakeup)[k]
  }
}
