/** The ACPI page: the tables laid out in it, written in place, and what a reader makes of it. */
module Acpi {
  import opened Wrappers
  import opened Layout
  import opened Bytes
  import opened Collections
  import opened AcpiTables

  // ---------- the page ----------

  function Madt(cpus: nat, wakeup: bool): Bytes { Table(APIC, 6, MadtBody(cpus, wakeup)) }

  /** The page as its tables: each written over the last page, none over another table. */
  function AcpiPage(cpus: nat, wakeup: bool): (r: Bytes)
    requires cpus <= MAX_VCPUS
    ensures |r| == PAGE
  {
    var withRsdp := Splice(Zeros(PAGE), 0, Rsdp(ACPI_BASE + ACPI_XSDT));
    var withXsdt := Splice(withRsdp, ACPI_XSDT, Table(XSDT, 1, XsdtBody()));
    var withFadt := Splice(withXsdt, ACPI_FADT, Table(FACP, 6, FadtBody()));
    var withDsdt := Splice(withFadt, ACPI_DSDT, Table(DSDT, 2, []));
    Splice(withDsdt, ACPI_MADT, Madt(cpus, wakeup))
  }

  ghost predicate HoldsTables(page: Bytes, cpus: nat, wakeup: bool) {
    && |page| == PAGE && ACPI_MADT + MadtLen(cpus, wakeup) <= PAGE
    && page[0..RSDP_LEN] == Rsdp(ACPI_BASE + ACPI_XSDT)
    && page[ACPI_XSDT..ACPI_XSDT + XSDT_LEN] == Table(XSDT, 1, XsdtBody())
    && page[ACPI_FADT..ACPI_FADT + FADT_LEN] == Table(FACP, 6, FadtBody())
    && page[ACPI_DSDT..ACPI_DSDT + DSDT_LEN] == Table(DSDT, 2, [])
    && page[ACPI_MADT..ACPI_MADT + MadtLen(cpus, wakeup)] == Madt(cpus, wakeup)
  }

  /** Every table is whole in the final page: later ones were written elsewhere. */
  lemma {:induction false} PageHolds(cpus: nat, wakeup: bool)
    requires cpus <= MAX_VCPUS
    ensures HoldsTables(AcpiPage(cpus, wakeup), cpus, wakeup)
  {
    var rsdp, xsdt, fadt := Rsdp(ACPI_BASE + ACPI_XSDT), Table(XSDT, 1, XsdtBody()), Table(FACP, 6, FadtBody());
    var dsdt, madt := Table(DSDT, 2, []), Madt(cpus, wakeup);
    FiveHold(rsdp, xsdt, fadt, dsdt, madt);
  }

  /** Five pieces written at ascending places, each ending before the next. */
  lemma {:induction false} FiveHold(a: Bytes, b: Bytes, c: Bytes, d: Bytes, e: Bytes)
    requires |a| <= ACPI_XSDT && ACPI_XSDT + |b| <= ACPI_FADT && ACPI_FADT + |c| <= ACPI_DSDT
    requires ACPI_DSDT + |d| <= ACPI_MADT && ACPI_MADT + |e| <= PAGE
    ensures var s1 := Splice(Zeros(PAGE), 0, a);
            var s2 := Splice(s1, ACPI_XSDT, b);
            var s3 := Splice(s2, ACPI_FADT, c);
            var s4 := Splice(s3, ACPI_DSDT, d);
            var page := Splice(s4, ACPI_MADT, e);
            && page[0..|a|] == a
            && page[ACPI_XSDT..ACPI_XSDT + |b|] == b
            && page[ACPI_FADT..ACPI_FADT + |c|] == c
            && page[ACPI_DSDT..ACPI_DSDT + |d|] == d
            && page[ACPI_MADT..ACPI_MADT + |e|] == e
  {
    var s1 := Splice(Zeros(PAGE), 0, a);
    var s2 := Splice(s1, ACPI_XSDT, b);
    var s3 := Splice(s2, ACPI_FADT, c);
    var s4 := Splice(s3, ACPI_DSDT, d);
    StillHolds(s1, 0, a, ACPI_XSDT, b);
    StillHolds(s2, 0, a, ACPI_FADT, c);
    StillHolds(s2, ACPI_XSDT, b, ACPI_FADT, c);
    StillHolds(s3, 0, a, ACPI_DSDT, d);
    StillHolds(s3, ACPI_XSDT, b, ACPI_DSDT, d);
    StillHolds(s3, ACPI_FADT, c, ACPI_DSDT, d);
    StillHolds(s4, 0, a, ACPI_MADT, e);
    StillHolds(s4, ACPI_XSDT, b, ACPI_MADT, e);
    StillHolds(s4, ACPI_FADT, c, ACPI_MADT, e);
    StillHolds(s4, ACPI_DSDT, d, ACPI_MADT, e);
  }

  /** A piece written past another leaves it. */
  lemma {:induction false} StillHolds(s: Bytes, at: nat, x: Bytes, next: nat, y: Bytes)
    requires |s| == PAGE && at + |x| <= next && next + |y| <= PAGE
    ensures at + |x| <= PAGE && (s[at..at + |x|] == x ==> Splice(s, next, y)[at..at + |x|] == x)
    ensures Splice(s, next, y)[next..next + |y|] == y
  {
    SpliceKeeps(s, next, y, at, at + |x|);
    SpliceWhole(s, next, y);
  }

  // ---------- writing it in place ----------

  /** A table under construction: `s` with `d` at `at`, and zeroes to come after it. */
  ghost predicate Building(v: Bytes, s: Bytes, at: nat, d: Bytes, room: nat) {
    && |d| <= room && at + room <= |s| && |v| == |s|
    && (forall i :: at <= i < at + room ==> s[i] == 0)
    && v == Splice(s, at, d)
  }

  lemma {:induction false} SpliceGrows(s: Bytes, at: nat, d: Bytes, room: nat, k: nat, x: Bytes)
    requires |d| <= k && k + |x| <= room && at + room <= |s|
    requires forall i :: at <= i < at + room ==> s[i] == 0
    ensures Splice(Splice(s, at, d), at + k, x) == Splice(s, at, d + Zeros(k - |d|) + x)
  {
    var grown := d + Zeros(k - |d|) + x;
    var l, r := Splice(Splice(s, at, d), at + k, x), Splice(s, at, grown);
    forall i | 0 <= i < |s|
      ensures l[i] == r[i]
    {
    }
  }

  /** The next field, straight after what is there... */
  method PutNext(v: array<Byte>, ghost s: Bytes, at: nat, ghost d: Bytes, ghost room: nat, k: nat, x: Bytes)
    returns (ghost r: Bytes)
    requires Building(v[..], s, at, d, room) && |d| == k && k + |x| <= room
    modifies v
    ensures r == d + x && |r| == k + |x| && Building(v[..], s, at, r, room)
  {
    SpliceGrows(s, at, d, room, k, x);
    Put(v, at + k, x);
    r := d + x;
    assert d + Zeros(0) + x == r;
  }

  /** ...or after `gap` bytes left zero. */
  method PutAfterGap(v: array<Byte>, ghost s: Bytes, at: nat, ghost d: Bytes, ghost room: nat, ghost gap: nat, k: nat,
                     x: Bytes)
    returns (ghost r: Bytes)
    requires Building(v[..], s, at, d, room) && |d| + gap == k && k + |x| <= room
    modifies v
    ensures r == d + Zeros(gap) + x && |r| == k + |x| && Building(v[..], s, at, r, room)
  {
    SpliceGrows(s, at, d, room, k, x);
    Put(v, at + k, x);
    r := d + Zeros(gap) + x;
  }

  method PutHeaderStart(v: array<Byte>, ghost s: Bytes, at: nat, signature: Bytes, len: nat, revision: Byte,
                        ghost room: nat)
    returns (ghost d: Bytes)
    requires |signature| == 4 && TABLE_HEADER_LEN <= room
    requires Building(v[..], s, at, [], room)
    modifies v
    ensures d == HeaderStart(signature, len, revision) && Building(v[..], s, at, d, room)
  {
    d := PutNext(v, s, at, [], room, 0, signature);
    d := PutNext(v, s, at, d, room, 4, Le(len, 4));
    d := PutNext(v, s, at, d, room, 8, [revision]);
    d := PutAfterGap(v, s, at, d, room, 1, 10, OEM_ID);
    assert d == HeaderStart(signature, len, revision);
  }

  method PutHeader(v: array<Byte>, ghost s: Bytes, at: nat, signature: Bytes, len: nat, revision: Byte, ghost room: nat)
    returns (ghost d: Bytes)
    requires |signature| == 4 && TABLE_HEADER_LEN <= room
    requires Building(v[..], s, at, [], room)
    modifies v
    ensures d == Header(signature, len, revision) && Building(v[..], s, at, d, room)
  {
    d := PutHeaderStart(v, s, at, signature, len, revision, room);
    d := PutNext(v, s, at, d, room, 16, OEM_TABLE_ID);
    d := PutNext(v, s, at, d, room, 24, Le(1, 4));
    d := PutNext(v, s, at, d, room, 28, CREATOR_ID);
    d := PutNext(v, s, at, d, room, 32, Le(1, 4));
  }

  lemma {:induction false} PatchSpliced(s: Bytes, at: nat, d: Bytes, k: nat, c: Byte)
    requires at + |d| <= |s| && k < |d|
    ensures Splice(s, at, d)[at + k := c] == Splice(s, at, d[k := c])
  {
  }

  lemma {:induction false} PadSpliced(s: Bytes, at: nat, d: Bytes, len: nat)
    requires |d| <= len && at + len <= |s|
    requires forall i :: at <= i < at + len ==> s[i] == 0
    ensures Splice(s, at, d) == Splice(s, at, d + Zeros(len - |d|))
  {
  }

  /** One byte of what was written at `at`. */
  method Patch(v: array<Byte>, ghost s: Bytes, at: nat, ghost d: Bytes, k: nat, c: Byte)
    requires at + |d| <= |s| && k < |d| && v[..] == Splice(s, at, d)
    modifies v
    ensures v[..] == Splice(s, at, d[k := c])
  {
    PatchSpliced(s, at, d, k, c);
    v[at + k] := c;
  }

  /** The checksum byte is cleared, then set from the whole. */
  method Seal(v: array<Byte>, ghost s: Bytes, at: nat, ghost raw: Bytes, len: nat)
    requires TABLE_CHECKSUM < len == |raw| && at + len <= |s| && raw[TABLE_CHECKSUM] == 0
    requires v[..] == Splice(s, at, raw)
    modifies v
    ensures v[..] == Splice(s, at, raw[TABLE_CHECKSUM := Checksum(raw)])
  {
    Patch(v, s, at, raw, TABLE_CHECKSUM, 0);
    assert raw[TABLE_CHECKSUM := 0] == raw;
    SpliceWhole(s, at, raw);
    assert v[at..at + len] == v[..][at..at + len];
    Patch(v, s, at, raw, TABLE_CHECKSUM, Checksum(v[at..at + len]));
  }

  /** Seals a table written but for its checksum. */
  method Finish(v: array<Byte>, ghost s: Bytes, at: nat, ghost signature: Bytes, ghost revision: Byte,
                ghost body: Bytes, len: nat)
    requires |signature| == 4 && len == TABLE_HEADER_LEN + |body| && at + len <= |s|
    requires v[..] == Splice(s, at, Header(signature, len, revision) + body)
    modifies v
    ensures v[..] == Splice(s, at, Table(signature, revision, body))
  {
    Seal(v, s, at, Header(signature, len, revision) + body, len);
  }

  // ---------- the five tables ----------

  ghost predicate Room(s: Bytes, at: nat, len: nat) {
    at + len <= |s| && forall i :: at <= i < at + len ==> s[i] == 0
  }

  lemma {:induction false} NothingYet(s: Bytes, at: nat, len: nat)
    requires Room(s, at, len)
    ensures Building(s, s, at, [], len)
  {
    assert Splice(s, at, []) == s;
  }

  method PutRsdpLow(v: array<Byte>, ghost s: Bytes) returns (ghost d: Bytes)
    requires v[..] == s && Room(s, 0, RSDP_LEN)
    modifies v
    ensures d == RSD_PTR + Zeros(1) + OEM_ID + [2] && |d| == 16 && Building(v[..], s, 0, d, RSDP_LEN)
  {
    NothingYet(s, 0, RSDP_LEN);
    d := PutNext(v, s, 0, [], RSDP_LEN, 0, RSD_PTR);
    assert d == RSD_PTR;
    d := PutAfterGap(v, s, 0, d, RSDP_LEN, 1, 9, OEM_ID);
    d := PutNext(v, s, 0, d, RSDP_LEN, 15, [2]);
  }

  method PutRsdpFields(v: array<Byte>, ghost s: Bytes, xsdt: U64)
    requires v[..] == s && Room(s, 0, RSDP_LEN)
    modifies v
    ensures v[..] == Splice(s, 0, RsdpRaw(xsdt))
  {
    ghost var d := PutRsdpLow(v, s);
    d := PutAfterGap(v, s, 0, d, RSDP_LEN, 4, 20, Le(RSDP_LEN, 4));
    d := PutNext(v, s, 0, d, RSDP_LEN, 24, Le(xsdt, 8));
    PadSpliced(s, 0, d, RSDP_LEN);
    RsdpJoins(xsdt);
  }

  lemma {:induction false} RsdpJoins(xsdt: U64)
    ensures RSD_PTR + Zeros(1) + OEM_ID + [2] + Zeros(4) + Le(RSDP_LEN, 4) + Le(xsdt, 8) + Zeros(4) == RsdpRaw(xsdt)
  {
    assert Zeros(1) == [0];
  }

  method PutRsdp(v: array<Byte>, ghost s: Bytes, xsdt: U64)
    requires v[..] == s && Room(s, 0, RSDP_LEN)
    modifies v
    ensures v[..] == Splice(s, 0, Rsdp(xsdt))
  {
    PutRsdpFields(v, s, xsdt);
    ghost var raw := RsdpRaw(xsdt);
    assert v[0..RSDP_V1_LEN] == raw[..RSDP_V1_LEN];
    PatchSpliced(s, 0, raw, RSDP_CHECKSUM, Checksum(raw[..RSDP_V1_LEN]));
    v[RSDP_CHECKSUM] := Checksum(v[0..RSDP_V1_LEN]);
    ghost var one := raw[RSDP_CHECKSUM := Checksum(raw[..RSDP_V1_LEN])];
    assert v[..] == Splice(s, 0, one);
    assert v[0..RSDP_LEN] == one;
    PatchSpliced(s, 0, one, RSDP_EXT_CHECKSUM, Checksum(one));
    v[RSDP_EXT_CHECKSUM] := Checksum(v[0..RSDP_LEN]);
  }

  method PutXsdt(v: array<Byte>, ghost s: Bytes)
    requires v[..] == s && Room(s, ACPI_XSDT, XSDT_LEN)
    modifies v
    ensures v[..] == Splice(s, ACPI_XSDT, Table(XSDT, 1, XsdtBody()))
  {
    NothingYet(s, ACPI_XSDT, XSDT_LEN);
    ghost var head := PutHeader(v, s, ACPI_XSDT, XSDT, XSDT_LEN, 1, XSDT_LEN);
    ghost var d := PutNext(v, s, ACPI_XSDT, head, XSDT_LEN, TABLE_HEADER_LEN, Le(ACPI_BASE + ACPI_FADT, 8));
    d := PutNext(v, s, ACPI_XSDT, d, XSDT_LEN, TABLE_HEADER_LEN + 8, Le(ACPI_BASE + ACPI_MADT, 8));
    ConcatAssoc(head, Le(ACPI_BASE + ACPI_FADT, 8), Le(ACPI_BASE + ACPI_MADT, 8));
    Finish(v, s, ACPI_XSDT, XSDT, 1, XsdtBody(), XSDT_LEN);
  }

  method PutFadtLow(v: array<Byte>, ghost s: Bytes, ghost head: Bytes) returns (ghost d: Bytes)
    requires Building(v[..], s, ACPI_FADT, head, FADT_LEN) && |head| == TABLE_HEADER_LEN
    modifies v
    ensures d == head + FadtLow() && Building(v[..], s, ACPI_FADT, d, FADT_LEN)
  {
    d := PutAfterGap(v, s, ACPI_FADT, head, FADT_LEN, 4, 40, Le(ACPI_BASE + ACPI_DSDT, 4));
    d := PutAfterGap(v, s, ACPI_FADT, d, FADT_LEN, 68, 112, Le(FADT_REDUCED_WBINVD, 4));
    d := PutAfterGap(v, s, ACPI_FADT, d, FADT_LEN, 15, 131, [5]);
    FadtLowJoins(head);
  }

  lemma {:induction false} FadtLowJoins(head: Bytes)
    ensures head + Zeros(4) + Le(ACPI_BASE + ACPI_DSDT, 4) + Zeros(68) + Le(FADT_REDUCED_WBINVD, 4) + Zeros(15) + [5] ==
            head + FadtLow()
  {
    var a, b := Le(ACPI_BASE + ACPI_DSDT, 4), Le(FADT_REDUCED_WBINVD, 4);
    ConcatAssoc(head, Zeros(4), a);
    ConcatAssoc(head, Zeros(4) + a, Zeros(68));
    ConcatAssoc(head, Zeros(4) + a + Zeros(68), b);
    ConcatAssoc(head, Zeros(4) + a + Zeros(68) + b, Zeros(15));
    ConcatAssoc(head, Zeros(4) + a + Zeros(68) + b + Zeros(15), [5]);
  }

  lemma {:induction false} FadtJoins(head: Bytes)
    ensures head + FadtLow() + Zeros(8) + Le(ACPI_BASE + ACPI_DSDT, 8) + Zeros(128) == head + FadtBody()
  {
    var a := Le(ACPI_BASE + ACPI_DSDT, 8);
    ConcatAssoc(head + FadtLow(), Zeros(8), a);
    ConcatAssoc(head + FadtLow(), Zeros(8) + a, Zeros(128));
    ConcatAssoc(head, FadtLow(), FadtHigh());
  }

  method PutFadt(v: array<Byte>, ghost s: Bytes)
    requires v[..] == s && Room(s, ACPI_FADT, FADT_LEN)
    modifies v
    ensures v[..] == Splice(s, ACPI_FADT, Table(FACP, 6, FadtBody()))
  {
    NothingYet(s, ACPI_FADT, FADT_LEN);
    ghost var head := PutHeader(v, s, ACPI_FADT, FACP, FADT_LEN, 6, FADT_LEN);
    ghost var d := PutFadtLow(v, s, head);
    d := PutAfterGap(v, s, ACPI_FADT, d, FADT_LEN, 8, 140, Le(ACPI_BASE + ACPI_DSDT, 8));
    PadSpliced(s, ACPI_FADT, d, FADT_LEN);
    FadtJoins(head);
    Finish(v, s, ACPI_FADT, FACP, 6, FadtBody(), FADT_LEN);
  }

  method PutDsdt(v: array<Byte>, ghost s: Bytes)
    requires v[..] == s && Room(s, ACPI_DSDT, DSDT_LEN)
    modifies v
    ensures v[..] == Splice(s, ACPI_DSDT, Table(DSDT, 2, []))
  {
    NothingYet(s, ACPI_DSDT, DSDT_LEN);
    ghost var head := PutHeader(v, s, ACPI_DSDT, DSDT, DSDT_LEN, 2, DSDT_LEN);
    assert head + [] == head;
    Finish(v, s, ACPI_DSDT, DSDT, 2, [], DSDT_LEN);
  }

  method PutLapic(v: array<Byte>, ghost s: Bytes, id: nat, at: nat, ghost d: Bytes, ghost room: nat)
    returns (ghost r: Bytes)
    requires Building(v[..], s, ACPI_MADT, d, room) && at == ACPI_MADT + |d| && |d| + MADT_LAPIC_LEN <= room
    modifies v
    ensures r == d + Lapic(id) && Building(v[..], s, ACPI_MADT, r, room)
  {
    var k := at - ACPI_MADT;
    r := PutNext(v, s, ACPI_MADT, d, room, k, [MADT_LOCAL_APIC, MADT_LAPIC_LEN, id % 256, id % 256]);
    r := PutNext(v, s, ACPI_MADT, r, room, k + 4, Le(LAPIC_ENABLED, 4));
    ConcatAssoc(d, [MADT_LOCAL_APIC, MADT_LAPIC_LEN, id % 256, id % 256], Le(LAPIC_ENABLED, 4));
  }

  method PutLapics(v: array<Byte>, ghost s: Bytes, cpus: nat, ghost head: Bytes, ghost room: nat)
    returns (at: nat, ghost d: Bytes)
    requires Building(v[..], s, ACPI_MADT, head, room)
    requires |head| == MADT_HEADER_LEN && MADT_HEADER_LEN + cpus * MADT_LAPIC_LEN <= room
    modifies v
    ensures d == head + Lapics(cpus) && at == ACPI_MADT + |d| && Building(v[..], s, ACPI_MADT, d, room)
  {
    at := ACPI_MADT + MADT_HEADER_LEN;
    d := head;
    assert head + Lapics(0) == head;
    for id := 0 to cpus
      invariant d == head + Lapics(id) && at == ACPI_MADT + |d| && Building(v[..], s, ACPI_MADT, d, room)
    {
      ConcatAssoc(head, Lapics(id), Lapic(id));
      d := PutLapic(v, s, id, at, d, room);
      at := at + MADT_LAPIC_LEN;
    }
  }

  method PutWakeup(v: array<Byte>, ghost s: Bytes, at: nat, ghost d: Bytes, ghost room: nat) returns (ghost r: Bytes)
    requires Building(v[..], s, ACPI_MADT, d, room) && at == ACPI_MADT + |d| && |d| + MADT_WAKEUP_LEN <= room
    modifies v
    ensures r == d + WakeupBytes() && Building(v[..], s, ACPI_MADT, r, room)
  {
    var k := at - ACPI_MADT;
    r := PutNext(v, s, ACPI_MADT, d, room, k, [MADT_WAKEUP, MADT_WAKEUP_LEN]);
    r := PutAfterGap(v, s, ACPI_MADT, r, room, 6, k + 8, Le(MAILBOX, 8));
    WakeupJoins(d);
  }

  lemma {:induction false} WakeupJoins(d: Bytes)
    ensures d + [MADT_WAKEUP, MADT_WAKEUP_LEN] + Zeros(6) + Le(MAILBOX, 8) == d + WakeupBytes()
  {
    var a: Bytes, b, c := [MADT_WAKEUP, MADT_WAKEUP_LEN], Zeros(6), Le(MAILBOX, 8);
    ConcatAssoc(d, a, b);
    ConcatAssoc(d, a + b, c);
  }

  method PutMadt(v: array<Byte>, ghost s: Bytes, cpus: nat, wakeup: bool)
    requires v[..] == s && cpus <= MAX_VCPUS && Room(s, ACPI_MADT, MadtLen(cpus, wakeup))
    modifies v
    ensures v[..] == Splice(s, ACPI_MADT, Madt(cpus, wakeup))
  {
    var len := MadtLen(cpus, wakeup);
    NothingYet(s, ACPI_MADT, len);
    ghost var head := PutHeader(v, s, ACPI_MADT, APIC, len, 6, len);
    ghost var d := PutNext(v, s, ACPI_MADT, head, len, 36, Le(LOCAL_APIC_ADDR, 4));
    d := PutNext(v, s, ACPI_MADT, d, len, 40, Le(MADT_PCAT_COMPAT, 4));
    ConcatAssoc(head, Le(LOCAL_APIC_ADDR, 4), Le(MADT_PCAT_COMPAT, 4));
    var at;
    at, d := PutLapics(v, s, cpus, d, len);
    if wakeup {
      d := PutWakeup(v, s, at, d, len);
    } else {
      assert d + [] == d;
    }
    BodySplits(head, cpus, wakeup);
    Finish(v, s, ACPI_MADT, APIC, 6, MadtBody(cpus, wakeup), len);
  }

  /** The whole page, table by table. */
  method Build(cpus: nat, wakeup: bool) returns (bytes: Bytes)
    requires cpus <= MAX_VCPUS
    ensures bytes == AcpiPage(cpus, wakeup)
  {
    var v := new Byte[PAGE](_ => 0);
    ghost var s0 := v[..];
    assert s0 == Zeros(PAGE);
    PutRsdp(v, s0, ACPI_BASE + ACPI_XSDT);
    ghost var s1 := v[..];
    PutXsdt(v, s1);
    ghost var s2 := v[..];
    PutFadt(v, s2);
    ghost var s3 := v[..];
    PutDsdt(v, s3);
    PutMadt(v, v[..], cpus, wakeup);
    bytes := v[..];
  }

  // ---------- reading it back ----------

  /** A table found by its address: whole inside the page, and summing to zero. */
  function TableAt(page: Bytes, addr: nat): Option<Bytes>
    requires |page| == PAGE
  {
    if addr < ACPI_BASE || addr - ACPI_BASE + 36 > PAGE then None
    else
      var off := addr - ACPI_BASE;
      var len := Get32(page, off + 4);
      if len < 36 || off + len > PAGE || !SumsToZero(page[off..off + len]) then None
      else Some(page[off..off + len])
  }

  /** The first table an XSDT lists, from its `k`-th entry on, that is sound and has this signature. */
  function FindTable(page: Bytes, xsdt: Bytes, k: nat, signature: string): Option<Bytes>
    requires |page| == PAGE
    decreases |xsdt| - k
  {
    var at := 36 + 8 * k;
    if at + 8 > |xsdt| then None
    else
      match TableAt(page, Get64(xsdt, at))
      case Some(t) => if t[0..4] == Ascii(signature) then Some(t) else FindTable(page, xsdt, k + 1, signature)
      case None => FindTable(page, xsdt, k + 1, signature)
  }

  /** The RSDP's two sums, signature and revision, and the XSDT it points to. */
  function FindXsdt(page: Bytes): Option<Bytes>
    requires |page| == PAGE
  {
    if page[0..8] != Ascii("RSD PTR ") || page[15] != 2 || !SumsToZero(page[0..20]) || !SumsToZero(page[0..36])
    then None
    else TableAt(page, Get64(page, 24))
  }

  /** The local APICs' address, the flag for old interrupt controllers, and the processors and mailbox an OS finds. */
  datatype Interrupts = Interrupts(apic: nat, flags: nat, found: seq<Structure>)

  function ReadInterrupts(page: Bytes): Option<Interrupts>
    requires |page| == PAGE
  {
    match FindXsdt(page)
    case None => None
    case Some(xsdt) =>
      match FindTable(page, xsdt, 0, "APIC")
      case None => None
      case Some(madt) =>
        if |madt| < 44 then None
        else
          match Structures(madt, 44)
          case None => None
          case Some(found) => Some(Interrupts(Get32(madt, 36), Get32(madt, 40), found))
  }

  /** The FADT an OS finds, and the DSDT it loads by way of it. */
  function ReadFixed(page: Bytes): Option<(Bytes, Bytes)>
    requires |page| == PAGE
  {
    match FindXsdt(page)
    case None => None
    case Some(xsdt) =>
      match FindTable(page, xsdt, 0, "FACP")
      case None => None
      case Some(fadt) =>
        if |fadt| < 276 then None
        else
          match TableAt(page, Get64(fadt, 140))
          case None => None
          case Some(dsdt) => Some((fadt, dsdt))
  }

  lemma {:induction false} TableLength(page: Bytes, off: nat, end: nat, t: Bytes)
    requires off + 8 <= end <= |page| && page[off..end] == t
    ensures Get32(page, off + 4) == Get32(t, 4)
  {
    SliceOfSlice(page, off, end, 4, 8);
  }

  lemma {:induction false} TableFound(page: Bytes, off: nat, len: nat, signature: Bytes, name: string, revision: Byte,
                                      body: Bytes)
    requires |page| == PAGE && |name| == 4 && signature == Ascii(name)
    requires len == TABLE_HEADER_LEN + |body| && off + len <= PAGE
    requires page[off..off + len] == Table(signature, revision, body)
    ensures TableAt(page, ACPI_BASE + off) == Some(Table(signature, revision, body))
  {
    TableReads(signature, name, revision, body);
    TableLength(page, off, off + len, Table(signature, revision, body));
  }

  lemma {:induction false} TwoWords(t: Bytes, head: Bytes, a: Bytes, b: Bytes)
    requires |head| == 36 && |a| == 8 && |b| == 8 && t == head + (a + b)
    ensures |t| == 52 && t[36..44] == a && t[44..52] == b
  {
    SliceOfTail(head, a + b, 0, 8);
    SliceOfTail(head, a + b, 8, 16);
    SliceOfConcat(a, b, 0, 8);
  }

  lemma {:induction false} XsdtEntries()
    ensures var t := Table(XSDT, 1, XsdtBody());
            |t| == 52 && Get64(t, 36) == 0xe_0200 && Get64(t, 44) == 0xe_0500
  {
    var t := Table(XSDT, 1, XsdtBody());
    TableBody(XSDT, 1, XsdtBody());
    TwoWords(t, t[..36], Le(ACPI_BASE + ACPI_FADT, 8), Le(ACPI_BASE + ACPI_MADT, 8));
    LeRoundTrip64(ACPI_BASE + ACPI_FADT);
    LeRoundTrip64(ACPI_BASE + ACPI_MADT);
  }

  lemma {:induction false} XsdtFound(page: Bytes)
    requires |page| == PAGE && page[ACPI_XSDT..ACPI_XSDT + XSDT_LEN] == Table(XSDT, 1, XsdtBody())
    ensures TableAt(page, ACPI_BASE + ACPI_XSDT) == Some(Table(XSDT, 1, XsdtBody()))
  {
    NamesSpelled();
    TableFound(page, ACPI_XSDT, XSDT_LEN, XSDT, "XSDT", 1, XsdtBody());
  }

  lemma {:induction false} FadtFound(page: Bytes)
    requires |page| == PAGE && page[ACPI_FADT..ACPI_FADT + FADT_LEN] == Table(FACP, 6, FadtBody())
    ensures TableAt(page, ACPI_BASE + ACPI_FADT) == Some(Table(FACP, 6, FadtBody()))
  {
    NamesSpelled();
    TableFound(page, ACPI_FADT, FADT_LEN, FACP, "FACP", 6, FadtBody());
  }

  lemma {:induction false} DsdtFound(page: Bytes)
    requires |page| == PAGE && page[ACPI_DSDT..ACPI_DSDT + DSDT_LEN] == Table(DSDT, 2, [])
    ensures TableAt(page, ACPI_BASE + ACPI_DSDT) == Some(Table(DSDT, 2, []))
  {
    NamesSpelled();
    TableFound(page, ACPI_DSDT, DSDT_LEN, DSDT, "DSDT", 2, []);
  }

  lemma {:induction false} MadtFound(page: Bytes, len: nat, body: Bytes)
    requires |page| == PAGE && len == TABLE_HEADER_LEN + |body| && ACPI_MADT + len <= PAGE
    requires page[ACPI_MADT..ACPI_MADT + len] == Table(APIC, 6, body)
    ensures TableAt(page, ACPI_BASE + ACPI_MADT) == Some(Table(APIC, 6, body))
  {
    NamesSpelled();
    TableFound(page, ACPI_MADT, len, APIC, "APIC", 6, body);
  }

  /** The root and every table it leads to are found, each summing to zero where it lies in the page. */
  lemma {:induction false} TablesFound(page: Bytes, cpus: nat, wakeup: bool)
    requires HoldsTables(page, cpus, wakeup)
    ensures FindXsdt(page) == Some(Table(XSDT, 1, XsdtBody()))
    ensures TableAt(page, ACPI_BASE + ACPI_FADT) == Some(Table(FACP, 6, FadtBody()))
    ensures TableAt(page, ACPI_BASE + ACPI_DSDT) == Some(Table(DSDT, 2, []))
    ensures TableAt(page, ACPI_BASE + ACPI_MADT) == Some(Madt(cpus, wakeup))
  {
    RsdpFound(page, page[0..RSDP_LEN]);
    XsdtFound(page);
    FadtFound(page);
    DsdtFound(page);
    MadtFound(page, MadtLen(cpus, wakeup), MadtBody(cpus, wakeup));
  }

  lemma {:induction false} RsdpFound(page: Bytes, rsdp: Bytes)
    requires |page| == PAGE && rsdp == Rsdp(ACPI_BASE + ACPI_XSDT) && page[0..RSDP_LEN] == rsdp
    ensures FindXsdt(page) == TableAt(page, ACPI_BASE + ACPI_XSDT)
  {
    RsdpReads(ACPI_BASE + ACPI_XSDT);
    assert page[15] == rsdp[15];
    SliceOfSlice(page, 0, RSDP_LEN, 0, 8);
    SliceOfSlice(page, 0, RSDP_LEN, 0, RSDP_V1_LEN);
    SliceOfSlice(page, 0, RSDP_LEN, 24, 32);
  }

  lemma {:induction false} InterruptsFound(page: Bytes, xsdt: Bytes, fadt: Bytes, madt: Bytes, found: seq<Structure>)
    requires |page| == PAGE && FindXsdt(page) == Some(xsdt) && |xsdt| >= 52
    requires TableAt(page, Get64(xsdt, 36)) == Some(fadt) && |fadt| >= 4 && fadt[0..4] == Ascii("FACP")
    requires TableAt(page, Get64(xsdt, 44)) == Some(madt) && |madt| >= 44 && madt[0..4] == Ascii("APIC")
    requires Structures(madt, 44) == Some(found)
    ensures ReadInterrupts(page) == Some(Interrupts(Get32(madt, 36), Get32(madt, 40), found))
  {
    OtherTable();
    assert FindTable(page, xsdt, 1, "APIC") == Some(madt);
    assert FindTable(page, xsdt, 0, "APIC") == Some(madt);
  }

  /**
   * An OS that follows the pointers and checks the sums finds the local APICs, every processor in order, then the
   * mailbox exactly when asked for.
   */
  lemma {:induction false} InterruptsRoundTrip(cpus: nat, wakeup: bool)
    requires cpus <= MAX_VCPUS
    ensures ReadInterrupts(AcpiPage(cpus, wakeup)) == Some(Interrupts(0xfee0_0000, 1, Expected(0, cpus, wakeup)))
  {
    var page, xsdt, fadt := AcpiPage(cpus, wakeup), Table(XSDT, 1, XsdtBody()), Table(FACP, 6, FadtBody());
    PageHolds(cpus, wakeup);
    TablesFound(page, cpus, wakeup);
    XsdtEntries();
    FadtReads();
    MadtHeadReads(cpus, wakeup);
    MadtRoundTrip(cpus, wakeup);
    InterruptsFound(page, xsdt, fadt, Madt(cpus, wakeup), Expected(0, cpus, wakeup));
  }

  lemma {:induction false} OtherTable()
    ensures Ascii("FACP") != Ascii("APIC")
  {
    assert Ascii("FACP")[0] != Ascii("APIC")[0];
  }

  lemma {:induction false} FixedFound(page: Bytes, xsdt: Bytes, fadt: Bytes, dsdt: Bytes)
    requires |page| == PAGE && FindXsdt(page) == Some(xsdt) && |xsdt| >= 44
    requires TableAt(page, Get64(xsdt, 36)) == Some(fadt) && |fadt| == 276 && fadt[0..4] == Ascii("FACP")
    requires TableAt(page, Get64(fadt, 140)) == Some(dsdt)
    ensures ReadFixed(page) == Some((fadt, dsdt))
  {
    assert FindTable(page, xsdt, 0, "FACP") == Some(fadt);
  }

  /** ...and a machine without legacy hardware, with a DSDT of nothing but its header. */
  lemma {:induction false} FixedRoundTrip(cpus: nat, wakeup: bool)
    requires cpus <= MAX_VCPUS
    ensures var r := ReadFixed(AcpiPage(cpus, wakeup));
            r.Some? && IsFadt(r.value.0) && HasHeader(r.value.1, "DSDT", 2) && |r.value.1| == 36
  {
    var page, xsdt := AcpiPage(cpus, wakeup), Table(XSDT, 1, XsdtBody());
    var fadt, dsdt := Table(FACP, 6, FadtBody()), Table(DSDT, 2, []);
    PageHolds(cpus, wakeup);
    TablesFound(page, cpus, wakeup);
    XsdtEntries();
    NamesSpelled();
    FadtReads();
    TableReads(DSDT, "DSDT", 2, []);
    FixedFound(page, xsdt, fadt, dsdt);
  }

  /** Where the five tables lie in the page. */
  predicate InATable(k: nat, cpus: nat, wakeup: bool) {
    || k < 36 || 0x100 <= k < 0x134 || 0x200 <= k < 0x314 || 0x400 <= k < 0x424
    || 0x500 <= k < 0x52c + 8 * cpus + (if wakeup then 16 else 0)
  }

  lemma {:induction false} GapIsZero(cpus: nat, wakeup: bool, k: nat)
    requires cpus <= MAX_VCPUS && k < PAGE && !InATable(k, cpus, wakeup)
    ensures AcpiPage(cpus, wakeup)[k] == 0
  {
  }

  /** The headers of the root and of the table it leads to, and nothing between the tables. */
  lemma {:induction false} PageConforms(cpus: nat, wakeup: bool)
    requires cpus <= MAX_VCPUS
    ensures var page := AcpiPage(cpus, wakeup);
            && IsRsdp(page[0..36], 0xe_0100) && HasHeader(page[0x100..0x134], "XSDT", 1)
            && forall k: nat :: k < PAGE && !InATable(k, cpus, wakeup) ==> page[k] == 0
  {
    PageHolds(cpus, wakeup);
    RsdpReads(0xe_0100);
    NamesSpelled();
    TableReads(XSDT, "XSDT", 1, XsdtBody());
    forall k: nat | k < PAGE && !InATable(k, cpus, wakeup)
      ensures AcpiPage(cpus, wakeup)[k] == 0
    {
      GapIsZero(cpus, wakeup, k);
    }
  }
}
