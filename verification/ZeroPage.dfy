/** The Linux zero page: the copied setup header, the loader's fields and the E820 table. */
module ZeroPage {
  import opened Wrappers
  import opened Layout
  import opened Bytes
  import opened Collections
  import opened Writes
  import opened Placement

  const SETUP_HEADER := 0x1f1
  const SETUP_HEADER_END := 0x290
  const HDR_TYPE_OF_LOADER := 0x210
  const HDR_LOADFLAGS := 0x211
  const HDR_CODE32_START := 0x214
  const HDR_RAMDISK_IMAGE := 0x218
  const HDR_RAMDISK_SIZE := 0x21c
  const HDR_CMD_LINE_PTR := 0x228
  const HDR_SETUP_DATA := 0x250
  const HDR_INIT_SIZE := 0x260
  const BP_ACPI_RSDP_ADDR := 0x70
  const BP_E820_ENTRIES := 0x1e8
  const BP_E820_TABLE := 0x2d0
  const E820_ENTRY_LEN := 20
  const E820_MAX := 128
  const LOADER_TYPE_UNDEFINED: Byte := 0xff
  const CAN_USE_HEAP: Byte := 0x80

  predicate EntryFits(e: Entry) {
    0 <= e.base < U64_MODULUS && 0 <= e.size < U64_MODULUS && 0 <= e.kind < 0x1_0000_0000
  }

  ghost predicate EntriesFit(e820: seq<Entry>) {
    forall i :: 0 <= i < |e820| ==> EntryFits(e820[i])
  }

  function EntryBytes(e: Entry): (r: Bytes)
    requires EntryFits(e)
    ensures |r| == E820_ENTRY_LEN
  {
    Le(e.base, 8) + Le(e.size, 8) + Le(e.kind, 4)
  }

  ghost function TableBytes(e820: seq<Entry>): (r: Bytes)
    requires EntriesFit(e820)
    ensures |r| == E820_ENTRY_LEN * |e820|
  {
    if e820 == [] then []
    else
      var n := |e820| - 1;
      TableBytes(e820[..n]) + EntryBytes(e820[n])
  }

  /** `n |= 0x80` on a byte. */
  function OrHeap(n: Byte): Byte {
    if n < CAN_USE_HEAP then n + CAN_USE_HEAP else n
  }

  /** The seven bits below it are as they were, and it is set. */
  lemma {:induction false} OrHeapIs(n: Byte)
    ensures OrHeap(n) % 0x80 == n % 0x80 && OrHeap(n) / 0x80 == 1
  {
  }

  /** How Linux reads the map: a count byte, then 20-byte entries. */
  function DecodeE820(page: Bytes): (r: seq<Entry>)
    requires |page| == PAGE && page[BP_E820_ENTRIES] <= E820_MAX
    ensures |r| == page[BP_E820_ENTRIES]
  {
    seq(page[BP_E820_ENTRIES], k requires 0 <= k < page[BP_E820_ENTRIES] =>
      DecodeEntry(page, BP_E820_TABLE + k * E820_ENTRY_LEN))
  }

  function DecodeEntry(page: Bytes, at: nat): Entry
    requires Fits(page, at, E820_ENTRY_LEN)
  {
    Entry(Get64(page, at), Get64(page, at + 8), Get32(page, at + 16))
  }

  ghost function Base(setup: Bytes): (r: Bytes)
    requires |setup| >= SETUP_HEADER_END
    ensures |r| == PAGE
  {
    Splice(Zeros(PAGE), SETUP_HEADER, setup[SETUP_HEADER..SETUP_HEADER_END])
  }

  /** The loader's own fields: type, flags and the initramfs... */
  ghost function LoaderFields(flags: Byte, initramfsLen: nat): seq<Write> {
    [ Write(HDR_TYPE_OF_LOADER, [LOADER_TYPE_UNDEFINED]),
      Write(HDR_LOADFLAGS, [OrHeap(flags)]),
      Write(HDR_RAMDISK_IMAGE, Le(INITRAMFS_BASE, 4)),
      Write(HDR_RAMDISK_SIZE, Le(initramfsLen, 4)) ]
  }

  /** ...and the addresses it hands over. */
  ghost function AddressFields(initSize: U32, rsdp: U64, setupData: U64): seq<Write> {
    [ Write(HDR_CMD_LINE_PTR, Le(CMDLINE, 4)),
      Write(HDR_CODE32_START, Le(KERNEL_BASE, 4)),
      Write(HDR_INIT_SIZE, Le(initSize, 4)),
      Write(BP_ACPI_RSDP_ADDR, Le(rsdp, 8)),
      Write(HDR_SETUP_DATA, Le(setupData, 8)) ]
  }

  ghost function Fields(setup: Bytes, initSize: U32, initramfsLen: nat, rsdp: U64, setupData: U64): seq<Write>
    requires |setup| >= SETUP_HEADER_END
  {
    LoaderFields(setup[HDR_LOADFLAGS], initramfsLen) + AddressFields(initSize, rsdp, setupData)
  }

  ghost function Table(e820: seq<Entry>): seq<Write>
    requires EntriesFit(e820) && |e820| <= E820_MAX
  {
    [ Write(BP_E820_ENTRIES, [|e820|]), Write(BP_E820_TABLE, TableBytes(e820)) ]
  }

  /** The setup header copied over, then each field the loader owns. */
  method PutHeader(page: array<Byte>, setup: Bytes, initSize: U32, initramfsLen: nat, rsdp: U64, setupData: U64)
    requires page.Length == PAGE && page[..] == Zeros(PAGE) && |setup| >= SETUP_HEADER_END
    modifies page
    ensures var ws := Fields(setup, initSize, initramfsLen, rsdp, setupData);
            Writable(ws, PAGE) && page[..] == Apply(Base(setup), ws)
  {
    Put(page, SETUP_HEADER, setup[SETUP_HEADER..SETUP_HEADER_END]);
    BaseByte(setup, HDR_LOADFLAGS);
    PutLoaderFields(page, Base(setup), initramfsLen);
    PutAddressFields(page, initSize, rsdp, setupData);
    AppendAll(Base(setup), LoaderFields(setup[HDR_LOADFLAGS], initramfsLen), AddressFields(initSize, rsdp, setupData));
  }

  method PutLoaderFields(page: array<Byte>, ghost base: Bytes, initramfsLen: nat)
    requires page.Length == PAGE && page[..] == base
    modifies page
    ensures var ws := LoaderFields(base[HDR_LOADFLAGS], initramfsLen);
            Writable(ws, PAGE) && page[..] == Apply(base, ws)
  {
    var flags := page[HDR_LOADFLAGS];
    ghost var ws := PutField(page, base, [], HDR_TYPE_OF_LOADER, [LOADER_TYPE_UNDEFINED]);
    ws := PutField(page, base, ws, HDR_LOADFLAGS, [OrHeap(flags)]);
    ws := PutField(page, base, ws, HDR_RAMDISK_IMAGE, Le(INITRAMFS_BASE, 4));
    ws := PutField(page, base, ws, HDR_RAMDISK_SIZE, Le(initramfsLen, 4));
    assert ws == LoaderFields(flags, initramfsLen);
  }

  method PutAddressFields(page: array<Byte>, initSize: U32, rsdp: U64, setupData: U64)
    requires page.Length == PAGE
    modifies page
    ensures var ws := AddressFields(initSize, rsdp, setupData);
            Writable(ws, PAGE) && page[..] == Apply(old(page[..]), ws)
  {
    ghost var base := page[..];
    ghost var ws := PutField(page, base, [], HDR_CMD_LINE_PTR, Le(CMDLINE, 4));
    ws := PutField(page, base, ws, HDR_CODE32_START, Le(KERNEL_BASE, 4));
    ws := PutField(page, base, ws, HDR_INIT_SIZE, Le(initSize, 4));
    ws := PutField(page, base, ws, BP_ACPI_RSDP_ADDR, Le(rsdp, 8));
    ws := PutField(page, base, ws, HDR_SETUP_DATA, Le(setupData, 8));
    assert ws == AddressFields(initSize, rsdp, setupData);
  }

  method PutEntry(page: array<Byte>, at: nat, e: Entry)
    requires EntryFits(e) && at + E820_ENTRY_LEN <= page.Length
    modifies page
    ensures page[..] == Splice(old(page[..]), at, EntryBytes(e))
  {
    EntryWritten(page[..], at, e);
    Put64(page, at, e.base);
    Put64(page, at + 8, e.size);
    Put32(page, at + 16, e.kind);
  }

  method PutTable(page: array<Byte>, e820: seq<Entry>)
    requires page.Length == PAGE && EntriesFit(e820) && |e820| <= E820_MAX
    modifies page
    ensures page[..] == Splice(Splice(old(page[..]), BP_E820_ENTRIES, [|e820|]), BP_E820_TABLE, TableBytes(e820))
  {
    Put(page, BP_E820_ENTRIES, [|e820|]);
    ghost var counted := page[..];
    for index := 0 to |e820|
      invariant page[..] == Splice(counted, BP_E820_TABLE, TableBytes(e820[..index]))
    {
      PutEntry(page, BP_E820_TABLE + index * E820_ENTRY_LEN, e820[index]);
      assert e820[..index + 1][..index] == e820[..index];
      SpliceAppend(counted, BP_E820_TABLE, TableBytes(e820[..index]), EntryBytes(e820[index]));
    }
    assert e820[..|e820|] == e820;
  }

  method Build(setup: Bytes, initSize: U32, initramfsLen: nat, rsdp: U64, e820: seq<Entry>, setupData: U64)
    returns (r: Result<Bytes, nat>)
    requires |setup| >= SETUP_HEADER_END && EntriesFit(e820)
    ensures r == Err(|e820|) <==> |e820| > 128
    ensures r.Err? <==> |e820| > 128
    ensures r.Ok? ==> IsZeroPage(r.value, setup, initSize, initramfsLen, rsdp, e820, setupData)
    ensures r.Ok? ==> |r.value| == PAGE && r.value[BP_E820_ENTRIES] == |e820| && DecodeE820(r.value) == e820
  {
    if |e820| > E820_MAX {
      return Err(|e820|);
    }
    var page := new Byte[PAGE](_ => 0);
    assert page[..] == Zeros(PAGE);
    PutHeader(page, setup, initSize, initramfsLen, rsdp, setupData);
    ghost var header := page[..];
    PutTable(page, e820);
    ghost var fields := Fields(setup, initSize, initramfsLen, rsdp, setupData);
    AppendOne(Base(setup), fields, Table(e820)[0]);
    AppendOne(Base(setup), fields + [Table(e820)[0]], Table(e820)[1]);
    assert fields + Table(e820) == fields + [Table(e820)[0]] + [Table(e820)[1]];
    TableDecodes(Splice(header, BP_E820_ENTRIES, [|e820|]), page[..], e820);
    return Ok(page[..]);
  }

  /** The page, as the fields written over the copied header. */
  ghost predicate IsZeroPage(page: Bytes, setup: Bytes, initSize: U32, initramfsLen: nat, rsdp: U64,
                             e820: seq<Entry>, setupData: U64)
  {
    && |setup| >= SETUP_HEADER_END && EntriesFit(e820) && |e820| <= E820_MAX
    && var ws := Fields(setup, initSize, initramfsLen, rsdp, setupData) + Table(e820);
    Writable(ws, PAGE) && page == Apply(Base(setup), ws)
  }

  /** The initramfs and command line Linux finds are where the map placed them. */
  lemma {:induction false} ZeroPageFields(page: Bytes, setup: Bytes, initSize: U32, initramfsLen: nat, rsdp: U64,
                                          e820: seq<Entry>, setupData: U64)
    requires IsZeroPage(page, setup, initSize, initramfsLen, rsdp, e820, setupData)
    ensures |page| == PAGE
    ensures Get32(page, HDR_RAMDISK_IMAGE) == INITRAMFS_BASE
    ensures initramfsLen < 0x1_0000_0000 ==> Get32(page, HDR_RAMDISK_SIZE) == initramfsLen
    ensures Get32(page, HDR_CMD_LINE_PTR) == CMDLINE
    ensures Get32(page, HDR_CODE32_START) == KERNEL_BASE
  {
    var ws := Fields(setup, initSize, initramfsLen, rsdp, setupData) + Table(e820);
    FieldsDisjoint(setup, initSize, initramfsLen, rsdp, e820, setupData);
    FieldHolds(page, setup, ws, 2, HDR_RAMDISK_IMAGE, INITRAMFS_BASE, 4);
    FieldHolds(page, setup, ws, 3, HDR_RAMDISK_SIZE, initramfsLen, 4);
    FieldHolds(page, setup, ws, 4, HDR_CMD_LINE_PTR, CMDLINE, 4);
    FieldHolds(page, setup, ws, 5, HDR_CODE32_START, KERNEL_BASE, 4);
  }

  /** So are the kernel's own size, the ACPI tables and the setup_data chain. */
  lemma {:induction false} ZeroPageAddresses(page: Bytes, setup: Bytes, initSize: U32, initramfsLen: nat, rsdp: U64,
                                             e820: seq<Entry>, setupData: U64)
    requires IsZeroPage(page, setup, initSize, initramfsLen, rsdp, e820, setupData)
    ensures |page| == PAGE
    ensures Get32(page, HDR_INIT_SIZE) == initSize
    ensures Get64(page, BP_ACPI_RSDP_ADDR) == rsdp
    ensures Get64(page, HDR_SETUP_DATA) == setupData
  {
    var ws := Fields(setup, initSize, initramfsLen, rsdp, setupData) + Table(e820);
    FieldsDisjoint(setup, initSize, initramfsLen, rsdp, e820, setupData);
    FieldHolds(page, setup, ws, 6, HDR_INIT_SIZE, initSize, 4);
    FieldHolds(page, setup, ws, 7, BP_ACPI_RSDP_ADDR, rsdp, 8);
    FieldHolds(page, setup, ws, 8, HDR_SETUP_DATA, setupData, 8);
  }

  /** The bytes the loader writes over the copied header, and those of the E820 map. */
  predicate Written(k: nat, entries: nat) {
    || k == HDR_TYPE_OF_LOADER || k == HDR_LOADFLAGS
    || HDR_CODE32_START <= k < HDR_RAMDISK_SIZE + 4
    || HDR_CMD_LINE_PTR <= k < HDR_CMD_LINE_PTR + 4
    || HDR_SETUP_DATA <= k < HDR_SETUP_DATA + 8
    || HDR_INIT_SIZE <= k < HDR_INIT_SIZE + 4
    || BP_ACPI_RSDP_ADDR <= k < BP_ACPI_RSDP_ADDR + 8
    || k == BP_E820_ENTRIES
    || BP_E820_TABLE <= k < BP_E820_TABLE + entries * E820_ENTRY_LEN
  }

  /** Every other byte of the page is the kernel's own where the header is, and zero elsewhere. */
  lemma {:induction false} ZeroPageKeeps(page: Bytes, setup: Bytes, initSize: U32, initramfsLen: nat, rsdp: U64,
                                         e820: seq<Entry>, setupData: U64, k: nat)
    requires IsZeroPage(page, setup, initSize, initramfsLen, rsdp, e820, setupData)
    requires k < PAGE && !Written(k, |e820|)
    ensures |page| == PAGE && page[k] == if SETUP_HEADER <= k < SETUP_HEADER_END then setup[k] else 0
  {
    var ws := Fields(setup, initSize, initramfsLen, rsdp, setupData) + Table(e820);
    forall i | 0 <= i < |ws|
      ensures !(ws[i].at <= k < ws[i].End())
    {
      assert i < 4 ==> ws[i] == LoaderFields(setup[HDR_LOADFLAGS], initramfsLen)[i];
      assert 4 <= i < 9 ==> ws[i] == AddressFields(initSize, rsdp, setupData)[i - 4];
      assert 9 <= i ==> ws[i] == Table(e820)[i - 9];
    }
    ByteKeeps(Base(setup), ws, k);
    BaseByte(setup, k);
  }

  lemma {:induction false} OneByte(page: Bytes, k: nat, b: Byte)
    requires k < |page| && page[k..k + 1] == [b]
    ensures page[k] == b
  {
    assert page[k] == page[k..k + 1][0];
  }

  /** The loader names itself, and adds one flag to the kernel's. */
  lemma {:induction false} ZeroPageFlags(page: Bytes, setup: Bytes, initSize: U32, initramfsLen: nat, rsdp: U64,
                                         e820: seq<Entry>, setupData: U64)
    requires IsZeroPage(page, setup, initSize, initramfsLen, rsdp, e820, setupData)
    ensures |page| == PAGE && page[0x210] == 0xff
    ensures page[HDR_LOADFLAGS] == OrHeap(setup[HDR_LOADFLAGS])
    ensures page[0x211] / 0x80 == 1 && page[0x211] % 0x80 == setup[0x211] % 0x80
  {
    OrHeapIs(setup[HDR_LOADFLAGS]);
    var ws := Fields(setup, initSize, initramfsLen, rsdp, setupData) + Table(e820);
    FieldsDisjoint(setup, initSize, initramfsLen, rsdp, e820, setupData);
    FieldReads(Base(setup), ws, 0);
    FieldReads(Base(setup), ws, 1);
    OneByte(page, HDR_TYPE_OF_LOADER, LOADER_TYPE_UNDEFINED);
    OneByte(page, HDR_LOADFLAGS, OrHeap(setup[HDR_LOADFLAGS]));
  }

  lemma {:induction false} LoaderDisjoint(flags: Byte, initramfsLen: nat)
    ensures Disjoint(LoaderFields(flags, initramfsLen))
  {
  }

  lemma {:induction false} AddressDisjoint(initSize: U32, rsdp: U64, setupData: U64)
    ensures Disjoint(AddressFields(initSize, rsdp, setupData))
  {
  }

  lemma {:induction false} LoaderClear(flags: Byte, initramfsLen: nat, initSize: U32, rsdp: U64, setupData: U64)
    ensures Clear(LoaderFields(flags, initramfsLen), AddressFields(initSize, rsdp, setupData))
  {
  }

  lemma {:induction false} TableClear(ws: seq<Write>, e820: seq<Entry>)
    requires EntriesFit(e820) && |e820| <= E820_MAX
    requires forall i :: 0 <= i < |ws| ==>
               ws[i].End() <= BP_E820_ENTRIES || (BP_E820_ENTRIES < ws[i].at && ws[i].End() <= BP_E820_TABLE)
    ensures Disjoint(Table(e820)) && Clear(ws, Table(e820))
  {
  }

  lemma {:induction false} FieldsDisjoint(setup: Bytes, initSize: U32, initramfsLen: nat, rsdp: U64,
                                          e820: seq<Entry>, setupData: U64)
    requires |setup| >= SETUP_HEADER_END && EntriesFit(e820) && |e820| <= E820_MAX
    ensures Disjoint(Fields(setup, initSize, initramfsLen, rsdp, setupData) + Table(e820))
  {
    var a, b := LoaderFields(setup[HDR_LOADFLAGS], initramfsLen), AddressFields(initSize, rsdp, setupData);
    LoaderDisjoint(setup[HDR_LOADFLAGS], initramfsLen);
    AddressDisjoint(initSize, rsdp, setupData);
    LoaderClear(setup[HDR_LOADFLAGS], initramfsLen, initSize, rsdp, setupData);
    DisjointConcat(a, b);
    TableClear(a + b, e820);
    DisjointConcat(a + b, Table(e820));
  }

  lemma {:induction false} FieldHolds(page: Bytes, setup: Bytes, ws: seq<Write>, i: nat, at: nat, n: nat, k: nat)
    requires |setup| >= SETUP_HEADER_END && Writable(ws, PAGE) && page == Apply(Base(setup), ws)
    requires Disjoint(ws) && i < |ws| && ws[i] == Write(at, Le(n, k)) && (k == 4 || k == 8)
    ensures |page| == PAGE && at + k <= PAGE
    ensures n < Pow256(k) ==> FromLe(page[at..at + k]) == n
    ensures Pow256(4) == 0x1_0000_0000 && Pow256(8) == U64_MODULUS
  {
    FieldReads(Base(setup), ws, i);
    assert ws[i].End() <= PAGE;
    Pow256Values();
    if n < Pow256(k) {
      LeRoundTrip(n, k);
    }
  }

  lemma {:induction false} BaseByte(setup: Bytes, k: nat)
    requires |setup| >= SETUP_HEADER_END && k < PAGE
    ensures Base(setup)[k] == if SETUP_HEADER <= k < SETUP_HEADER_END then setup[k] else 0
  {
    if SETUP_HEADER <= k < SETUP_HEADER_END {
      assert Base(setup)[SETUP_HEADER..SETUP_HEADER_END][k - SETUP_HEADER] == setup[k];
    }
  }

  lemma {:induction false} EntryWritten(s: Bytes, at: nat, e: Entry)
    requires EntryFits(e) && Fits(s, at, E820_ENTRY_LEN)
    ensures Splice(Splice(Splice(s, at, Le(e.base, 8)), at + 8, Le(e.size, 8)), at + 16, Le(e.kind, 4)) ==
            Splice(s, at, EntryBytes(e))
  {
    SpliceAppend(s, at, Le(e.base, 8), Le(e.size, 8));
    SpliceAppend(s, at, Le(e.base, 8) + Le(e.size, 8), Le(e.kind, 4));
  }

  lemma {:induction false} SpliceAppend(s: Bytes, at: nat, x: Bytes, y: Bytes)
    requires Fits(s, at, |x| + |y|)
    ensures Splice(Splice(s, at, x), at + |x|, y) == Splice(s, at, x + y)
  {
  }

  lemma {:induction false} TableEntry(e820: seq<Entry>, k: nat)
    requires EntriesFit(e820) && k < |e820|
    ensures TableBytes(e820)[k * E820_ENTRY_LEN..k * E820_ENTRY_LEN + E820_ENTRY_LEN] == EntryBytes(e820[k])
  {
    var n := |e820| - 1;
    if k < n {
      TableEntry(e820[..n], k);
      var lo := k * E820_ENTRY_LEN;
      assert TableBytes(e820)[lo..lo + E820_ENTRY_LEN] == TableBytes(e820[..n])[lo..lo + E820_ENTRY_LEN];
    }
  }

  lemma {:induction false} EntryParts(a: Bytes, b: Bytes, c: Bytes)
    requires |a| == 8 && |b| == 8 && |c| == 4
    ensures (a + b + c)[0..8] == a && (a + b + c)[8..16] == b && (a + b + c)[16..20] == c
  {
    MiddleOfThree(a, b, c);
    assert (a + b + c)[16..20] == (a + b + c)[16..];
  }

  lemma {:induction false} EntryDecodes(page: Bytes, at: nat, e: Entry)
    requires EntryFits(e) && Fits(page, at, E820_ENTRY_LEN)
    requires page[at..at + E820_ENTRY_LEN] == EntryBytes(e)
    ensures DecodeEntry(page, at) == e
  {
    EntryParts(Le(e.base, 8), Le(e.size, 8), Le(e.kind, 4));
    SliceOfSlice(page, at, at + E820_ENTRY_LEN, 0, 8);
    SliceOfSlice(page, at, at + E820_ENTRY_LEN, 8, 16);
    SliceOfSlice(page, at, at + E820_ENTRY_LEN, 16, 20);
    LeRoundTrip64(e.base);
    LeRoundTrip64(e.size);
    LeRoundTrip32(e.kind);
  }

  lemma {:induction false} TableDecodes(counted: Bytes, page: Bytes, e820: seq<Entry>)
    requires |counted| == PAGE && EntriesFit(e820) && |e820| <= E820_MAX
    requires counted[BP_E820_ENTRIES] == |e820|
    requires page == Splice(counted, BP_E820_TABLE, TableBytes(e820))
    ensures page[BP_E820_ENTRIES] == |e820| && DecodeE820(page) == e820
  {
    forall k | 0 <= k < |e820|
      ensures DecodeEntry(page, BP_E820_TABLE + k * E820_ENTRY_LEN) == e820[k]
    {
      TableEntry(e820, k);
      var lo := k * E820_ENTRY_LEN;
      SpliceReads(counted, BP_E820_TABLE, TableBytes(e820), lo, lo + E820_ENTRY_LEN);
      EntryDecodes(page, BP_E820_TABLE + lo, e820[k]);
    }
  }
}
