/** Building an image: the one map, the two pages that describe it, and the pages a loader imports. */
module Image {
  import opened Wrappers
  import opened Layout
  import opened Bytes
  import opened Placement
  import opened MapTheorems
  import opened Pages
  import opened Partition
  import opened ShimBlock
  import opened Params
  import opened Kernel
  import opened Wrapping
  import opened Sweeps
  import opened Trimming
  import Zero = ZeroPage

  // ---------- what is placed ----------

  datatype Prepared =
    Prepared(info: KernelInfo, setup: Bytes, kernel: Bytes, initramfs: Bytes, command: Bytes, entry: U64)

  datatype PrepareError =
    | BadKernel(e: KernelError) | KernelTooLarge | InitSizeTooLarge | InitramfsPastMemory | InitramfsPast4G
    | SetupTooLarge | CmdlineTooLong

  /** `resize(PAGE, 0)`: padded with zeroes, or cut. */
  function Resized(s: Bytes): (r: Bytes)
    ensures |r| == PAGE
  {
    if |s| <= PAGE then s + Zeros(PAGE - |s|) else s[..PAGE]
  }

  /** The kernel parsed, the bounds `prepare` checks, and the files cut and padded to their regions. */
  function Prepare(file: Bytes, initramfs: Bytes, cmdline: Bytes, memory: int): Result<Prepared, PrepareError> {
    match ParseBzImage(file)
    case Err(e) => Err(BadKernel(e))
    case Ok(info) =>
      var kernel := file[info.setupBytes..];
      var initramfsEnd := PageUp(INITRAMFS_BASE + |initramfs|);
      if PageUp(KERNEL_BASE + |kernel|) > INITRAMFS_BASE then Err(KernelTooLarge)
      else if KERNEL_BASE + info.initSize > INITRAMFS_BASE then Err(InitSizeTooLarge)
      else if initramfsEnd > memory then Err(InitramfsPastMemory)
      else if initramfsEnd > 0xffff_ffff then Err(InitramfsPast4G)
      else if info.setupBytes > KERNEL_SETUP_AREA_SIZE then Err(SetupTooLarge)
      else if (|cmdline| + 1) % 0x1_0000_0000 > info.cmdlineMax then Err(CmdlineTooLong)
      else
        var setup := file[..info.setupBytes] + Zeros(KERNEL_SETUP_AREA_SIZE - info.setupBytes);
        Ok(Prepared(info, setup, kernel, initramfs, Resized(cmdline + [0]), KERNEL_BASE + ENTRY_64_OFFSET))
  }

  lemma {:induction false} PageUpBelow(n: nat, limit: int)
    requires PageAligned(limit)
    ensures PageUp(n) <= limit <==> n <= limit
  {
  }

  /** The bounds on the sizes of the parts, up to the pages they are rounded to. */
  predicate PartsFit(kernelLen: nat, initSize: nat, initramfsLen: nat, memory: int) {
    && PageUp(KERNEL_BASE + kernelLen) <= INITRAMFS_BASE && KERNEL_BASE + initSize <= INITRAMFS_BASE
    && PageUp(INITRAMFS_BASE + initramfsLen) <= memory && PageUp(INITRAMFS_BASE + initramfsLen) <= 0xffff_ffff
  }

  lemma {:induction false} PartsFitIff(kernelLen: nat, initSize: nat, initramfsLen: nat, memory: int)
    requires PageAligned(memory)
    ensures PartsFit(kernelLen, initSize, initramfsLen, memory) <==>
            && KERNEL_BASE + kernelLen <= INITRAMFS_BASE && KERNEL_BASE + initSize <= INITRAMFS_BASE
            && INITRAMFS_BASE + initramfsLen <= memory && INITRAMFS_BASE + initramfsLen <= RESET_ALIAS
  {
    PageUpBelow(KERNEL_BASE + kernelLen, INITRAMFS_BASE);
    PageUpBelow(INITRAMFS_BASE + initramfsLen, memory);
    PageUpBelow(INITRAMFS_BASE + initramfsLen, RESET_ALIAS);
    PageUpAligned(INITRAMFS_BASE + initramfsLen);
  }

  lemma {:induction false} PageUpAligned(n: nat)
    ensures PageUp(n) <= 0xffff_ffff <==> PageUp(n) <= RESET_ALIAS
  {
  }

  lemma {:induction false} PrepareOk(file: Bytes, initramfs: Bytes, cmdline: Bytes, memory: int)
    ensures Prepare(file, initramfs, cmdline, memory).Ok? <==>
            && ParseBzImage(file).Ok?
            && var info := ParseBzImage(file).value;
            && PartsFit(|file| - info.setupBytes, info.initSize, |initramfs|, memory)
            && (|cmdline| + 1) % 0x1_0000_0000 <= info.cmdlineMax
  {
  }

  /**
   * Files are accepted exactly when the kernel's header is and each part ends by the start of the next: the kernel
   * and its working space by the initramfs, the initramfs by the end of memory and the reset page. The setup area
   * of a kernel that parsed always fits its reservation.
   */
  lemma {:induction false} PrepareOkIff(file: Bytes, initramfs: Bytes, cmdline: Bytes, memory: int)
    requires PageAligned(memory)
    ensures Prepare(file, initramfs, cmdline, memory).Ok? <==>
            && ParseBzImage(file).Ok?
            && var info := ParseBzImage(file).value;
            && KERNEL_BASE + (|file| - info.setupBytes) <= INITRAMFS_BASE
            && KERNEL_BASE + info.initSize <= INITRAMFS_BASE
            && INITRAMFS_BASE + |initramfs| <= memory && INITRAMFS_BASE + |initramfs| <= RESET_ALIAS
            && (|cmdline| + 1) % 0x1_0000_0000 <= info.cmdlineMax
  {
    PrepareOk(file, initramfs, cmdline, memory);
    if ParseBzImage(file).Ok? {
      var info := ParseBzImage(file).value;
      PartsFitIff(|file| - info.setupBytes, info.initSize, |initramfs|, memory);
    }
  }

  /** Files that are refused are refused for the first part that does not fit. */
  lemma {:induction false} RefusedFor(file: Bytes, initramfs: Bytes, cmdline: Bytes, memory: int)
    requires PageAligned(memory)
    ensures var r := Prepare(file, initramfs, cmdline, memory);
            && (forall e :: r == Err(BadKernel(e)) <==> ParseBzImage(file) == Err(e))
            && r != Err(SetupTooLarge)
            && (ParseBzImage(file).Ok? ==>
                  && var info := ParseBzImage(file).value;
                  var kernelFits := 0x100_0000 + (|file| - info.setupBytes) <= 0x2000_0000;
                  var spaceFits := 0x100_0000 + info.initSize <= 0x2000_0000;
                  var end := 0x2000_0000 + |initramfs|;
                  var inMemory, below4G := end <= memory, end <= 0xffff_f000;
                  && (r == Err(KernelTooLarge) <==> !kernelFits)
                  && (r == Err(InitSizeTooLarge) <==> kernelFits && !spaceFits)
                  && (r == Err(InitramfsPastMemory) <==> kernelFits && spaceFits && !inMemory)
                  && (r == Err(InitramfsPast4G) <==> kernelFits && spaceFits && inMemory && !below4G))
  {
    if ParseBzImage(file).Ok? {
      var info := ParseBzImage(file).value;
      PageUpBelow(KERNEL_BASE + (|file| - info.setupBytes), INITRAMFS_BASE);
      PageUpBelow(INITRAMFS_BASE + |initramfs|, memory);
      PageUpBelow(INITRAMFS_BASE + |initramfs|, RESET_ALIAS);
      PageUpAligned(INITRAMFS_BASE + |initramfs|);
    }
  }

  /** So wherever some initramfs is accepted, an empty one is. */
  lemma {:induction false} EmptyInitramfsPasses(file: Bytes, initramfs: Bytes, cmdline: Bytes, memory: int)
    requires PageAligned(memory) && Prepare(file, initramfs, cmdline, memory).Ok?
    ensures Prepare(file, [], cmdline, memory).Ok?
  {
    PrepareOkIff(file, initramfs, cmdline, memory);
    PrepareOkIff(file, [], cmdline, memory);
  }

  /** And a command line of a page or more is, by a kernel whose own limit is long enough. */
  lemma {:induction false} LongCommandLinePasses(file: Bytes, initramfs: Bytes, cmdline: Bytes, long: Bytes,
                                                 memory: int)
    requires PageAligned(memory) && Prepare(file, initramfs, cmdline, memory).Ok?
    requires PAGE <= |long| < ParseBzImage(file).value.cmdlineMax
    ensures Prepare(file, initramfs, long, memory).Ok?
  {
    PrepareOk(file, initramfs, cmdline, memory);
    PrepareOk(file, initramfs, long, memory);
  }

  /** The bytes Linux reads as a command line: up to the first zero, or all of them. */
  function CString(s: Bytes): Bytes {
    if s == [] || s[0] == 0 then [] else [s[0]] + CString(s[1..])
  }

  lemma {:induction false} CStringStops(s: Bytes, rest: Bytes)
    requires forall i :: 0 <= i < |s| ==> s[i] != 0
    ensures CString(s + [0] + rest) == s
  {
    if s != [] {
      CStringStops(s[1..], rest);
      assert (s + [0] + rest)[1..] == s[1..] + [0] + rest;
    } else {
      assert (s + [0] + rest)[0] == 0;
    }
  }

  /** The page carries the command line and its terminator exactly when they fit in it. */
  lemma {:induction false} CommandLineIffFits(cmdline: Bytes)
    requires forall i :: 0 <= i < |cmdline| ==> cmdline[i] != 0
    ensures 0 in Resized(cmdline + [0]) && CString(Resized(cmdline + [0])) == cmdline <==> |cmdline| < PAGE
  {
    var page := Resized(cmdline + [0]);
    if |cmdline| < PAGE {
      CStringStops(cmdline, Zeros(PAGE - |cmdline| - 1));
      assert page[|cmdline|] == 0;
    } else {
      assert page == cmdline[..PAGE];
    }
  }

  function MmioList(holes: seq<Hole>): (r: seq<Placed>)
    ensures |r| == |holes| && forall i :: 0 <= i < |holes| ==> r[i] == MmioAt(holes[i].base, holes[i].size)
  {
    seq(|holes|, i requires 0 <= i < |holes| => MmioAt(holes[i].base, holes[i].size))
  }

  function TdxRegions(p: Prepared, acpi: Bytes, tables: Bytes, stack: Bytes): seq<Placed> {
    [ MeasuredAt(ZERO_PAGE, "", RESERVED, Zeros(PAGE)),
      MeasuredAt(CMDLINE, "command_line", RESERVED, p.command),
      MeasuredAt(ACPI_BASE, "acpi", ACPI, acpi),
      MeasuredAt(MAILBOX, "", RESERVED, Zeros(PAGE)),
      MeasuredAt(PAGE_TABLES, "", RESERVED, tables),
      MeasuredAt(BSP_STACK, "", RESERVED, stack),
      MeasuredAt(KERNEL_SETUP_BASE, "kernel_setup", RESERVED, p.setup),
      MeasuredAt(KERNEL_BASE, "kernel", RAM, p.kernel),
      MeasuredAt(INITRAMFS_BASE, "initramfs", RAM, p.initramfs),
      MeasuredAt(RESET_ALIAS, "shim", RESERVED, Zeros(PAGE)) ]
  }

  function SnpRegions(p: Prepared, acpi: Bytes, ccBlob: Bytes, tables: Bytes, stack: Bytes): seq<Placed> {
    [ MeasuredAt(ZERO_PAGE, "", RESERVED, Zeros(PAGE)),
      MeasuredAt(CMDLINE, "command_line", RESERVED, p.command),
      MeasuredAt(ACPI_BASE, "acpi", ACPI, acpi),
      HostAt(SNP_CPUID),
      HostAt(SNP_SECRETS),
      MeasuredAt(SNP_CC_BLOB, "cc_blob", RAM, ccBlob),
      MeasuredAt(PAGE_TABLES, "", RESERVED, tables),
      MeasuredAt(BSP_STACK, "", RESERVED, stack),
      MeasuredAt(SNP_GHCB, "", RESERVED, Zeros(PAGE)),
      MeasuredAt(SHIM_BASE, "shim", RESERVED, Zeros(PAGE)),
      MeasuredAt(KERNEL_SETUP_BASE, "kernel_setup", RESERVED, p.setup),
      MeasuredAt(KERNEL_BASE, "kernel", RAM, p.kernel),
      MeasuredAt(INITRAMFS_BASE, "initramfs", RAM, p.initramfs) ]
  }

  // ---------- filling a page that describes the map ----------

  /** One region's contents replaced by as many pages of others: every view of the map stands. */
  lemma {:induction false} FillKeepsMap(was: seq<Placed>, i: nat, data: Bytes)
    requires i < |was| && was[i].fill.Measured? && was[i].(fill := Measured(data)).Span() == was[i].Span()
    ensures var now := was[i := was[i].(fill := Measured(data))];
            SpanList(now) == SpanList(was) && (Described(was) ==> Described(now)) && (NoWrap(was) ==> NoWrap(now))
  {
    var now := was[i := was[i].(fill := Measured(data))];
    assert forall j :: 0 <= j < |was| ==> SpanOf(now[j]) == SpanOf(was[j]);
    if NoWrap(was) {
      forall j | 0 <= j < |now|
        ensures now[j].base + now[j].Span() < U64_MODULUS
      {
        assert was[j].base + was[j].Span() < U64_MODULUS;
      }
    }
  }

  datatype BuildError =
    | BadMap(e: MapError)
    | TooManyEntries(n: nat)
    | BadShim(s: ShimError)
    | PagesOverlap(gpa: int)

  /** What a build derives from its map, and the map those pages went back into. */
  datatype Assembled = Assembled(placed: seq<Placed>, zero: Bytes, e820: seq<Entry>, shim: Bytes, ranges: seq<Range>)

  /** What the two builds have in common: everything from the initial map to the sorted final one. */
  datatype Plan = Plan(setup: Bytes, initSize: U32, initramfsLen: nat, setupData: U64, entry: U64, shimBase: U64)

  /** The blank page a build will fill: the only region at its base, one page long. */
  ghost predicate Blank(placed: seq<Placed>, i: nat, base: int) {
    i < |placed| && FirstAt(placed, base) == i && placed[i].fill.Measured? && |placed[i].fill.data| == PAGE
  }

  method FillPage(regions: array<Placed>, base: U64, page: Bytes, ghost i: nat) returns (r: Result<(), MapError>)
    requires Blank(regions[..], i, base) && |page| == PAGE
    modifies regions
    ensures r.Ok?
    ensures regions[..] == old(regions[..])[i := old(regions[..])[i].(fill := Measured(page))]
    ensures SpanList(regions[..]) == SpanList(old(regions[..]))
    ensures Described(old(regions[..])) ==> Described(regions[..])
    ensures NoWrap(old(regions[..])) ==> NoWrap(regions[..])
  {
    FillKeepsMap(regions[..], i, page);
    r := FillRegion(regions, base, page);
  }

  lemma {:induction false} FillKeepsBlank(was: seq<Placed>, i: nat, data: Bytes, j: nat, base: int)
    requires i < |was| && i != j && Blank(was, j, base)
    ensures Blank(was[i := was[i].(fill := Measured(data))], j, base)
  {
    var now := was[i := was[i].(fill := Measured(data))];
    assert now[j] == was[j];
    FirstAtIs(now, base, j);
  }

  /** The initial regions with the two blank pages filled. */
  function BothFilled(initial: seq<Placed>, i: nat, zero: Bytes, j: nat, shim: Bytes): (r: seq<Placed>)
    requires i < |initial| && j < |initial|
    ensures |r| == |initial|
    ensures forall k :: 0 <= k < |initial| && k != i && k != j ==> r[k] == initial[k]
  {
    var once := initial[i := initial[i].(fill := Measured(zero))];
    once[j := once[j].(fill := Measured(shim))]
  }

  /** The final map's regions: those, in base order. */
  function Filled(initial: seq<Placed>, i: nat, zero: Bytes, j: nat, shim: Bytes): seq<Placed>
    requires i < |initial| && j < |initial|
  {
    SortByBase(BothFilled(initial, i, zero, j, shim))
  }

  /** The two pages decode to the views derived, whatever those are. */
  ghost predicate Decodes(a: Assembled, plan: Plan, blob: Bytes) {
    && |a.zero| == PAGE && a.zero[Zero.BP_E820_ENTRIES] <= Zero.E820_MAX && Zero.DecodeE820(a.zero) == a.e820
    && Zero.IsZeroPage(a.zero, plan.setup, plan.initSize, plan.initramfsLen, ACPI_BASE, a.e820, plan.setupData)
    && IsShimPage(a.shim, blob, plan.entry, a.ranges)
    && Walk(a.shim, SHIM_DATA + 8) == Some(a.ranges)
  }

  /** And those are the views of the map that holds the pages. */
  ghost predicate SelfDescribed(a: Assembled, memory: int, plan: Plan, blob: Bytes) {
    && Lawful(a.placed, memory)
    && IsE820(a.e820, a.placed, memory)
    && IsAcceptList(a.ranges, a.placed, memory)
    && Decodes(a, plan, blob)
  }

  lemma {:induction false} SortKeepsSpans(initial: seq<Placed>, filled: seq<Placed>)
    requires SpanList(filled) == SpanList(initial)
    ensures Spans(SortByBase(filled)) == Spans(initial)
  {
    SortByBaseSpans(filled);
    SameSpans(SortByBase(filled), initial);
  }

  /** Both fills and the sort: the pages computed from one map, and the map they end up in. */
  method FillBoth(initial: seq<Placed>, shimBase: U64, zero: Bytes, e820: seq<Entry>, ghost i: nat, ghost j: nat,
                  memory: U64, entry: U64, blob: Bytes)
    returns (r: Result<Assembled, BuildError>)
    requires Blank(initial, i, ZERO_PAGE) && Blank(initial, j, shimBase) && i != j
    requires |zero| == PAGE && |blob| == PAGE
    ensures |initial| <= 60 ==> !(r.Err? && r.error.BadShim? && r.error.s.BlockTooLarge?)
    ensures r.Err? ==> r.error.BadShim?
    ensures |initial| <= 60 && RoomForData(blob) ==> r.Ok?
    ensures r.Ok? ==>
              && r.value.placed == Filled(initial, i, zero, j, r.value.shim)
              && r.value.zero == zero && r.value.e820 == e820
              && SpanList(BothFilled(initial, i, zero, j, r.value.shim)) == SpanList(initial)
              && r.value.ranges == AcceptList(Spans(initial), memory)
              && IsShimPage(r.value.shim, blob, entry, r.value.ranges)
  {
    var regions := new Placed[|initial|](k requires 0 <= k < |initial| => initial[k]);
    assert regions[..] == initial;
    FillKeepsBlank(initial, i, zero, j, shimBase);
    var filled := FillPage(regions, ZERO_PAGE, zero, i);
    var ranges := AcceptRanges(regions[..], memory);
    var packed := Shim(blob, entry, ranges);
    if packed.Err? {
      return Err(BadShim(packed.error));
    }
    RangesEncode(ranges, memory);
    filled := FillPage(regions, shimBase, packed.value, j);
    return Ok(Assembled(SortByBase(regions[..]), zero, e820, packed.value, ranges));
  }

  lemma {:induction false} RangesEncode(ranges: seq<Range>, memory: U64)
    requires forall r :: r in ranges ==> 0 <= r.lo < r.hi <= memory
    ensures Encodable(ranges)
  {
    forall i | 0 <= i < |ranges|
      ensures 0 <= ranges[i].lo < ranges[i].hi < U64_MODULUS
    {
      assert ranges[i] in ranges;
    }
  }

  predicate OnePage(p: Placed) { p.fill.Measured? && |p.fill.data| == PAGE }

  /** What filling leaves of a region: where it is, how long, and of what type. */
  predicate Matches(p: Placed, q: Placed) {
    && p.base == q.base && p.Span() == q.Span() && p.e820 == q.e820
    && (p.fill.Mmio? <==> q.fill.Mmio?) && (q.fill.Mmio? ==> p == q)
  }

  lemma {:induction false} SortedFrom(s: seq<Placed>, m: nat) returns (k: nat)
    requires m < |SortByBase(s)|
    ensures k < |s| && SortByBase(s)[m] == s[k]
  {
    assert SortByBase(s)[m] in multiset(s);
    k :| 0 <= k < |s| && s[k] == SortByBase(s)[m];
  }

  lemma {:induction false} FilledMatches(initial: seq<Placed>, i: nat, zero: Bytes, j: nat, shim: Bytes, k: nat)
    requires i < |initial| && j < |initial| && i != j && OnePage(initial[i]) && OnePage(initial[j])
    requires |zero| == PAGE && |shim| == PAGE && k < |initial|
    ensures Matches(BothFilled(initial, i, zero, j, shim)[k], initial[k])
  {
  }

  /** Each final region is a listed one, filled or not. */
  lemma {:induction false} FilledFrom(initial: seq<Placed>, i: nat, zero: Bytes, j: nat, shim: Bytes, m: nat)
    returns (k: nat)
    requires i < |initial| && j < |initial| && i != j && OnePage(initial[i]) && OnePage(initial[j])
    requires |zero| == PAGE && |shim| == PAGE && m < |Filled(initial, i, zero, j, shim)|
    ensures k < |initial| && Matches(Filled(initial, i, zero, j, shim)[m], initial[k])
  {
    k := SortedFrom(BothFilled(initial, i, zero, j, shim), m);
    FilledMatches(initial, i, zero, j, shim, k);
  }

  /** The E820 map of a listing, and the zero page that carries it. */
  method DescribeRam(initial: seq<Placed>, memory: U64, plan: Plan) returns (e820: seq<Entry>, page: Result<Bytes, nat>)
    requires |plan.setup| >= Zero.SETUP_HEADER_END
    ensures page.Err? ==> |initial| > 60
    ensures e820 == E820List(Spans(initial), memory) && InBounds(e820, memory)
    ensures page.Ok? ==>
              && Zero.IsZeroPage(page.value, plan.setup, plan.initSize, plan.initramfsLen, ACPI_BASE, e820,
                                 plan.setupData)
              && |page.value| == PAGE && page.value[Zero.BP_E820_ENTRIES] <= Zero.E820_MAX
              && Zero.DecodeE820(page.value) == e820
  {
    e820 := E820(initial, memory);
    assert Zero.EntriesFit(e820) by {
      forall k | 0 <= k < |e820|
        ensures Zero.EntryFits(e820[k])
      {
        assert e820[k] in e820;
      }
    }
    page := Zero.Build(plan.setup, plan.initSize, plan.initramfsLen, ACPI_BASE, e820, plan.setupData);
  }

  /** What a build makes of any listing that passes validation: both sweeps, and the two pages that carry them. */
  ghost predicate IsAssembled(a: Assembled, initial: seq<Placed>, i: nat, j: nat, memory: int, plan: Plan, blob: Bytes)
  {
    && i < |initial| && j < |initial| && a.placed == Filled(initial, i, a.zero, j, a.shim)
    && Spans(a.placed) == Spans(initial) && AdjacentDisjoint(Spans(initial)) && AlignedAndInside(initial, memory)
    && a.e820 == E820List(Spans(initial), memory) && InBounds(a.e820, memory)
    && a.ranges == AcceptList(Spans(initial), memory)
    && Decodes(a, plan, blob) && |a.shim| == PAGE
  }

  lemma {:induction false} FilledInside(initial: seq<Placed>, i: nat, zero: Bytes, j: nat, shim: Bytes, memory: int)
    requires i < |initial| && j < |initial| && i != j && OnePage(initial[i]) && OnePage(initial[j])
    requires |zero| == PAGE && |shim| == PAGE && AlignedAndInside(initial, memory)
    ensures AlignedAndInside(Filled(initial, i, zero, j, shim), memory)
  {
    forall m | 0 <= m < |Filled(initial, i, zero, j, shim)|
      ensures exists k :: 0 <= k < |initial| && initial[k].base == Filled(initial, i, zero, j, shim)[m].base
    {
      var k := FilledFrom(initial, i, zero, j, shim, m);
    }
  }

  lemma {:induction false} FilledDescribed(initial: seq<Placed>, i: nat, zero: Bytes, j: nat, shim: Bytes)
    requires i < |initial| && j < |initial| && i != j && OnePage(initial[i]) && OnePage(initial[j])
    requires |zero| == PAGE && |shim| == PAGE && Described(initial) && NoFullTurn(initial)
    ensures Described(Filled(initial, i, zero, j, shim)) && NoFullTurn(Filled(initial, i, zero, j, shim))
  {
    forall m | 0 <= m < |Filled(initial, i, zero, j, shim)|
      ensures exists k :: 0 <= k < |initial| && Matches(Filled(initial, i, zero, j, shim)[m], initial[k])
    {
      var k := FilledFrom(initial, i, zero, j, shim, m);
    }
  }

  /** A build without the apertures that wrap. */
  function Pruned(a: Assembled): Assembled { a.(placed := Trim(a.placed)) }

  /** Where they do no harm, the image describes its map without them. */
  lemma {:induction false} TrimmedDescribes(a: Assembled, initial: seq<Placed>, i: nat, j: nat, memory: int, plan: Plan,
                                            blob: Bytes)
    requires IsAssembled(a, initial, i, j, memory, plan, blob) && PageAligned(memory) && memory >= 0
    requires i != j && OnePage(initial[i]) && OnePage(initial[j]) && Described(initial) && NoFullTurn(initial)
    requires Harmless(SpanList(initial), memory)
    ensures SelfDescribed(Pruned(a), memory, plan, blob)
  {
    FilledInside(initial, i, a.zero, j, a.shim, memory);
    FilledDescribed(initial, i, a.zero, j, a.shim);
    TrimIsLawful(a.placed, memory);
    AcceptListIff(initial, memory);
    HarmlessForBoth(SpanList(initial), memory);
    E820ListIff(initial, memory);
    TrimMeans(a.placed, memory, a.e820, a.ranges);
  }

  /** Validation, the E820 map and its page, then the fills: a build up to the pages it imports. */
  method Assemble(initial: seq<Placed>, memory: U64, plan: Plan, blob: Bytes, ghost i: nat, ghost j: nat)
    returns (r: Result<Assembled, BuildError>)
    requires Blank(initial, i, ZERO_PAGE) && Blank(initial, j, plan.shimBase) && i != j
    requires |blob| == PAGE && |plan.setup| >= Zero.SETUP_HEADER_END
    ensures r.Err? && r.error.BadMap? <==> !(AdjacentDisjoint(Spans(initial)) && AlignedAndInside(initial, memory))
    ensures !(r.Err? && r.error.PagesOverlap?)
    ensures |initial| <= 60 && RoomForData(blob) ==> r.Ok? || r.error.BadMap?
    ensures |initial| <= 60 ==>
              !(r.Err? && r.error.TooManyEntries?) && !(r.Err? && r.error.BadShim? && r.error.s.BlockTooLarge?)
    ensures r.Ok? ==> IsAssembled(r.value, initial, i, j, memory, plan, blob)
  {
    var valid := Validate(initial, memory);
    if valid.Err? {
      return Err(BadMap(valid.error));
    }
    var e820, page := DescribeRam(initial, memory, plan);
    if page.Err? {
      return Err(TooManyEntries(page.error));
    }
    r := FillBoth(initial, plan.shimBase, page.value, e820, i, j, memory, plan.entry, blob);
    if r.Ok? {
      SortKeepsSpans(initial, BothFilled(initial, i, r.value.zero, j, r.value.shim));
      ShimRoundTrip(r.value.shim, blob, plan.entry, r.value.ranges);
    }
  }
}
