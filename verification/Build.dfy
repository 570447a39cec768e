/** The two builds, from checked parameters to an image a shim can boot. */
module Build {
  import opened Wrappers
  import opened Layout
  import opened Bytes
  import opened Paging
  import opened Placement
  import opened MapTheorems
  import opened Pages
  import opened Partition
  import opened ShimBlock
  import opened Params
  import opened Image
  import opened Regions
  import opened Admission
  import opened Wrapping
  import opened Trimming
  import opened Launch
  import opened Offers
  import opened Coverage
  import opened Conservation
  import opened RequiredMemory
  import Tables = IdentityMap
  import Measure = SnpMeasure
  import Mrtd

  /** A finished image: its map, the pages and memory it asks a loader for, and the digest it is published with. */
  datatype Built = Built(a: Assembled, pages: seq<LaunchPage>, required: seq<Directive>, digest: Bytes)

  /** Where a platform's listing has its stack, which the page tables come before, and the three parts of the kernel. */
  datatype Shelf = Shelf(stack: nat, setup: nat)

  const TDX_SHELF := Shelf(5, 6)
  const SNP_SHELF := Shelf(7, 10)

  /** The listing's `i`-th region, which is not one of the two to be filled. */
  ghost predicate Lists(initial: seq<Placed>, i: nat, base: int, data: Bytes) {
    i < |initial| && i != 0 && i != 9 && initial[i].base == base && initial[i].fill == Measured(data)
  }

  /** What a listing needs of the regions a shim relies on. */
  ghost predicate Startable(initial: seq<Placed>, plan: Plan, m: Mode, tables: Bytes, stack: Bytes, at: Shelf) {
    && |initial| > 9 && Blank(initial, 0, ZERO_PAGE) && Blank(initial, 9, plan.shimBase)
    && at.stack > 0 && Lists(initial, at.stack, BSP_STACK, stack) && |stack| == BSP_STACK_SIZE
    && Lists(initial, at.stack - 1, PAGE_TABLES, tables) && Tables.IsMap(tables, m.cbit, m.alias)
  }

  function TdxPlan(p: Prepared): Plan {
    Plan(p.setup, p.info.initSize, |p.initramfs|, 0, p.entry, RESET_ALIAS)
  }

  function SnpPlan(p: Prepared): Plan {
    Plan(p.setup, p.info.initSize, |p.initramfs|, SNP_CC_BLOB, p.entry, SHIM_BASE)
  }

  /** And of those the kernel reads. */
  ghost predicate Stocked(initial: seq<Placed>, p: Prepared, acpi: Bytes, at: Shelf) {
    && |initial| > 9 && initial[0].base == ZERO_PAGE
    && Lists(initial, 1, CMDLINE, p.command) && Lists(initial, 2, ACPI_BASE, acpi)
    && Lists(initial, at.setup, KERNEL_SETUP_BASE, p.setup)
    && Lists(initial, at.setup + 1, KERNEL_BASE, p.kernel)
    && Lists(initial, at.setup + 2, INITRAMFS_BASE, p.initramfs)
  }

  lemma {:induction false} TdxStarts(p: Prepared, acpi: Bytes, tables: Bytes, stack: Bytes, tail: seq<Placed>)
    requires |stack| == BSP_STACK_SIZE && Tables.IsMap(tables, 0, false)
    ensures var initial := TdxRegions(p, acpi, tables, stack) + tail;
            && Startable(initial, TdxPlan(p), TDX_MODE, tables, stack, TDX_SHELF)
            && Stocked(initial, p, acpi, TDX_SHELF)
  {
    var initial := TdxRegions(p, acpi, tables, stack) + tail;
    FirstAtIs(initial, ZERO_PAGE, 0);
    FirstAtIs(initial, RESET_ALIAS, 9);
  }

  lemma {:induction false} SnpStarts(p: Prepared, acpi: Bytes, ccBlob: Bytes, tables: Bytes, stack: Bytes,
                                     tail: seq<Placed>, cbit: nat)
    requires |stack| == BSP_STACK_SIZE && Tables.IsMap(tables, cbit, true)
    ensures var initial := SnpRegions(p, acpi, ccBlob, tables, stack) + tail;
            && Startable(initial, SnpPlan(p), SnpMode(cbit), tables, stack, SNP_SHELF)
            && Stocked(initial, p, acpi, SNP_SHELF)
  {
    var initial := SnpRegions(p, acpi, ccBlob, tables, stack) + tail;
    FirstAtIs(initial, ZERO_PAGE, 0);
    FirstAtIs(initial, SHIM_BASE, 9);
  }

  lemma {:induction false} TdxHasNoHost(p: Prepared, acpi: Bytes, tables: Bytes, stack: Bytes, holes: seq<Hole>)
    ensures NoHost(TdxRegions(p, acpi, tables, stack) + MmioList(holes))
  {
    var regions := TdxRegions(p, acpi, tables, stack);
    forall x | x in regions + MmioList(holes)
      ensures !x.fill.Host?
    {
      assert x in regions ==> x.fill.Measured?;
    }
  }

  /** A region of the filled, unsorted map is held by the final one. */
  lemma {:induction false} SortedHolds(regions: seq<Placed>, i: nat) returns (k: nat)
    requires i < |regions| && regions[i].fill.Measured?
    ensures Holds(SortByBase(regions), k, regions[i].base, regions[i].fill.data)
  {
    var sorted := SortByBase(regions);
    assert regions[i] in multiset(sorted);
    k :| 0 <= k < |sorted| && sorted[k] == regions[i];
  }

  /** What was listed is in the final map, whatever the sort did. */
  lemma {:induction false} RegionStays(initial: seq<Placed>, a: Assembled, i: nat, base: int, data: Bytes)
    requires |initial| > 9 && Lists(initial, i, base, data)
    requires a.placed == Filled(initial, 0, a.zero, 9, a.shim)
    ensures HoldsAt(a.placed, base, data)
  {
    var k := SortedHolds(BothFilled(initial, 0, a.zero, 9, a.shim), i);
  }

  lemma {:induction false} KeepsShim(initial: seq<Placed>, a: Assembled, plan: Plan, m: Mode, tables: Bytes,
                                     stack: Bytes,
                                     at: Shelf)
    requires Startable(initial, plan, m, tables, stack, at)
    requires a.placed == Filled(initial, 0, a.zero, 9, a.shim)
    ensures HoldsAt(a.placed, plan.shimBase, a.shim) && HoldsStack(a.placed) && HoldsTables(a.placed, m)
  {
    var k := SortedHolds(BothFilled(initial, 0, a.zero, 9, a.shim), 9);
    RegionStays(initial, a, at.stack, BSP_STACK, stack);
    RegionStays(initial, a, at.stack - 1, PAGE_TABLES, tables);
  }

  // ---------- which images leave no page out ----------

  lemma {:induction false} NoEmptyPermutes(s: seq<Placed>, t: seq<Placed>)
    requires multiset(s) == multiset(t) && NoEmptyRegion(s)
    ensures NoEmptyRegion(t)
  {
    forall k | 0 <= k < |t| && t[k].fill.Measured?
      ensures t[k].fill.data != []
    {
      assert t[k] in multiset(s);
    }
  }

  ghost predicate NoEmptyBeyondFilled(initial: seq<Placed>) {
    forall i :: 0 <= i < |initial| && i != 0 && i != 9 && initial[i].fill.Measured? ==> initial[i].fill.data != []
  }

  /** The two filled pages are never empty, so only the regions that were listed empty can be. */
  lemma {:induction false} FilledEmptyIff(initial: seq<Placed>, zero: Bytes, shim: Bytes)
    requires |initial| > 9 && zero != [] && shim != []
    ensures NoEmptyRegion(Filled(initial, 0, zero, 9, shim)) <==> NoEmptyBeyondFilled(initial)
  {
    var filled := BothFilled(initial, 0, zero, 9, shim);
    var sorted := SortByBase(filled);
    BothFilledEmptyIff(initial, zero, shim);
    if NoEmptyRegion(filled) {
      NoEmptyPermutes(filled, sorted);
    }
    if NoEmptyRegion(sorted) {
      NoEmptyPermutes(sorted, filled);
    }
  }

  lemma {:induction false} BothFilledEmptyIff(initial: seq<Placed>, zero: Bytes, shim: Bytes)
    requires |initial| > 9 && zero != [] && shim != []
    ensures NoEmptyRegion(BothFilled(initial, 0, zero, 9, shim)) <==> NoEmptyBeyondFilled(initial)
  {
    var filled := BothFilled(initial, 0, zero, 9, shim);
    if NoEmptyRegion(filled) {
      forall i | 0 <= i < |initial| && i != 0 && i != 9 && initial[i].fill.Measured?
        ensures initial[i].fill.data != []
      {
        assert filled[i] == initial[i];
      }
    }
  }

  lemma {:induction false} FilledPagesExist(a: Assembled, memory: int, plan: Plan, blob: Bytes)
    requires SelfDescribed(a, memory, plan, blob)
    ensures a.zero != [] && a.shim != []
  {
  }

  /** An image leaves no page out exactly when neither the kernel nor the initramfs is empty. */
  ghost predicate Whole(p: Prepared) { p.kernel != [] && p.initramfs != [] }

  lemma {:induction false} TdxEmptyIff(params: Params, p: Prepared, acpi: Bytes, tables: Bytes, stack: Bytes)
    requires Sized(p) && |acpi| == PAGE && |tables| >= PAGE && |stack| == BSP_STACK_SIZE
    ensures NoEmptyBeyondFilled(TdxRegions(p, acpi, tables, stack) + MmioList(params.mmio)) <==> Whole(p)
  {
    var regions := TdxRegions(p, acpi, tables, stack);
    var initial := regions + MmioList(params.mmio);
    assert initial[7] == regions[7] && initial[8] == regions[8];
    if Whole(p) {
      forall i | 0 <= i < |initial| && i != 0 && i != 9 && initial[i].fill.Measured?
        ensures initial[i].fill.data != []
      {
        assert i < 10;
      }
    }
  }

  lemma {:induction false} SnpEmptyIff(params: Params, p: Prepared, acpi: Bytes, ccBlob: Bytes, tables: Bytes,
                                       stack: Bytes)
    requires Sized(p) && |acpi| == PAGE && |ccBlob| == PAGE && |tables| >= PAGE && |stack| == BSP_STACK_SIZE
    ensures NoEmptyBeyondFilled(SnpRegions(p, acpi, ccBlob, tables, stack) + MmioList(params.mmio)) <==> Whole(p)
  {
    var regions := SnpRegions(p, acpi, ccBlob, tables, stack);
    var initial := regions + MmioList(params.mmio);
    assert initial[11] == regions[11] && initial[12] == regions[12];
    if Whole(p) {
      forall i | 0 <= i < |initial| && i != 0 && i != 9 && initial[i].fill.Measured?
        ensures initial[i].fill.data != []
      {
        assert i < 13;
      }
    }
  }

  /** Filling and sorting put nothing in a map that loaders must provide. */
  lemma {:induction false} FilledHasNoHost(initial: seq<Placed>, i: nat, zero: Bytes, j: nat, shim: Bytes)
    requires i < |initial| && j < |initial| && NoHost(initial)
    ensures NoHost(Filled(initial, i, zero, j, shim))
  {
    var filled := BothFilled(initial, i, zero, j, shim);
    var sorted := SortByBase(filled);
    forall k | 0 <= k < |sorted|
      ensures !sorted[k].fill.Host?
    {
      assert sorted[k] in multiset(filled);
    }
  }

  /** Every byte of the address map is accounted for: listed or aperture, and if listed, imported or accepted. */
  ghost predicate Accounted(a: Assembled, params: Params) {
    var listed := Total(EntryRanges(a.e820));
    && listed == params.memory - HoleBytes(params.mmio)
    && (NoEmptyRegion(a.placed) ==>
          listed == Total(a.ranges) + PAGE * |PagesBelow(LaunchList(a.placed), params.memory)|)
  }

  lemma {:induction false} ImageIsAccounted(regions: seq<Placed>, a: Assembled, params: Params, plan: Plan, blob: Bytes)
    requires |regions| > 9 && NoneMmio(regions) && Usable(params)
    requires SelfDescribed(a, params.memory, plan, blob)
    requires a.placed == Filled(regions + MmioList(params.mmio), 0, a.zero, 9, a.shim)
    ensures Accounted(a, params)
  {
    InsideIffNoWrap(params.mmio, params.memory);
    FilledApertures(regions, params.mmio, 0, a.zero, 9, a.shim, params.memory);
    E820IsMemoryLessMmio(a.placed, params.memory, a.e820);
    SortByBaseSorted(BothFilled(regions + MmioList(params.mmio), 0, a.zero, 9, a.shim));
    if NoEmptyRegion(a.placed) {
      E820IsImportedPlusAccepted(a.placed, params.memory, a.e820, a.ranges);
    }
  }

  /** Everything a kernel is made of or reads is in the final map. */
  ghost predicate Furnished(a: Assembled, p: Prepared, acpi: Bytes) {
    && HoldsAt(a.placed, ZERO_PAGE, a.zero) && HoldsAt(a.placed, CMDLINE, p.command)
    && HoldsAt(a.placed, ACPI_BASE, acpi) && HoldsAt(a.placed, KERNEL_SETUP_BASE, p.setup)
    && HoldsAt(a.placed, KERNEL_BASE, p.kernel) && HoldsAt(a.placed, INITRAMFS_BASE, p.initramfs)
  }

  lemma {:induction false} ImageIsFurnished(initial: seq<Placed>, a: Assembled, p: Prepared, acpi: Bytes, at: Shelf)
    requires Stocked(initial, p, acpi, at) && a.placed == Filled(initial, 0, a.zero, 9, a.shim)
    ensures Furnished(a, p, acpi)
  {
    var k := SortedHolds(BothFilled(initial, 0, a.zero, 9, a.shim), 0);
    RegionStays(initial, a, 1, CMDLINE, p.command);
    RegionStays(initial, a, 2, ACPI_BASE, acpi);
    RegionStays(initial, a, at.setup, KERNEL_SETUP_BASE, p.setup);
    RegionStays(initial, a, at.setup + 1, KERNEL_BASE, p.kernel);
    RegionStays(initial, a, at.setup + 2, INITRAMFS_BASE, p.initramfs);
  }

  /** A page below `memory` is left out exactly when the kernel or the initramfs is empty. */
  lemma {:induction false} WholeIff(a: Assembled, p: Prepared, acpi: Bytes, memory: int)
    requires Furnished(a, p, acpi) && memory > INITRAMFS_BASE && (NoEmptyRegion(a.placed) <==> Whole(p))
    ensures NoEmptyBelow(a.placed, memory) <==> Whole(p)
  {
    var k: nat :| Holds(a.placed, k, KERNEL_BASE, p.kernel);
    var j: nat :| Holds(a.placed, j, INITRAMFS_BASE, p.initramfs);
  }

  /** What a finished build is, whatever its platform. */
  ghost predicate Completed(a: Assembled, params: Params, p: Prepared, plan: Plan, m: Mode, blob: Bytes) {
    && Bootable(a, params.memory, plan, m, blob)
    && (NoEmptyRegion(a.placed) <==> Whole(p))
    && (NoEmptyBelow(a.placed, params.memory) <==> Whole(p))
    && Accounted(a, params)
  }

  /** What each platform's regions are, for the rest of the build to rely on. */
  ghost predicate Listing(regions: seq<Placed>, params: Params, p: Prepared, acpi: Bytes, plan: Plan, m: Mode,
                          tables: Bytes, stack: Bytes, at: Shelf)
  {
    var initial := regions + MmioList(params.mmio);
    && |regions| > 9 && Startable(initial, plan, m, tables, stack, at) && Stocked(initial, p, acpi, at)
    && (forall i :: 0 <= i < |regions| ==> OwnRegion(regions[i]))
    && (NoEmptyBeyondFilled(initial) <==> Whole(p))
  }

  lemma {:induction false} TdxLists(params: Params, p: Prepared, acpi: Bytes, tables: Bytes, stack: Bytes)
    requires Sized(p) && |acpi| == PAGE && |stack| == BSP_STACK_SIZE && Tables.IsMap(tables, 0, false)
    ensures Listing(TdxRegions(p, acpi, tables, stack), params, p, acpi, TdxPlan(p), TDX_MODE, tables, stack, TDX_SHELF)
    ensures NoHost(TdxRegions(p, acpi, tables, stack) + MmioList(params.mmio))
  {
    TdxRegionsOk(p, acpi, tables, stack);
    TdxStarts(p, acpi, tables, stack, MmioList(params.mmio));
    TdxEmptyIff(params, p, acpi, tables, stack);
    TdxHasNoHost(p, acpi, tables, stack, params.mmio);
  }

  lemma {:induction false} SnpLists(params: Params, p: Prepared, acpi: Bytes, ccBlob: Bytes, tables: Bytes,
                                    stack: Bytes)
    requires Sized(p) && |acpi| == PAGE && |ccBlob| == PAGE && |stack| == BSP_STACK_SIZE
    requires Tables.IsMap(tables, params.cbit, true)
    ensures Listing(SnpRegions(p, acpi, ccBlob, tables, stack), params, p, acpi, SnpPlan(p), SnpMode(params.cbit),
                    tables, stack, SNP_SHELF)
  {
    SnpRegionsOk(p, acpi, ccBlob, tables, stack);
    SnpStarts(p, acpi, ccBlob, tables, stack, MmioList(params.mmio), params.cbit);
    SnpEmptyIff(params, p, acpi, ccBlob, tables, stack);
  }

  /** What an assembled map is whatever the apertures asked for. */
  ghost predicate Sealed(a: Assembled, params: Params, p: Prepared, acpi: Bytes, plan: Plan, m: Mode, blob: Bytes) {
    && Furnished(a, p, acpi) && Decodes(a, plan, blob)
    && a.e820 == E820List(Spans(a.placed), params.memory) && a.ranges == AcceptList(Spans(a.placed), params.memory)
    && HoldsAt(a.placed, plan.shimBase, a.shim) && HoldsStack(a.placed) && HoldsTables(a.placed, m)
    && Measure.Addressable(LaunchList(a.placed)) && Ascending(LaunchList(a.placed))
    && OnlyAperturesWrap(a.placed)
  }

  lemma {:induction false} ImageIsSealed(regions: seq<Placed>, a: Assembled, params: Params, p: Prepared, acpi: Bytes,
                                         plan: Plan, m: Mode, blob: Bytes, tables: Bytes, stack: Bytes, at: Shelf)
    requires Listing(regions, params, p, acpi, plan, m, tables, stack, at)
    requires IsAssembled(a, regions + MmioList(params.mmio), 0, 9, params.memory, plan, blob)
    ensures Sealed(a, params, p, acpi, plan, m, blob)
  {
    var initial := regions + MmioList(params.mmio);
    ImageIsFurnished(initial, a, p, acpi, at);
    KeepsShim(initial, a, plan, m, tables, stack, at);
    FilledAddressable(regions, params.mmio, a.zero, a.shim, params.memory);
    FilledAscending(regions, params.mmio, a.zero, a.shim, params.memory);
    FilledTrims(regions, params.mmio, a.zero, a.shim, params.memory);
  }

  lemma {:induction false} Finishes(regions: seq<Placed>, a: Assembled, params: Params, p: Prepared, acpi: Bytes,
                                    plan: Plan, m: Mode, blob: Bytes, tables: Bytes, stack: Bytes, at: Shelf)
    requires Listing(regions, params, p, acpi, plan, m, tables, stack, at) && Usable(params)
    requires SelfDescribed(a, params.memory, plan, blob)
    requires a.placed == Filled(regions + MmioList(params.mmio), 0, a.zero, 9, a.shim)
    ensures Completed(a, params, p, plan, m, blob)
  {
    var initial := regions + MmioList(params.mmio);
    KeepsShim(initial, a, plan, m, tables, stack, at);
    ImageIsFurnished(initial, a, p, acpi, at);
    ListingOwn(regions);
    ImageIsAccounted(regions, a, params, plan, blob);
    FilledPagesExist(a, params.memory, plan, blob);
    FilledEmptyIff(initial, a.zero, a.shim);
    WholeIff(a, p, acpi, params.memory);
  }

  /** Trimmed, a filled map is the one filled from what does not wrap. */
  lemma {:induction false} FilledTrimmed(regions: seq<Placed>, holes: seq<Hole>, zero: Bytes, shim: Bytes)
    requires |regions| > 9 && forall i :: 0 <= i < |regions| ==> OwnRegion(regions[i])
    requires |zero| == PAGE && |shim| == PAGE
    ensures Trim(Filled(regions + MmioList(holes), 0, zero, 9, shim)) ==
            Filled(regions + MmioList(Unwrapped(holes)), 0, zero, 9, shim)
  {
    var filled := BothFilled(regions, 0, zero, 9, shim);
    FilledJoin(regions, MmioList(holes), 0, zero, 9, shim);
    FilledJoin(regions, MmioList(Unwrapped(holes)), 0, zero, 9, shim);
    OwnStays(regions, zero, shim);
    TrimListing(filled, holes);
    SortTrims(filled + MmioList(holes));
  }

  lemma {:induction false} OwnStays(regions: seq<Placed>, zero: Bytes, shim: Bytes)
    requires |regions| > 9 && forall i :: 0 <= i < |regions| ==> OwnRegion(regions[i])
    requires |zero| == PAGE && |shim| == PAGE
    ensures forall p :: p in BothFilled(regions, 0, zero, 9, shim) ==> !Wraps(p)
  {
    var filled := BothFilled(regions, 0, zero, 9, shim);
    forall i | 0 <= i < |filled|
      ensures !Wraps(filled[i])
    {
      assert OwnRegion(regions[i]) && regions[i].Span() >= PAGE;
    }
  }

  /** Where the apertures that wrap do no harm, a build without them is finished in every respect. */
  lemma {:induction false} TrimmedFinishes(regions: seq<Placed>, a: Assembled, params: Params, p: Prepared, acpi: Bytes,
                                           plan: Plan, m: Mode, blob: Bytes, tables: Bytes, stack: Bytes, at: Shelf)
    requires Listing(regions, params, p, acpi, plan, m, tables, stack, at) && Checks(params)
    requires Listing(regions, Plain(params), p, acpi, plan, m, tables, stack, at)
    requires IsAssembled(a, regions + MmioList(params.mmio), 0, 9, params.memory, plan, blob)
    requires Harmless(SpanList(regions + MmioList(params.mmio)), params.memory)
    ensures Completed(Pruned(a), Plain(params), p, plan, m, blob)
  {
    RegionsOk(regions, params.mmio, params);
    TrimmedDescribes(a, regions + MmioList(params.mmio), 0, 9, params.memory, plan, blob);
    FilledTrimmed(regions, params.mmio, a.zero, a.shim);
    PlainUsable(params);
    Finishes(regions, Pruned(a), Plain(params), p, acpi, plan, m, blob, tables, stack, at);
  }

  /** No region's pages run past the address space, whatever the apertures do... */
  lemma {:induction false} FilledAddressable(regions: seq<Placed>, holes: seq<Hole>, zero: Bytes, shim: Bytes,
                                             memory: int)
    requires |regions| > 9 && forall i :: 0 <= i < |regions| ==> OwnRegion(regions[i])
    requires |zero| == PAGE && |shim| == PAGE && AlignedAndInside(regions + MmioList(holes), memory)
    ensures Measure.Addressable(LaunchList(Filled(regions + MmioList(holes), 0, zero, 9, shim)))
  {
    var placed := Filled(regions + MmioList(holes), 0, zero, 9, shim);
    forall page | page in LaunchList(placed)
      ensures 0 <= page.gpa < U64_MODULUS
    {
      var k := LaunchSource(placed, page);
      SortedAddressable(regions, holes, zero, shim, memory, k);
      PagesInside(placed[k], page);
    }
  }

  /** ...and no two of them meet, so the check before the digest never refuses. */
  lemma {:induction false} FilledAscending(regions: seq<Placed>, holes: seq<Hole>, zero: Bytes, shim: Bytes,
                                           memory: int)
    requires |regions| > 9 && forall i :: 0 <= i < |regions| ==> OwnRegion(regions[i])
    requires |zero| == PAGE && |shim| == PAGE && AlignedAndInside(regions + MmioList(holes), memory)
    requires AdjacentDisjoint(Spans(Filled(regions + MmioList(holes), 0, zero, 9, shim)))
    ensures Ascending(LaunchList(Filled(regions + MmioList(holes), 0, zero, 9, shim)))
  {
    var filled := BothFilled(regions + MmioList(holes), 0, zero, 9, shim);
    var placed := SortByBase(filled);
    AdjacentCheckIsPairwise(placed);
    SortByBaseSorted(filled);
    forall k | 0 <= k < |placed| && !placed[k].fill.Mmio?
      ensures PageAligned(placed[k].base) && placed[k].base + placed[k].Span() < U64_MODULUS
    {
      SortedAddressable(regions, holes, zero, shim, memory, k);
    }
    InTurnIsOwnApart(placed);
    LaunchAscending(placed);
  }

  lemma {:induction false} SortedAddressable(regions: seq<Placed>, holes: seq<Hole>, zero: Bytes, shim: Bytes,
                                             memory: int,
                                             k: nat)
    requires |regions| > 9 && forall i :: 0 <= i < |regions| ==> OwnRegion(regions[i])
    requires |zero| == PAGE && |shim| == PAGE && AlignedAndInside(regions + MmioList(holes), memory)
    requires k < |Filled(regions + MmioList(holes), 0, zero, 9, shim)|
    ensures var p := Filled(regions + MmioList(holes), 0, zero, 9, shim)[k];
            PageAligned(p.base) && (p.fill.Mmio? || p.base + p.Span() < U64_MODULUS)
  {
    var filled := BothFilled(regions + MmioList(holes), 0, zero, 9, shim);
    var placed := SortByBase(filled);
    assert placed[k] in multiset(filled);
    var m :| 0 <= m < |filled| && filled[m] == placed[k];
    OneAddressable(regions, holes, zero, shim, memory, m);
  }

  /** Only apertures wrap. */
  lemma {:induction false} FilledTrims(regions: seq<Placed>, holes: seq<Hole>, zero: Bytes, shim: Bytes, memory: int)
    requires |regions| > 9 && forall i :: 0 <= i < |regions| ==> OwnRegion(regions[i])
    requires |zero| == PAGE && |shim| == PAGE && AlignedAndInside(regions + MmioList(holes), memory)
    ensures OnlyAperturesWrap(Filled(regions + MmioList(holes), 0, zero, 9, shim))
  {
    var placed := Filled(regions + MmioList(holes), 0, zero, 9, shim);
    forall p | p in placed && Wraps(p)
      ensures p.fill.Mmio?
    {
      var k :| 0 <= k < |placed| && placed[k] == p;
      SortedAddressable(regions, holes, zero, shim, memory, k);
    }
  }

  lemma {:induction false} OneAddressable(regions: seq<Placed>, holes: seq<Hole>, zero: Bytes, shim: Bytes,
                                          memory: int, m: nat)
    requires |regions| > 9 && forall i :: 0 <= i < |regions| ==> OwnRegion(regions[i])
    requires |zero| == PAGE && |shim| == PAGE && AlignedAndInside(regions + MmioList(holes), memory)
    requires m < |regions| + |holes|
    ensures var p := BothFilled(regions + MmioList(holes), 0, zero, 9, shim)[m];
            PageAligned(p.base) && (p.fill.Mmio? || p.base + p.Span() < U64_MODULUS)
  {
    var initial := regions + MmioList(holes);
    assert PageAligned(initial[m].base);
    if m < |regions| {
      assert initial[m] == regions[m] && OwnRegion(regions[m]);
      assert regions[m].Span() >= PAGE;
    } else {
      assert initial[m] == MmioList(holes)[m - |regions|];
    }
  }

  lemma {:induction false} ListingOwn(regions: seq<Placed>)
    requires forall i :: 0 <= i < |regions| ==> OwnRegion(regions[i])
    ensures NoneMmio(regions)
  {
  }

  ghost predicate Valid(regions: seq<Placed>, params: Params) {
    var initial := regions + MmioList(params.mmio);
    AdjacentDisjoint(Spans(initial)) && AlignedAndInside(initial, params.memory)
  }

  /** The part of the two builds that is one: from the listed regions to the final map. */
  method BuildFrom(regions: seq<Placed>, params: Params, ghost p: Prepared, ghost acpi: Bytes, plan: Plan,
                   ghost m: Mode,
                   blob: Bytes, ghost tables: Bytes, ghost stack: Bytes, ghost at: Shelf)
    returns (r: Result<Assembled, BuildError>)
    requires Listing(regions, params, p, acpi, plan, m, tables, stack, at)
    requires Listing(regions, Plain(params), p, acpi, plan, m, tables, stack, at)
    requires |blob| == PAGE && |plan.setup| == KERNEL_SETUP_AREA_SIZE
    ensures r.Err? && r.error.BadMap? <==> !Valid(regions, params)
    ensures !(r.Err? && r.error.PagesOverlap?)
    ensures |regions| + |params.mmio| <= 60 && RoomForData(blob) ==> r.Ok? || r.error.BadMap?
    ensures |regions| + |params.mmio| <= 60 ==>
              !(r.Err? && r.error.TooManyEntries?) && !(r.Err? && r.error.BadShim? && r.error.s.BlockTooLarge?)
    ensures r.Ok? ==>
              && IsAssembled(r.value, regions + MmioList(params.mmio), 0, 9, params.memory, plan, blob)
              && Sealed(r.value, params, p, acpi, plan, m, blob)
    ensures r.Ok? && Checks(params) && Harmless(SpanList(regions + MmioList(params.mmio)), params.memory) ==>
              Completed(Pruned(r.value), Plain(params), p, plan, m, blob)
  {
    r := Assemble(regions + MmioList(params.mmio), params.memory, plan, blob, 0, 9);
    if r.Ok? {
      ImageIsSealed(regions, r.value, params, p, acpi, plan, m, blob, tables, stack, at);
      if Checks(params) && Harmless(SpanList(regions + MmioList(params.mmio)), params.memory) {
        TrimmedFinishes(regions, r.value, params, p, acpi, plan, m, blob, tables, stack, at);
      }
    }
  }

  // ---------- what each platform publishes ----------

  /** The pages MRTD is built from. */
  function AsMeasured(pages: seq<LaunchPage>): (r: seq<Mrtd.MeasuredPage>)
    requires Measure.Addressable(pages)
    ensures |r| == |pages| && forall i :: 0 <= i < |r| ==> r[i] == Mrtd.MeasuredPage(pages[i].gpa, pages[i].data)
  {
    seq(|pages|, i requires 0 <= i < |pages| =>
      assert pages[i] in pages; Mrtd.MeasuredPage(pages[i].gpa, pages[i].data))
  }

  lemma {:induction false} AllMeasured(placed: seq<Placed>)
    requires Measure.Addressable(LaunchList(placed))
    ensures Mrtd.WholePages(AsMeasured(LaunchList(placed)))
  {
    var list := LaunchList(placed);
    PagesWhole(placed);
    forall i | 0 <= i < |list|
      ensures |AsMeasured(list)[i].data| == PAGE
    {
      assert list[i] in list;
    }
  }

  ghost predicate IsMrtd(H: Mrtd.Hash, b: Built) {
    && b.pages == LaunchList(b.a.placed) && Measure.Addressable(b.pages) && Mrtd.WholePages(AsMeasured(b.pages))
    && b.digest == H(Mrtd.Stream(AsMeasured(b.pages)))
    && Mrtd.Decode(Mrtd.Stream(AsMeasured(b.pages))) == Some(AsMeasured(b.pages))
  }

  /** The two processor states an SNP image measures: one boots, the others are alike. */
  datatype Vmsas = Vmsas(bsp: Bytes, ap: Bytes)

  ghost predicate IsLaunchDigest(H: Measure.Hash, b: Built, v: Vmsas, vcpus: nat) {
    && b.pages == LaunchList(b.a.placed) && vcpus > 0 && Measure.Addressable(b.pages)
    && b.digest == Measure.Chain(H, Measure.Updates(b.pages, Measure.VmsaPages(v.bsp, v.ap, vcpus)))
    && Measure.IsLaunchOf(H, b.digest, b.pages, Measure.VmsaPages(v.bsp, v.ap, vcpus))
  }

  /** Both views are the map's exactly when its wrapping apertures, if any, do no harm to the sweep. */
  ghost predicate ViewsIff(a: Assembled, taken: seq<Range>, params: Params) {
    && TrimsAlike(a.placed)
    && (IsAcceptList(a.ranges, a.placed, params.memory) <==> Settles(taken, params))
    && (IsE820(a.e820, a.placed, params.memory) <==> MapSettles(taken, params))
  }

  /** One page of CPUID values and one of secrets, blank until the firmware fills them; all others are loaded. */
  ghost predicate FirmwareFills(list: seq<LaunchPage>) {
    var cpuid, secrets := LaunchPage(0xf_0000, Zeros(4096), CpuidData), LaunchPage(0xf_1000, Zeros(4096), Secrets);
    && cpuid in list && secrets in list
    && forall page :: page in list ==> page.kind == Normal || page == cpuid || page == secrets
  }

  lemma {:induction false} DataIsNormal(base: int, data: Bytes)
    ensures forall page :: page in PagesOfData(base, data) ==> page.kind == Normal
    decreases |data|
  {
    if |data| > PAGE {
      DataIsNormal(base + PAGE, data[PAGE..]);
    }
  }

  lemma {:induction false} HostIsListed(regions: seq<Placed>, i: nat)
    requires i < |regions| && regions[i].fill.Host?
    ensures LaunchPage(regions[i].base, Zeros(PAGE), HostKind(regions[i].base)) in LaunchList(SortByBase(regions))
  {
    var sorted := SortByBase(regions);
    assert regions[i] in multiset(sorted);
    var k: nat :| k < |sorted| && sorted[k] == regions[i];
    LaunchIncludes(sorted, k, LaunchPage(regions[i].base, Zeros(PAGE), HostKind(regions[i].base)));
  }

  /** A page that is not loaded as it stands comes from a region the firmware fills. */
  lemma {:induction false} ListedFromHost(regions: seq<Placed>, page: LaunchPage) returns (i: nat)
    requires page in LaunchList(SortByBase(regions)) && page.kind != Normal
    ensures i < |regions| && regions[i].fill.Host?
    ensures page == LaunchPage(regions[i].base, Zeros(PAGE), HostKind(regions[i].base))
  {
    var sorted := SortByBase(regions);
    var k := LaunchSource(sorted, page);
    if sorted[k].fill.Measured? {
      DataIsNormal(sorted[k].base, sorted[k].fill.data);
    }
    assert sorted[k] in multiset(regions);
    i :| 0 <= i < |regions| && regions[i] == sorted[k];
  }

  lemma {:induction false} SnpHosts(p: Prepared, acpi: Bytes, ccBlob: Bytes, tables: Bytes, stack: Bytes,
                                    holes: seq<Hole>, zero: Bytes, shim: Bytes)
    ensures var filled := BothFilled(SnpRegions(p, acpi, ccBlob, tables, stack) + MmioList(holes), 0, zero, 9, shim);
            filled[3] == HostAt(SNP_CPUID) && filled[4] == HostAt(SNP_SECRETS)
  {
  }

  /** Where only those two regions are the firmware's, so are only their pages. */
  lemma {:induction false} HostsFill(filled: seq<Placed>)
    requires |filled| > 4 && filled[3] == HostAt(SNP_CPUID) && filled[4] == HostAt(SNP_SECRETS)
    requires forall i :: 0 <= i < |filled| && filled[i].fill.Host? ==> i == 3 || i == 4
    ensures FirmwareFills(LaunchList(SortByBase(filled)))
  {
    HostIsListed(filled, 3);
    HostIsListed(filled, 4);
    forall page | page in LaunchList(SortByBase(filled)) && page.kind != Normal
      ensures page == LaunchPage(0xf_0000, Zeros(4096), CpuidData) || page == LaunchPage(0xf_1000, Zeros(4096), Secrets)
    {
      var i := ListedFromHost(filled, page);
    }
  }

  lemma {:induction false} SnpFills(p: Prepared, acpi: Bytes, ccBlob: Bytes, tables: Bytes, stack: Bytes,
                                    holes: seq<Hole>, zero: Bytes, shim: Bytes)
    ensures FirmwareFills(LaunchList(Filled(SnpRegions(p, acpi, ccBlob, tables, stack) + MmioList(holes),
                                            0, zero, 9, shim)))
  {
    var filled := BothFilled(SnpRegions(p, acpi, ccBlob, tables, stack) + MmioList(holes), 0, zero, 9, shim);
    SnpHosts(p, acpi, ccBlob, tables, stack, holes, zero, shim);
    forall i | 0 <= i < |filled| && filled[i].fill.Host?
      ensures i == 3 || i == 4
    {
      HostOfSnp(p, acpi, ccBlob, tables, stack, holes, zero, shim, i);
    }
    HostsFill(filled);
  }

  lemma {:induction false} HostOfSnp(p: Prepared, acpi: Bytes, ccBlob: Bytes, tables: Bytes, stack: Bytes,
                                     holes: seq<Hole>, zero: Bytes, shim: Bytes, i: nat)
    requires var initial := SnpRegions(p, acpi, ccBlob, tables, stack) + MmioList(holes);
             i < |initial| && BothFilled(initial, 0, zero, 9, shim)[i].fill.Host?
    ensures i == 3 || i == 4
  {
    var regions := SnpRegions(p, acpi, ccBlob, tables, stack);
    var initial := regions + MmioList(holes);
    assert i < 13 ==> initial[i] == regions[i];
  }

  /** What every TDX map is... */
  ghost predicate IsTdxMap(a: Assembled, params: Params, p: Prepared, acpi: Bytes, stack: Bytes, blob: Bytes) {
    && Sealed(a, params, p, acpi, TdxPlan(p), TDX_MODE, blob)
    && (Checks(params) ==> SeenAs(a, TdxTaken(p), false, p, params))
    && HoldsAt(a.placed, MAILBOX, Zeros(PAGE)) && HoldsAt(a.placed, BSP_STACK, stack) && NoHost(a.placed)
  }

  /** ...and every SNP map. */
  ghost predicate IsSnpMap(a: Assembled, params: Params, p: Prepared, acpi: Bytes, ccBlob: Bytes, stack: Bytes,
                           blob: Bytes)
  {
    && Sealed(a, params, p, acpi, SnpPlan(p), SnpMode(params.cbit), blob)
    && (Checks(params) ==> SeenAs(a, SnpTaken(p), true, p, params))
    && FirmwareFills(LaunchList(a.placed))
    && HoldsAt(a.placed, SNP_GHCB, Zeros(PAGE)) && HoldsAt(a.placed, SNP_CC_BLOB, ccBlob)
    && HoldsAt(a.placed, BSP_STACK, stack)
  }

  lemma {:induction false} ViewsOfAssembled(a: Assembled, regions: seq<Placed>, taken: seq<Range>, params: Params)
    requires var spans := Spans(regions + MmioList(params.mmio));
             && Spans(a.placed) == spans && a.ranges == AcceptList(spans, params.memory)
             && a.e820 == E820List(spans, params.memory)
    requires Takes(regions, taken) && NoFullTurn(regions + MmioList(params.mmio)) && NoFullTurn(a.placed)
    ensures ViewsIff(a, taken, params)
  {
    MapsTrimAlike(a.placed);
    ViewsIffSettled(regions, taken, params);
  }

  /** What is known of the listing a build sweeps, when its parameters were accepted. */
  lemma {:induction false} ListingViews(a: Assembled, regions: seq<Placed>, taken: seq<Range>, params: Params,
                                        plan: Plan, blob: Bytes)
    requires IsAssembled(a, regions + MmioList(params.mmio), 0, 9, params.memory, plan, blob) && Checks(params)
    requires Takes(regions, taken) && forall i :: 0 <= i < |regions| ==> OwnRegion(regions[i])
    requires |regions| > 9 && OnePage(regions[0]) && OnePage(regions[9])
    ensures ViewsIff(a, taken, params)
    ensures Harmless(SpanList(regions + MmioList(params.mmio)), params.memory) <==> Settles(taken, params)
  {
    RegionsOk(regions, params.mmio, params);
    FilledDescribed(regions + MmioList(params.mmio), 0, a.zero, 9, a.shim);
    ViewsOfAssembled(a, regions, taken, params);
    SettlesIsHarmless(regions, taken, params);
  }

  lemma {:induction false} TdxHolds(p: Prepared, acpi: Bytes, tables: Bytes, stack: Bytes, tail: seq<Placed>,
                                    a: Assembled)
    requires a.placed == Filled(TdxRegions(p, acpi, tables, stack) + tail, 0, a.zero, 9, a.shim)
    ensures HoldsAt(a.placed, MAILBOX, Zeros(PAGE)) && HoldsAt(a.placed, BSP_STACK, stack)
  {
    var initial := TdxRegions(p, acpi, tables, stack) + tail;
    RegionStays(initial, a, 3, MAILBOX, Zeros(PAGE));
    RegionStays(initial, a, 5, BSP_STACK, stack);
  }

  lemma {:induction false} SnpHolds(p: Prepared, acpi: Bytes, ccBlob: Bytes, tables: Bytes, stack: Bytes,
                                    tail: seq<Placed>, a: Assembled)
    requires a.placed == Filled(SnpRegions(p, acpi, ccBlob, tables, stack) + tail, 0, a.zero, 9, a.shim)
    ensures HoldsAt(a.placed, SNP_GHCB, Zeros(PAGE)) && HoldsAt(a.placed, SNP_CC_BLOB, ccBlob)
    ensures HoldsAt(a.placed, BSP_STACK, stack)
  {
    var initial := SnpRegions(p, acpi, ccBlob, tables, stack) + tail;
    RegionStays(initial, a, 5, SNP_CC_BLOB, ccBlob);
    RegionStays(initial, a, 7, BSP_STACK, stack);
    RegionStays(initial, a, 8, SNP_GHCB, Zeros(PAGE));
  }

  /** What a map holds of measured contents it holds without its apertures. */
  lemma {:induction false} TrimHolds(placed: seq<Placed>, base: int, data: Bytes)
    requires OnlyAperturesWrap(placed) && HoldsAt(placed, base, data)
    ensures HoldsAt(Trim(placed), base, data)
  {
    var k: nat :| Holds(placed, k, base, data);
    assert placed[k] in placed && placed[k] in Trim(placed);
    var i: nat :| i < |Trim(placed)| && Trim(placed)[i] == placed[k];
    assert Holds(Trim(placed), i, base, data);
  }

  lemma {:induction false} TrimFurnished(a: Assembled, p: Prepared, acpi: Bytes)
    requires OnlyAperturesWrap(a.placed) && Furnished(a, p, acpi)
    ensures Furnished(Pruned(a), p, acpi)
  {
    TrimHolds(a.placed, ZERO_PAGE, a.zero);
    TrimHolds(a.placed, CMDLINE, p.command);
    TrimHolds(a.placed, ACPI_BASE, acpi);
    TrimHolds(a.placed, KERNEL_SETUP_BASE, p.setup);
    TrimHolds(a.placed, KERNEL_BASE, p.kernel);
    TrimHolds(a.placed, INITRAMFS_BASE, p.initramfs);
  }

  /** A build fails for its map, or for more apertures than its two pages have room for, or for a full shim. */
  ghost predicate RightlyRefused(e: BuildError, blob: Bytes, few: bool) {
    && !e.PagesOverlap?
    && (few ==> !e.TooManyEntries? && !(e.BadShim? && e.s.BlockTooLarge?))
    && (few && RoomForData(blob) ==> e.BadMap?)
  }

  /** What the regions of a listing are known to be: the builder's own, at these places under these types. */
  ghost predicate Charted(regions: seq<Placed>, taken: seq<Range>, types: seq<int>) {
    && |regions| > 9 && OnePage(regions[0]) && OnePage(regions[9])
    && (forall i :: 0 <= i < |regions| ==> OwnRegion(regions[i]))
    && Takes(regions, taken) && HasTypes(regions, types)
  }

  lemma {:induction false} TdxCharted(p: Prepared, acpi: Bytes, tables: Bytes, stack: Bytes)
    requires Sized(p) && |acpi| == PAGE && |tables| == 2 * PAGE && |stack| == BSP_STACK_SIZE
    ensures Charted(TdxRegions(p, acpi, tables, stack), TdxTaken(p), TDX_TYPES)
  {
    TdxRegionsOk(p, acpi, tables, stack);
    TdxTakes(p, acpi, tables, stack);
    TdxTyped(p, acpi, tables, stack);
  }

  lemma {:induction false} SnpCharted(p: Prepared, acpi: Bytes, ccBlob: Bytes, tables: Bytes, stack: Bytes)
    requires Sized(p) && |acpi| == PAGE && |ccBlob| == PAGE && |tables| == 3 * PAGE && |stack| == BSP_STACK_SIZE
    ensures Charted(SnpRegions(p, acpi, ccBlob, tables, stack), SnpTaken(p), SNP_TYPES)
  {
    SnpRegionsOk(p, acpi, ccBlob, tables, stack);
    SnpTakes(p, acpi, ccBlob, tables, stack);
    SnpTyped(p, acpi, ccBlob, tables, stack);
  }

  /** When its two views are right, and what the kernel is offered where the E820 map is. */
  ghost predicate SeenAs(a: Assembled, taken: seq<Range>, snp: bool, p: Prepared, params: Params) {
    && ViewsIff(a, taken, params)
    && (MapSettles(taken, params) ==>
          Offered(a.e820, a.placed, params.memory, snp, p.kernel, p.initramfs, params.mmio))
  }

  lemma {:induction false} AssembledIsSeen(a: Assembled, regions: seq<Placed>, taken: seq<Range>, types: seq<int>,
                                           snp: bool, p: Prepared, params: Params, plan: Plan, blob: Bytes)
    requires Charted(regions, taken, types) && GoesBy(snp, p, taken, types) && Checks(params)
    requires IsAssembled(a, regions + MmioList(params.mmio), 0, 9, params.memory, plan, blob)
    ensures SeenAs(a, taken, snp, p, params)
    ensures Harmless(SpanList(regions + MmioList(params.mmio)), params.memory) <==> Settles(taken, params)
  {
    ListingViews(a, regions, taken, params, plan, blob);
    if MapSettles(taken, params) {
      ListingOffers(regions, taken, types, snp, p, params.mmio, a.e820, a.placed, params.memory);
    }
  }

  /** What was assembled from a platform's listing is that platform's map. */
  lemma {:induction false} AssembledTdx(params: Params, p: Prepared, acpi: Bytes, tables: Bytes, stack: Bytes,
                                        blob: Bytes, a: Assembled)
    requires Sized(p) && |acpi| == PAGE && |tables| == 2 * PAGE && |stack| == BSP_STACK_SIZE
    requires IsAssembled(a, TdxRegions(p, acpi, tables, stack) + MmioList(params.mmio), 0, 9, params.memory,
                         TdxPlan(p), blob)
    requires Sealed(a, params, p, acpi, TdxPlan(p), TDX_MODE, blob)
    ensures IsTdxMap(a, params, p, acpi, stack, blob)
    ensures Checks(params) ==>
              (Harmless(SpanList(TdxRegions(p, acpi, tables, stack) + MmioList(params.mmio)), params.memory) <==>
               Settles(TdxTaken(p), params))
  {
    TdxHolds(p, acpi, tables, stack, MmioList(params.mmio), a);
    TdxHasNoHost(p, acpi, tables, stack, params.mmio);
    FilledHasNoHost(TdxRegions(p, acpi, tables, stack) + MmioList(params.mmio), 0, a.zero, 9, a.shim);
    if Checks(params) {
      TdxCharted(p, acpi, tables, stack);
      AssembledIsSeen(a, TdxRegions(p, acpi, tables, stack), TdxTaken(p), TDX_TYPES, false, p, params, TdxPlan(p),
                      blob);
    }
  }

  lemma {:induction false} AssembledSnp(params: Params, p: Prepared, acpi: Bytes, ccBlob: Bytes, tables: Bytes,
                                        stack: Bytes, blob: Bytes, a: Assembled)
    requires Sized(p) && |acpi| == PAGE && |ccBlob| == PAGE && |tables| == 3 * PAGE && |stack| == BSP_STACK_SIZE
    requires IsAssembled(a, SnpRegions(p, acpi, ccBlob, tables, stack) + MmioList(params.mmio), 0, 9, params.memory,
                         SnpPlan(p), blob)
    requires Sealed(a, params, p, acpi, SnpPlan(p), SnpMode(params.cbit), blob)
    ensures IsSnpMap(a, params, p, acpi, ccBlob, stack, blob)
    ensures Checks(params) ==>
              (Harmless(SpanList(SnpRegions(p, acpi, ccBlob, tables, stack) + MmioList(params.mmio)),
                        params.memory) <==>
               Settles(SnpTaken(p), params))
  {
    SnpHolds(p, acpi, ccBlob, tables, stack, MmioList(params.mmio), a);
    SnpFills(p, acpi, ccBlob, tables, stack, params.mmio, a.zero, a.shim);
    if Checks(params) {
      SnpCharted(p, acpi, ccBlob, tables, stack);
      AssembledIsSeen(a, SnpRegions(p, acpi, ccBlob, tables, stack), SnpTaken(p), SNP_TYPES, true, p, params,
                      SnpPlan(p), blob);
    }
  }

  method LayTdx(params: Params, p: Prepared, acpi: Bytes, stack: Bytes, blob: Bytes)
    returns (r: Result<Assembled, BuildError>)
    requires Sized(p) && |acpi| == PAGE && |stack| == BSP_STACK_SIZE && |blob| == PAGE
    ensures r.Ok? ==> IsTdxMap(r.value, params, p, acpi, stack, blob)
    ensures r.Ok? && Checks(params) && Settles(TdxTaken(p), params) ==>
              Completed(Pruned(r.value), Plain(params), p, TdxPlan(p), TDX_MODE, blob)
    ensures r.Err? ==> RightlyRefused(r.error, blob, |params.mmio| <= 50)
    ensures Checks(params) && FitsBelow(p, params.memory) ==>
              (r.Err? && r.error.BadMap? <==> !Admits(TdxTaken(p), params))
  {
    var tables := Tables.Build(0, false);
    var regions := TdxRegions(p, acpi, tables, stack);
    TdxLists(params, p, acpi, tables, stack);
    TdxLists(Plain(params), p, acpi, tables, stack);
    if Checks(params) && FitsBelow(p, params.memory) {
      TdxAdmits(params, p, acpi, tables, stack);
    }
    r := BuildFrom(regions, params, p, acpi, TdxPlan(p), TDX_MODE, blob, tables, stack, TDX_SHELF);
    if r.Ok? {
      AssembledTdx(params, p, acpi, tables, stack, blob, r.value);
    }
  }

  method LaySnp(params: Params, p: Prepared, acpi: Bytes, ccBlob: Bytes, stack: Bytes, blob: Bytes)
    returns (r: Result<Assembled, BuildError>)
    requires Sized(p) && |acpi| == PAGE && |ccBlob| == PAGE && |stack| == BSP_STACK_SIZE && |blob| == PAGE
    requires params.cbit <= 63
    ensures r.Ok? ==> IsSnpMap(r.value, params, p, acpi, ccBlob, stack, blob) && InBounds(r.value.e820, params.memory)
    ensures r.Ok? && Checks(params) && Settles(SnpTaken(p), params) ==>
              Completed(Pruned(r.value), Plain(params), p, SnpPlan(p), SnpMode(params.cbit), blob)
    ensures r.Err? ==> RightlyRefused(r.error, blob, |params.mmio| <= 47)
    ensures Checks(params) && FitsBelow(p, params.memory) ==>
              (r.Err? && r.error.BadMap? <==> !Admits(SnpTaken(p), params))
  {
    var tables := Tables.Build(params.cbit, true);
    var regions := SnpRegions(p, acpi, ccBlob, tables, stack);
    SnpLists(params, p, acpi, ccBlob, tables, stack);
    SnpLists(Plain(params), p, acpi, ccBlob, tables, stack);
    if Checks(params) && FitsBelow(p, params.memory) {
      SnpAdmits(params, p, acpi, ccBlob, tables, stack);
    }
    r := BuildFrom(regions, params, p, acpi, SnpPlan(p), SnpMode(params.cbit), blob, tables, stack, SNP_SHELF);
    if r.Ok? {
      AssembledSnp(params, p, acpi, ccBlob, tables, stack, blob, r.value);
    }
  }

  /** A TDX image: its map, the pages of it in address order, and their MRTD. */
  method BuildTdx(H: Mrtd.Hash, params: Params, p: Prepared, acpi: Bytes, stack: Bytes, blob: Bytes)
    returns (r: Result<Built, BuildError>)
    requires Sized(p) && |acpi| == PAGE && |stack| == BSP_STACK_SIZE && |blob| == PAGE
    ensures r.Ok? ==> IsTdxMap(r.value.a, params, p, acpi, stack, blob) && IsMrtd(H, r.value)
    ensures r.Ok? && Checks(params) && Settles(TdxTaken(p), params) ==>
              Completed(Pruned(r.value.a), Plain(params), p, TdxPlan(p), TDX_MODE, blob)
    ensures r.Err? ==> RightlyRefused(r.error, blob, |params.mmio| <= 50)
    ensures Checks(params) && FitsBelow(p, params.memory) ==>
              (r.Err? && r.error.BadMap? <==> !Admits(TdxTaken(p), params))
  {
    var laid := LayTdx(params, p, acpi, stack, blob);
    if laid.Err? {
      return Err(laid.error);
    }
    var a := laid.value;
    var pages := TdxLaunchPages(a.placed);
    AllMeasured(a.placed);
    var digest := Mrtd.Calculate(H, AsMeasured(pages.value));
    return Ok(Built(a, pages.value, [], digest));
  }

  /** An SNP image: its map, the memory it needs, its pages, and their digest with one VMSA per processor. */
  method BuildSnp(H: Measure.Hash, params: Params, p: Prepared, acpi: Bytes, ccBlob: Bytes, stack: Bytes, v: Vmsas,
                  blob: Bytes)
    returns (r: Result<Built, BuildError>)
    requires Sized(p) && |acpi| == PAGE && |ccBlob| == PAGE && |stack| == BSP_STACK_SIZE && |blob| == PAGE
    requires params.cbit <= 63 && params.vcpus > 0
    ensures r.Ok? ==>
              IsSnpMap(r.value.a, params, p, acpi, ccBlob, stack, blob) && IsLaunchDigest(H, r.value, v, params.vcpus)
    ensures r.Ok? && Checks(params) && Settles(SnpTaken(p), params) ==>
              Completed(Pruned(r.value.a), Plain(params), p, SnpPlan(p), SnpMode(params.cbit), blob)
    ensures r.Ok? && Checks(params) && MapSettles(SnpTaken(p), params) ==> IsRequired(r.value.required, r.value.a.e820)
    ensures r.Err? ==> RightlyRefused(r.error, blob, |params.mmio| <= 47)
    ensures Checks(params) && FitsBelow(p, params.memory) ==>
              (r.Err? && r.error.BadMap? <==> !Admits(SnpTaken(p), params))
  {
    var laid := LaySnp(params, p, acpi, ccBlob, stack, blob);
    if laid.Err? {
      return Err(laid.error);
    }
    r := PublishSnp(H, laid.value, params.memory, params.vcpus, v);
  }

  /** The pages, the check of them, the digest, and the memory the loader must find. */
  method PublishSnp(H: Measure.Hash, a: Assembled, memory: U64, vcpus: nat, v: Vmsas)
    returns (r: Result<Built, BuildError>)
    requires Measure.Addressable(LaunchList(a.placed)) && InBounds(a.e820, memory) && vcpus > 0
    ensures Ascending(LaunchList(a.placed)) ==> r.Ok?
    ensures r.Ok? ==>
              && r.value.a == a && IsLaunchDigest(H, r.value, v, vcpus)
              && (Canonical(a.e820) ==> IsRequired(r.value.required, a.e820))
  {
    var pages := SnpLaunchPages(a.placed);
    var checked := Measure.ValidatePages(pages);
    if checked.Err? {
      return Err(PagesOverlap(checked.error));
    }
    var digest := Measure.LaunchMeasurement(H, pages, Measure.VmsaPages(v.bsp, v.ap, vcpus));
    var required := Directives(a.e820, memory);
    return Ok(Built(a, pages, required, digest));
  }
}
