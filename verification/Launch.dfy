/** From the built image to the kernel jump: the loader's pages, the shim's run and what they leave. */
module Launch {
  import opened Wrappers
  import opened Layout
  import opened Bytes
  import opened Physical
  import opened Paging
  import opened Placement
  import opened MapTheorems
  import opened Pages
  import opened Partition
  import opened ShimBlock
  import opened Guest
  import opened Trace
  import opened Image
  import opened SnpWake
  import Tables = IdentityMap
  import Tdx = TdxShim
  import Snp = SnpShim

  /** A guest as the loader leaves it: exactly the listed pages accepted, the measured ones holding their bytes. */
  ghost predicate Loaded(pages: PageTable, mem: Memory, list: seq<LaunchPage>) {
    && (forall q :: pages(q) == if Imported(list, q * PAGE) then Accepted else Unaccepted)
    && (forall k, i :: 0 <= k < |list| && list[k].kind == Normal && 0 <= i < |list[k].data| ==>
          mem(list[k].gpa + i) == list[k].data[i])
  }

  // ---------- the ranges a block holds are ones a shim can walk ----------

  /** Just before a range and at its end, nothing is accepted. */
  lemma {:induction false} RangeEdges(ranges: seq<Range>, memory: int, i: nat)
    requires Separated(ranges, memory) && i < |ranges|
    ensures !InRanges(ranges, ranges[i].lo - 1) && !InRanges(ranges, ranges[i].hi)
    ensures InRanges(ranges, ranges[i].lo) && InRanges(ranges, ranges[i].hi - 1)
  {
    forall j | 0 <= j < |ranges|
      ensures !(ranges[j].lo <= ranges[i].lo - 1 < ranges[j].hi)
      ensures !(ranges[j].lo <= ranges[i].hi < ranges[j].hi)
    {
      assert j < i ==> ranges[j].hi < ranges[i].lo;
      assert i < j ==> ranges[i].hi < ranges[j].lo;
    }
  }

  function PageOf(a: int): int { a / PAGE * PAGE }

  lemma {:induction false} PageOfFacts(a: int)
    ensures PageAligned(PageOf(a)) && PageOf(a) <= a < PageOf(a) + PAGE
    ensures !PageAligned(a) ==> PageOf(a) <= a - 1
  {
  }

  /** An accept list changes its mind only between pages. */
  lemma {:induction false} EdgeAligned(placed: seq<Placed>, memory: int, ranges: seq<Range>, a: int)
    requires Lawful(placed, memory) && IsAcceptList(ranges, placed, memory)
    requires InRanges(ranges, a) != InRanges(ranges, a - 1)
    ensures PageAligned(a)
  {
    PageOfFacts(a);
    if !PageAligned(a) {
      AcceptByPage(placed, memory, ranges, PageOf(a));
    }
  }

  lemma {:induction false} RangesAligned(placed: seq<Placed>, memory: int, ranges: seq<Range>, i: nat)
    requires Lawful(placed, memory) && IsAcceptList(ranges, placed, memory) && i < |ranges|
    ensures PageAligned(ranges[i].lo) && PageAligned(ranges[i].hi)
  {
    RangeEdges(ranges, memory, i);
    EdgeAligned(placed, memory, ranges, ranges[i].lo);
    EdgeAligned(placed, memory, ranges, ranges[i].hi);
  }

  /** No range meets a span of claimed bytes. */
  lemma {:induction false} RangeAvoids(placed: seq<Placed>, memory: int, ranges: seq<Range>, i: nat, lo: int, hi: int)
    requires IsAcceptList(ranges, placed, memory) && i < |ranges| && lo < hi
    requires forall a :: lo <= a < hi ==> Claimed(Spans(placed), a)
    ensures ranges[i].hi <= lo || hi <= ranges[i].lo
  {
    var a := if ranges[i].lo < lo then lo else ranges[i].lo;
    if ranges[i].lo <= a < ranges[i].hi && lo <= a < hi {
      assert InRanges(ranges, a);
      assert false;
    }
  }

  lemma {:induction false} RegionClaims(placed: seq<Placed>, memory: int, k: nat)
    requires Lawful(placed, memory) && k < |placed|
    ensures forall a :: placed[k].base <= a < placed[k].base + placed[k].Span() ==> Claimed(Spans(placed), a)
  {
    SpanAligned(placed, k);
    forall a | placed[k].base <= a < placed[k].base + placed[k].Span()
      ensures Claimed(Spans(placed), a)
    {
      ClaimedIsListed(placed, a);
    }
  }

  lemma {:induction false} RangeWaits(placed: seq<Placed>, memory: int, ranges: seq<Range>, pages: PageTable,
                                      mem: Memory, i: nat)
    requires Lawful(placed, memory) && IsAcceptList(ranges, placed, memory) && i < |ranges|
    requires Loaded(pages, mem, LaunchList(placed))
    ensures Waiting(pages, ranges[i].lo, ranges[i].hi)
  {
    forall q | ranges[i].lo <= q * PAGE < ranges[i].hi
      ensures pages(q) == Unaccepted
    {
      assert InRanges(ranges, q * PAGE);
      NotImported(placed, memory, q * PAGE);
    }
  }

  lemma {:induction false} NotImported(placed: seq<Placed>, memory: int, g: int)
    requires Lawful(placed, memory) && PageAligned(g) && !Claimed(Spans(placed), g)
    ensures !Imported(LaunchList(placed), g)
  {
    ImportedIff(placed, memory, g);
    ClaimedIsListed(placed, g);
  }

  /** A map holding a region at `base` with these contents. */
  ghost predicate Holds(placed: seq<Placed>, k: nat, base: int, data: Bytes) {
    k < |placed| && placed[k].base == base && placed[k].fill == Measured(data)
  }

  ghost predicate HoldsAt(placed: seq<Placed>, base: int, data: Bytes) {
    exists k :: Holds(placed, k, base, data)
  }

  /** The regions a shim's own code, stack and page tables are in. */
  datatype Bearings = Bearings(base: int, shim: nat, page: Bytes, stack: nat, bytes: Bytes, tables: nat, table: Bytes)

  ghost predicate Bears(placed: seq<Placed>, m: Mode, b: Bearings) {
    && Holds(placed, b.shim, b.base, b.page) && |b.page| == PAGE
    && Holds(placed, b.stack, BSP_STACK, b.bytes) && |b.bytes| == BSP_STACK_SIZE
    && Holds(placed, b.tables, PAGE_TABLES, b.table) && |b.table| == m.TableBytes()
  }

  /** No range meets any of them. */
  lemma {:induction false} RangeClear(placed: seq<Placed>, memory: int, ranges: seq<Range>, m: Mode, b: Bearings,
                                      i: nat)
    requires Lawful(placed, memory) && IsAcceptList(ranges, placed, memory) && Bears(placed, m, b)
    requires i < |ranges|
    ensures ranges[i].hi <= b.base || b.base + PAGE <= ranges[i].lo
    ensures ranges[i].hi <= STACK_SLOT || STACK_SLOT + 8 <= ranges[i].lo
    ensures ClearOfTables(m, ranges[i].lo, ranges[i].hi)
  {
    RegionClaims(placed, memory, b.shim);
    RangeAvoids(placed, memory, ranges, i, b.base, b.base + PAGE);
    RegionClaims(placed, memory, b.stack);
    RangeAvoids(placed, memory, ranges, i, STACK_SLOT, STACK_SLOT + 8);
    RegionClaims(placed, memory, b.tables);
    RangeAvoids(placed, memory, ranges, i, PAGE_TABLES, PAGE_TABLES + m.TableBytes());
  }

  lemma {:induction false} BlockIsWalkable(placed: seq<Placed>, memory: int, ranges: seq<Range>, s: Moment, b: Bearings)
    requires Lawful(placed, memory) && IsAcceptList(ranges, placed, memory) && memory <= MAP_LIMIT
    requires Loaded(s.pages, s.mem, LaunchList(placed)) && Bears(placed, s.mode, b)
    requires Paged(s.mem, s.mode)
    ensures Walkable(s, ranges, b.base)
  {
    forall i | 0 <= i < |ranges|
      ensures 0 <= ranges[i].lo && PageAligned(ranges[i].lo) && PageAligned(ranges[i].hi)
      ensures ranges[i].hi <= MAP_LIMIT
      ensures ClearOfTables(s.mode, ranges[i].lo, ranges[i].hi)
      ensures ranges[i].hi <= b.base || b.base + PAGE <= ranges[i].lo
      ensures ranges[i].hi <= STACK_SLOT || STACK_SLOT + 8 <= ranges[i].lo
      ensures Waiting(s.pages, ranges[i].lo, ranges[i].hi)
    {
      RangesAligned(placed, memory, ranges, i);
      RangeClear(placed, memory, ranges, s.mode, b, i);
      RangeWaits(placed, memory, ranges, s.pages, s.mem, i);
    }
  }

  // ---------- the bytes a region was measured with ----------

  /** The page a byte of a region's contents goes out in, and where in it. */
  lemma {:induction false} ByteInPage(base: int, data: Bytes, i: nat) returns (page: LaunchPage, off: nat)
    requires i < |data|
    ensures page in PagesOfData(base, data) && page.kind == Normal
    ensures off < |page.data| && page.gpa + off == base + i && page.data[off] == data[i]
  {
    var n := i / PAGE;
    assert n < PageUp(|data|) / PAGE;
    PageOfDataAt(base, data, n);
    page, off := PagesOfData(base, data)[n], i - n * PAGE;
    ChunkByte(data, n * PAGE, ChunkEnd(n, |data|), off);
  }

  lemma {:induction false} ChunkByte(data: Bytes, lo: nat, hi: nat, off: nat)
    requires lo + off < hi <= |data| && hi <= lo + PAGE
    ensures Padded(data[lo..hi])[off] == data[lo + off]
  {
    var chunk := data[lo..hi];
    assert Padded(chunk)[..|chunk|][off] == chunk[off];
  }

  lemma {:induction false} RegionPage(placed: seq<Placed>, k: nat, base: int, data: Bytes, page: LaunchPage)
    requires Holds(placed, k, base, data) && page in PagesOfData(base, data)
    ensures page in LaunchList(placed)
  {
    LaunchIncludes(placed, k, page);
  }

  /** Every byte of every measured region is where the map says. */
  lemma {:induction false} MeasuredBytes(placed: seq<Placed>, pages: PageTable, mem: Memory,
                                         k: nat, base: int, data: Bytes, i: nat)
    requires Loaded(pages, mem, LaunchList(placed))
    requires Holds(placed, k, base, data) && i < |data|
    ensures mem(base + i) == data[i]
  {
    var page, off := ByteInPage(base, data, i);
    RegionPage(placed, k, base, data, page);
    LoadedByte(pages, mem, LaunchList(placed), page, off);
  }

  lemma {:induction false} LoadedByte(pages: PageTable, mem: Memory, list: seq<LaunchPage>, page: LaunchPage, off: nat)
    requires Loaded(pages, mem, list) && page in list && page.kind == Normal && off < |page.data|
    ensures mem(page.gpa + off) == page.data[off]
  {
    var j :| 0 <= j < |list| && list[j] == page;
    assert mem(list[j].gpa + off) == list[j].data[off];
  }

  /** So every measured region lies where the map says, whole. */
  lemma {:induction false} MeasuredLies(placed: seq<Placed>, pages: PageTable, mem: Memory,
                                        k: nat, base: int, data: Bytes)
    requires Loaded(pages, mem, LaunchList(placed)) && Holds(placed, k, base, data)
    ensures Lies(mem, base, data)
  {
    forall i | 0 <= i < |data|
      ensures mem(base + i) == data[i]
    {
      MeasuredBytes(placed, pages, mem, k, base, data, i);
    }
  }

  /** A region the map holds, where no shim writes, is in memory to the end. */
  lemma {:induction false} RegionKept(placed: seq<Placed>, memory: int, pages: PageTable, mem: Memory, end: Memory,
                                      base: int, data: Bytes)
    requires Lawful(placed, memory) && Loaded(pages, mem, LaunchList(placed))
    requires HoldsAt(placed, base, data)
    requires forall x :: base <= x < base + |data| && Claimed(Spans(placed), x) ==> end(x) == mem(x)
    ensures Lies(end, base, data)
  {
    var k: nat :| Holds(placed, k, base, data);
    MeasuredLies(placed, pages, mem, k, base, data);
    RegionClaims(placed, memory, k);
    forall i | 0 <= i < |data|
      ensures end(base + i) == data[i]
    {
      assert |data| <= placed[k].Span();
    }
  }

  // ---------- the runs ----------

  /** How each platform's builder and shim set paging up. */
  const TDX_MODE := Mode(0, false)
  function SnpMode(cbit: nat): Mode { Mode(cbit, true) }

  ghost predicate HoldsTables(placed: seq<Placed>, m: Mode) {
    exists k, t :: Holds(placed, k, PAGE_TABLES, t) && Tables.IsMap(t, m.cbit, m.alias)
  }

  ghost predicate HoldsStack(placed: seq<Placed>) {
    exists k, bytes :: Holds(placed, k, BSP_STACK, bytes) && |bytes| == BSP_STACK_SIZE
  }

  /** An image whose two pages describe its map, and whose map holds the shim page, its stack and its page tables. */
  ghost predicate Bootable(a: Assembled, memory: int, plan: Plan, m: Mode, blob: Bytes) {
    && SelfDescribed(a, memory, plan, blob) && memory <= MAP_LIMIT
    && HoldsAt(a.placed, plan.shimBase, a.shim) && HoldsStack(a.placed) && HoldsTables(a.placed, m)
  }

  /** What a page must be at the kernel jump: accepted, unless it is MMIO. */
  ghost predicate ReadyAt(placed: seq<Placed>, pages: PageTable, q: int) {
    pages(q) == if Declared(placed, q * PAGE) then Unaccepted else Accepted
  }

  /** Every page below `memory` is. */
  ghost predicate Ready(placed: seq<Placed>, memory: int, pages: PageTable) {
    forall q :: 0 <= q * PAGE < memory ==> ReadyAt(placed, pages, q)
  }

  /** A byte the map claims is left exactly as the loader left it. */
  ghost predicate Untouched(placed: seq<Placed>, s: Memory, t: Memory, a: int) {
    Claimed(Spans(placed), a) ==> t(a) == s(a)
  }

  lemma {:induction false} ShimPageReads(mem: Memory, base: int, page: Bytes, blob: Bytes, entry: U64,
                                         ranges: seq<Range>)
    requires IsShimPage(page, blob, entry, ranges) && Lies(mem, base, page)
    ensures Walk(Window(mem, base, PAGE), SHIM_DATA + 8) == Some(ranges)
    ensures Load64(mem, base + SHIM_DATA) == entry
  {
    ShimRoundTrip(page, blob, entry, ranges);
    assert Window(mem, base, PAGE) == page;
    LoadIsGet(mem, base, page, SHIM_DATA);
  }

  lemma {:induction false} FindBearings(a: Assembled, memory: int, plan: Plan, m: Mode, blob: Bytes)
    returns (b: Bearings)
    requires Bootable(a, memory, plan, m, blob)
    ensures Bears(a.placed, m, b) && b.base == plan.shimBase && b.page == a.shim
    ensures Tables.IsMap(b.table, m.cbit, m.alias)
  {
    var k: nat :| Holds(a.placed, k, plan.shimBase, a.shim);
    var j, bytes :| Holds(a.placed, j, BSP_STACK, bytes) && |bytes| == BSP_STACK_SIZE;
    var i, t :| Holds(a.placed, i, PAGE_TABLES, t) && Tables.IsMap(t, m.cbit, m.alias);
    ShimRoundTrip(a.shim, blob, plan.entry, a.ranges);
    b := Bearings(plan.shimBase, k, a.shim, j, bytes, i, t);
  }

  /** The tables an image holds page the guest it is loaded into exactly where the C-bit fits. */
  lemma {:induction false} LoadedIsPagedIff(a: Assembled, memory: int, plan: Plan, m: Mode, blob: Bytes,
                                            pages: PageTable, mem: Memory)
    requires Bootable(a, memory, plan, m, blob) && Loaded(pages, mem, LaunchList(a.placed))
    ensures m.cbit == 0 ==> Paged(mem, m)
    ensures 32 <= m.cbit <= 63 ==> (Paged(mem, m) <==> 39 <= m.cbit <= 51)
  {
    var i, t :| Holds(a.placed, i, PAGE_TABLES, t) && Tables.IsMap(t, m.cbit, m.alias);
    MeasuredLies(a.placed, pages, mem, i, PAGE_TABLES, t);
    if m.cbit == 0 {
      TablesPage(mem, m, t);
    } else if 32 <= m.cbit <= 63 {
      PagedIffCBitFits(mem, m, t);
    }
  }

  /** Every range of the block can be walked through the tables in memory... */
  lemma {:induction false} StartWalkable(a: Assembled, memory: int, plan: Plan, blob: Bytes, s: Moment)
    requires Bootable(a, memory, plan, s.mode, blob) && Loaded(s.pages, s.mem, LaunchList(a.placed))
    requires s.mode.cbit == 0 || 39 <= s.mode.cbit <= 51
    ensures Walkable(s, a.ranges, plan.shimBase)
  {
    var b := FindBearings(a, memory, plan, s.mode, blob);
    LoadedIsPagedIff(a, memory, plan, s.mode, blob, s.pages, s.mem);
    BlockIsWalkable(a.placed, memory, a.ranges, s, b);
  }

  /** ...and the block read from memory is the one packed. */
  lemma {:induction false} StartReads(placed: seq<Placed>, base: int, page: Bytes, blob: Bytes, entry: U64,
                                      ranges: seq<Range>, pages: PageTable, mem: Memory)
    requires HoldsAt(placed, base, page) && Loaded(pages, mem, LaunchList(placed))
    requires IsShimPage(page, blob, entry, ranges)
    ensures Walk(Window(mem, base, PAGE), SHIM_DATA + 8) == Some(ranges)
    ensures Load64(mem, base + SHIM_DATA) == entry
  {
    var k: nat :| Holds(placed, k, base, page);
    MeasuredLies(placed, pages, mem, k, base, page);
    ShimPageReads(mem, base, page, blob, entry, ranges);
  }

  /** The state of a page the loader imported, or a run accepted, or neither. */
  ghost function EndState(placed: seq<Placed>, ranges: seq<Range>, g: int): PageState {
    if InRanges(ranges, g) || Imported(LaunchList(placed), g) then Accepted else Unaccepted
  }

  /** It is what the kernel needs if and only if the page has one place. */
  lemma {:induction false} PageIsReady(placed: seq<Placed>, memory: int, ranges: seq<Range>, g: int)
    requires Lawful(placed, memory) && IsAcceptList(ranges, placed, memory)
    requires PageAligned(g) && 0 <= g < memory
    ensures EndState(placed, ranges, g) == (if Declared(placed, g) then Unaccepted else Accepted) <==>
            OnePlace(placed, ranges, g)
  {
    AcceptByPage(placed, memory, ranges, g);
    assert g <= g < g + PAGE;
    if InRanges(ranges, g) {
      NotImported(placed, memory, g);
      ClaimedIsListed(placed, g);
    }
  }

  /** Every page below `memory` has that state. */
  ghost predicate Ended(placed: seq<Placed>, ranges: seq<Range>, memory: int, end: PageTable) {
    forall q :: 0 <= q * PAGE < memory ==> end(q) == EndState(placed, ranges, q * PAGE)
  }

  lemma {:induction false} RunEnds(placed: seq<Placed>, ranges: seq<Range>, memory: int, mem: Memory,
                                   pages: PageTable, end: PageTable)
    requires Loaded(pages, mem, LaunchList(placed))
    requires forall q :: end(q) == if InRanges(ranges, q * PAGE) then Accepted else pages(q)
    ensures Ended(placed, ranges, memory, end)
  {
  }

  lemma {:induction false} ReadyAtIff(placed: seq<Placed>, memory: int, ranges: seq<Range>, end: PageTable, q: int)
    requires Lawful(placed, memory) && IsAcceptList(ranges, placed, memory)
    requires 0 <= q * PAGE < memory && end(q) == EndState(placed, ranges, q * PAGE)
    ensures ReadyAt(placed, end, q) <==> OnePlace(placed, ranges, q * PAGE)
  {
    PageMultiple(q);
    PageIsReady(placed, memory, ranges, q * PAGE);
  }

  ghost predicate AllPlaced(placed: seq<Placed>, ranges: seq<Range>, memory: int) {
    forall g :: PageAligned(g) && 0 <= g < memory ==> OnePlace(placed, ranges, g)
  }

  lemma {:induction false} PlacedAt(placed: seq<Placed>, ranges: seq<Range>, memory: int, q: int)
    requires AllPlaced(placed, ranges, memory) && 0 <= q * PAGE < memory
    ensures OnePlace(placed, ranges, q * PAGE)
  {
    PageMultiple(q);
  }

  lemma {:induction false} PlacedByNumber(placed: seq<Placed>, ranges: seq<Range>, memory: int)
    requires forall q :: 0 <= q * PAGE < memory ==> OnePlace(placed, ranges, q * PAGE)
    ensures AllPlaced(placed, ranges, memory)
  {
    forall g | PageAligned(g) && 0 <= g < memory
      ensures OnePlace(placed, ranges, g)
    {
      assert g / PAGE * PAGE == g;
    }
  }

  /** Where every range was accepted, the pages are as the kernel needs them exactly when none is left out. */
  lemma {:induction false} ReadyIff(placed: seq<Placed>, memory: int, ranges: seq<Range>, end: PageTable)
    requires Lawful(placed, memory) && IsAcceptList(ranges, placed, memory) && Ended(placed, ranges, memory, end)
    ensures Ready(placed, memory, end) <==> NoEmptyBelow(placed, memory)
  {
    PartitionIffNoEmptyRegion(placed, memory, ranges);
    assert NoEmptyBelow(placed, memory) <==> AllPlaced(placed, ranges, memory);
    forall q | 0 <= q * PAGE < memory
      ensures ReadyAt(placed, end, q) <==> OnePlace(placed, ranges, q * PAGE)
      ensures AllPlaced(placed, ranges, memory) ==> OnePlace(placed, ranges, q * PAGE)
    {
      ReadyAtIff(placed, memory, ranges, end, q);
      if AllPlaced(placed, ranges, memory) {
        PlacedAt(placed, ranges, memory, q);
      }
    }
    if Ready(placed, memory, end) {
      PlacedByNumber(placed, ranges, memory);
    }
  }

  /**
   * A TDX boot under any answers the module gives. No page is accepted twice, no byte the map claims moves
   * and no access goes astray, however the run ends; at the kernel jump every page below `memory` is accepted
   * except MMIO if and only if no measured region there is empty, and the pages accepted by the shim are blank.
   */
  method RunTdx(a: Assembled, ghost memory: U64, ghost plan: Plan, ghost blob: Bytes, pages: PageTable, mem: Memory)
    returns (outcome: Tdx.Outcome, endPages: PageTable, endMem: Memory, ghost log: seq<Range>, ghost doubled: bool,
             ghost strayed: bool, ghost talk: seq<Exchange>)
    requires Bootable(a, memory, plan, TDX_MODE, blob) && plan.shimBase == RESET_ALIAS
    requires Loaded(pages, mem, LaunchList(a.placed))
    ensures !doubled && !strayed && Ascends(log) && Paged(endMem, TDX_MODE)
    ensures forall x :: InRanges(log, x) ==> 0 <= x < memory && !Claimed(Spans(a.placed), x)
    ensures forall x :: !InSlot(x) ==> Untouched(a.placed, mem, endMem, x)
    ensures forall q :: Claimed(Spans(a.placed), q * PAGE) ==> endPages(q) == pages(q)
    ensures if outcome.Kernel? then Passes(talk, a.ranges, |a.ranges|) else Halts(talk, a.ranges)
    ensures outcome.Kernel? ==>
              && outcome.entry == plan.entry
              && (forall x :: 0 <= x < memory && !Claimed(Spans(a.placed), x) && !InSlot(x) ==> endMem(x) == 0)
              && (Ready(a.placed, memory, endPages) <==> NoEmptyBelow(a.placed, memory))
  {
    var g := new Guest(pages, mem, TDX_MODE);
    StartWalkable(a, memory, plan, blob, g.Now());
    StartReads(a.placed, plan.shimBase, a.shim, blob, plan.entry, a.ranges, pages, mem);
    outcome := Tdx.Boot(g, a.ranges);
    endPages, endMem, log, doubled, talk := g.pages, g.mem, g.log, g.doubled, g.talk;
    strayed := g.strayed;
    assert Since([], talk) == talk;
    if outcome.Kernel? {
      RunEnds(a.placed, a.ranges, memory, mem, pages, endPages);
      ReadyIff(a.placed, memory, a.ranges, endPages);
    }
  }

  /** What the SNP shim's own contract means for the map. */
  lemma {:induction false} SnpLeaves(a: Assembled, memory: int, s: Moment, t: Moment)
    requires IsAcceptList(a.ranges, a.placed, memory)
    requires forall x :: !InSlot(x) && !InGhcb(x) ==> t.mem(x) == (if InRanges(t.log, x) then 0 else s.mem(x))
    requires forall x :: InRanges(t.log, x) ==> InRanges(a.ranges, x) || InGhcb(x)
    ensures forall x :: InRanges(t.log, x) && !InGhcb(x) ==> 0 <= x < memory && !Claimed(Spans(a.placed), x)
    ensures forall x :: !InSlot(x) && !InGhcb(x) ==> Untouched(a.placed, s.mem, t.mem, x)
    ensures (forall x :: InRanges(a.ranges, x) ==> InRanges(t.log, x)) ==>
              forall x :: 0 <= x < memory && !Claimed(Spans(a.placed), x) && !InSlot(x) && !InGhcb(x) ==> t.mem(x) == 0
  {
  }

  lemma {:induction false} ListedIsImported(list: seq<LaunchPage>, page: LaunchPage)
    requires page in list
    ensures Imported(list, page.gpa)
  {
  }

  lemma {:induction false} LoadedPage(pages: PageTable, mem: Memory, list: seq<LaunchPage>, q: int, g: int)
    requires Loaded(pages, mem, list) && g == q * PAGE && Imported(list, g)
    ensures pages(q) == Accepted
  {
  }

  lemma {:induction false} FirstAddress(base: int, data: Bytes) returns (page: LaunchPage)
    requires data != []
    ensures page in PagesOfData(base, data) && page.gpa == base
  {
    page := PagesOfData(base, data)[0];
  }

  lemma {:induction false} HeldIsImported(placed: seq<Placed>, k: nat, base: int, data: Bytes)
    requires Holds(placed, k, base, data) && data != []
    ensures Imported(LaunchList(placed), base)
  {
    var page := FirstAddress(base, data);
    RegionPage(placed, k, base, data, page);
    ListedIsImported(LaunchList(placed), page);
  }

  /** The GHCB page was imported, so its return to private leaves it as it came. */
  lemma {:induction false} GhcbImported(placed: seq<Placed>, pages: PageTable, mem: Memory, data: Bytes)
    requires Loaded(pages, mem, LaunchList(placed)) && HoldsAt(placed, SNP_GHCB, data) && data != []
    ensures pages(GHCB_PAGE) == Accepted
  {
    var k: nat :| Holds(placed, k, SNP_GHCB, data);
    HeldIsImported(placed, k, SNP_GHCB, data);
    LoadedPage(pages, mem, LaunchList(placed), GHCB_PAGE, SNP_GHCB);
  }

  /** An SNP run's ending is the one its answers call for, and what it tells the host is which answer that was. */
  ghost predicate Tells(outcome: Snp.Outcome, talk: seq<Exchange>, validated: nat, ranges: seq<Range>) {
    validated <= |talk| &&
    match outcome
    case Died(code) => validated == |talk| && Halts(talk, ranges) && Snp.Reports(code, talk)
    case WakeFailed(step, code) =>
      && Passes(talk[..validated], ranges, |ranges|) && RefusedAt(talk[validated..], 1, step)
      && Snp.ReportsStep(code, step)
    case Kernel(_) => Passes(talk[..validated], ranges, |ranges|) && Granted(talk[validated..], 1, 8)
  }

  /**
   * An SNP boot against any PVALIDATE answers and any host, under a C-bit the page tables work with. No page is
   * validated twice, no access goes astray, the GHCB page is the only claimed one the shim or the host writes, and
   * its alias is used only while it is shared and registered; at the kernel jump every page below `memory` is
   * private and validated except MMIO if and only if no measured region there is empty.
   */
  method RunSnp(a: Assembled, ghost memory: U64, ghost plan: Plan, cbit: nat, ghost blob: Bytes, pages: PageTable,
                mem: Memory, ghost data: Bytes)
    returns (outcome: Snp.Outcome, endPages: PageTable, endMem: Memory, ghost log: seq<Range>, ghost doubled: bool,
             ghost strayed: bool, ghost talk: seq<Exchange>, ghost validated: nat)
    requires Bootable(a, memory, plan, SnpMode(cbit), blob) && plan.shimBase == SHIM_BASE && 39 <= cbit <= 51
    requires HoldsAt(a.placed, SNP_GHCB, data) && data != []
    requires Loaded(pages, mem, LaunchList(a.placed))
    ensures !doubled && !strayed && Paged(endMem, SnpMode(cbit))
    ensures forall x :: InRanges(log, x) && !InGhcb(x) ==> 0 <= x < memory && !Claimed(Spans(a.placed), x)
    ensures forall x :: !InSlot(x) && !InGhcb(x) ==> Untouched(a.placed, mem, endMem, x)
    ensures forall q :: Claimed(Spans(a.placed), q * PAGE) && q != GHCB_PAGE ==> endPages(q) == pages(q)
    ensures Tells(outcome, talk, validated, a.ranges)
    ensures outcome.Kernel? ==>
              && outcome.entry == plan.entry
              && (forall x :: 0 <= x < memory && !Claimed(Spans(a.placed), x) && !InSlot(x) && !InGhcb(x) ==>
                    endMem(x) == 0)
              && (Ready(a.placed, memory, endPages) <==> NoEmptyBelow(a.placed, memory))
  {
    var g := new Guest(pages, mem, SnpMode(cbit));
    ghost var start := g.Now();
    StartWalkable(a, memory, plan, blob, start);
    StartReads(a.placed, plan.shimBase, a.shim, blob, plan.entry, a.ranges, pages, mem);
    outcome, validated := Snp.Boot(g, a.ranges);
    ghost var end := g.Now();
    endPages, endMem, log, doubled, strayed, talk := g.pages, g.mem, g.log, g.doubled, g.strayed, g.talk;
    SnpLeaves(a, memory, start, end);
    if outcome.Kernel? {
      GhcbImported(a.placed, pages, mem, data);
      RunEnds(a.placed, a.ranges, memory, mem, pages, endPages);
      ReadyIff(a.placed, memory, a.ranges, endPages);
    }
  }
}
