/** From the request for an image to the kernel jump, in one piece. */
module EndToEnd {
  import opened Wrappers
  import opened Layout
  import opened Bytes
  import opened Physical
  import opened Paging
  import opened Placement
  import opened Pages
  import opened Partition
  import opened ShimBlock
  import opened CommandLine
  import opened Params
  import opened Kernel
  import opened Guest
  import opened Trace
  import opened Image
  import opened Launch
  import opened Loader
  import opened Regions
  import opened Admission
  import opened Requests
  import opened Wrapping
  import opened Trimming
  import opened Offers
  import opened Build
  import opened Coverage
  import opened Conservation
  import opened SnpWake
  import opened Handover
  import Tdx = TdxShim
  import Snp = SnpShim
  import Measure = SnpMeasure
  import Mrtd
  import RequiredMemory
  import Acpi

  /** What the builder brings itself: the stack with its GDT, the CC blob, the VMSAs and the assembled shim. */
  datatype Kit = Kit(stack: Bytes, ccBlob: Bytes, vmsas: Vmsas, blob: Bytes)

  predicate IsKit(k: Kit) { |k.stack| == BSP_STACK_SIZE && |k.ccBlob| == PAGE && |k.blob| == PAGE }

  datatype Failure = BadParams(p: ParamError) | BadFiles(q: PrepareError) | BadBuild(b: BuildError)

  // ---------- making an image ----------

  /** The guest is told of exactly the RAM asked for, less its extra apertures, and all of it is backed. */
  ghost predicate Delivered(b: Built, memory: int, q: Request, holeEnd: int) {
    var listed := Total(EntryRanges(b.a.e820));
    && listed == q.ram + OwnSlack(q.ram, holeEnd) - HoleBytes(Unwrapped(q.mmio))
    && (q.initramfs != [] ==> listed == Total(b.a.ranges) + PAGE * |PagesBelow(b.pages, memory)|)
  }

  /** An image as it was asked for: where apertures that wrap do no harm, one that boots without them. */
  ghost predicate IsTdxImage(H: Mrtd.Hash, b: Built, q: Request, k: Kit, params: Params, p: Prepared) {
    && Suits(TdxGuest, q, params) && IsMrtd(H, b)
    && IsTdxMap(b.a, params, p, Acpi.AcpiPage(params.vcpus, true), k.stack, k.blob)
    && (Settles(TdxTaken(p), params) ==>
          && Completed(Pruned(b.a), Plain(params), p, TdxPlan(p), TDX_MODE, k.blob)
          && Delivered(b, params.memory, q, RESET_ALIAS))
  }

  ghost predicate IsSnpImage(H: Measure.Hash, b: Built, q: Request, cbit: nat, k: Kit, params: Params, p: Prepared) {
    && Suits(SnpGuest(cbit), q, params)
    && IsSnpMap(b.a, params, p, Acpi.AcpiPage(params.vcpus, false), k.ccBlob, k.stack, k.blob)
    && IsLaunchDigest(H, b, k.vmsas, params.vcpus)
    && (MapSettles(SnpTaken(p), params) ==> RequiredMemory.IsRequired(b.required, b.a.e820))
    && (Settles(SnpTaken(p), params) ==>
          && Completed(Pruned(b.a), Plain(params), p, SnpPlan(p), SnpMode(cbit), k.blob)
          && Delivered(b, params.memory, q, FOUR_GIB))
  }

  lemma {:induction false} ImageDelivers(on: Platform, q: Request, params: Params, p: Prepared, b: Built)
    requires Suits(on, q, params) && Accounted(Pruned(b.a), Plain(params)) && b.pages == LaunchList(b.a.placed)
    requires OnlyAperturesWrap(b.a.placed) && (NoEmptyRegion(Trim(b.a.placed)) <==> Whole(p))
    requires p.kernel != [] && p.initramfs == q.initramfs
    ensures Delivered(b, params.memory, q, HoleEnd(on))
  {
    TrimLaunches(b.a.placed);
  }

  method LayTdxImage(H: Mrtd.Hash, q: Request, k: Kit, params: Params, p: Prepared)
    returns (r: Result<Built, BuildError>)
    requires IsKit(k) && Suits(TdxGuest, q, params) && Sized(p) && FitsBelow(p, params.memory)
    requires p.kernel != [] && p.initramfs == q.initramfs
    ensures r.Ok? ==> IsTdxImage(H, r.value, q, k, params, p) && Admits(TdxTaken(p), params)
    ensures |q.mmio| <= 49 && RoomForData(k.blob) && Admits(TdxTaken(p), params) ==> r.Ok?
  {
    var acpi := Acpi.Build(params.vcpus, true);
    r := BuildTdx(H, params, p, acpi, k.stack, k.blob);
    if r.Ok? && Settles(TdxTaken(p), params) {
      ImageDelivers(TdxGuest, q, params, p, r.value);
    }
  }

  /** An image made to order, and what it was made from. */
  ghost predicate MadeTdx(H: Mrtd.Hash, b: Built, q: Request, k: Kit, params: Params, p: Prepared) {
    MadeFrom(TdxGuest, q, params, p) && IsTdxImage(H, b, q, k, params, p)
  }

  ghost predicate MadeSnp(H: Measure.Hash, b: Built, q: Request, cbit: nat, k: Kit, params: Params, p: Prepared) {
    MadeFrom(SnpGuest(cbit), q, params, p) && IsSnpImage(H, b, q, cbit, k, params, p)
  }

  /** A request's parameters checked, and its files read and cut. */
  method ReadRequest(on: Platform, q: Request) returns (r: Result<(Params, Prepared), Failure>)
    ensures r.Err? ==> !Buildable(on, q)
    ensures r.Ok? ==>
              && var (params, p) := r.value;
              && MadeFrom(on, q, params, p) && Suits(on, q, params)
              && Sized(p) && FitsBelow(p, params.memory) && p.kernel != [] && p.initramfs == q.initramfs
              && (on.TdxGuest? ==> (Buildable(on, q) <==> Admits(TdxTaken(p), params)))
              && (on.SnpGuest? ==> (Buildable(on, q) <==> Admits(SnpTaken(p), params)))
  {
    var asked := Asked(on, q);
    if asked.Err? {
      return Err(BadParams(asked.error));
    }
    AskedSuits(on, q);
    var files := Files(q, asked.value);
    if files.Err? {
      return Err(BadFiles(files.error));
    }
    FilesFacts(q, asked.value);
    BuildableIffAdmitted(on, q);
    return Ok((asked.value, files.value));
  }

  /** Every TDX request comes to an image exactly when it is buildable, and to one made to order. */
  method MakeTdx(H: Mrtd.Hash, q: Request, k: Kit)
    returns (r: Result<Built, Failure>, ghost params: Params, ghost p: Prepared)
    requires IsKit(k)
    ensures r.Ok? ==> Buildable(TdxGuest, q)
    ensures |q.mmio| <= 49 && RoomForData(k.blob) && Buildable(TdxGuest, q) ==> r.Ok?
    ensures r.Ok? ==> MadeTdx(H, r.value, q, k, params, p)
  {
    params, p := *, *;
    var read := ReadRequest(TdxGuest, q);
    if read.Err? {
      return Err(read.error), params, p;
    }
    params, p := read.value.0, read.value.1;
    var built := LayTdxImage(H, q, k, read.value.0, read.value.1);
    if built.Err? {
      return Err(BadBuild(built.error)), params, p;
    }
    return Ok(built.value), params, p;
  }

  method LaySnpImage(H: Measure.Hash, q: Request, cbit: nat, k: Kit, params: Params, p: Prepared)
    returns (r: Result<Built, BuildError>)
    requires IsKit(k) && Suits(SnpGuest(cbit), q, params) && Sized(p) && FitsBelow(p, params.memory)
    requires p.kernel != [] && p.initramfs == q.initramfs
    ensures r.Ok? ==> IsSnpImage(H, r.value, q, cbit, k, params, p) && Admits(SnpTaken(p), params)
    ensures |q.mmio| <= 46 && RoomForData(k.blob) && Admits(SnpTaken(p), params) ==> r.Ok?
  {
    var acpi := Acpi.Build(params.vcpus, false);
    r := BuildSnp(H, params, p, acpi, k.ccBlob, k.stack, k.vmsas, k.blob);
    if r.Ok? && Settles(SnpTaken(p), params) {
      ImageDelivers(SnpGuest(cbit), q, params, p, r.value);
    }
  }

  /** The same on SNP, whatever C-bit is asked for. */
  method MakeSnp(H: Measure.Hash, q: Request, cbit: nat, k: Kit)
    returns (r: Result<Built, Failure>, ghost params: Params, ghost p: Prepared)
    requires IsKit(k)
    ensures r.Ok? ==> Buildable(SnpGuest(cbit), q)
    ensures |q.mmio| <= 46 && RoomForData(k.blob) && Buildable(SnpGuest(cbit), q) ==> r.Ok?
    ensures r.Ok? ==> MadeSnp(H, r.value, q, cbit, k, params, p)
  {
    params, p := *, *;
    var read := ReadRequest(SnpGuest(cbit), q);
    if read.Err? {
      return Err(read.error), params, p;
    }
    params, p := read.value.0, read.value.1;
    var built := LaySnpImage(H, q, cbit, k, read.value.0, read.value.1);
    if built.Err? {
      return Err(BadBuild(built.error)), params, p;
    }
    return Ok(built.value), params, p;
  }

  // ---------- what is still there after a run ----------

  /** No byte a map claims has moved, but where the shims write. */
  ghost predicate Kept(placed: seq<Placed>, mem: Memory, end: Memory) {
    forall x :: !InSlot(x) && !InGhcb(x) ==> Untouched(placed, mem, end, x)
  }

  lemma {:induction false} StillThere(placed: seq<Placed>, memory: int, pages: PageTable, mem: Memory, end: Memory,
                                      base: int, data: Bytes)
    requires Lawful(placed, memory) && Loaded(pages, mem, LaunchList(placed)) && Kept(placed, mem, end)
    requires HoldsAt(placed, base, data) && (base + |data| <= STACK_SLOT || SNP_GHCB + PAGE <= base)
    ensures Lies(end, base, data)
  {
    forall x | base <= x < base + |data| && Claimed(Spans(placed), x)
      ensures end(x) == mem(x)
    {
      assert !InSlot(x) && !InGhcb(x);
      assert Untouched(placed, mem, end, x);
    }
    RegionKept(placed, memory, pages, mem, end, base, data);
  }

  /** The stack the builder laid out, with its descriptor table, but for the slot below its top. */
  ghost predicate FindsStack(mem: Memory, stack: Bytes) {
    |stack| == 0x1_0000 && Lies(mem, 0x10_7000, stack[..0xfff8])
  }

  lemma {:induction false} StackStays(placed: seq<Placed>, memory: int, pages: PageTable, mem: Memory, end: Memory,
                                      stack: Bytes)
    requires Lawful(placed, memory) && Loaded(pages, mem, LaunchList(placed)) && Kept(placed, mem, end)
    requires HoldsAt(placed, BSP_STACK, stack) && |stack| == BSP_STACK_SIZE
    ensures FindsStack(end, stack)
  {
    var k: nat :| Holds(placed, k, BSP_STACK, stack);
    MeasuredLies(placed, pages, mem, k, BSP_STACK, stack);
    RegionClaims(placed, memory, k);
    forall i | 0 <= i < 0xfff8
      ensures end(0x10_7000 + i) == stack[..0xfff8][i]
    {
      assert !InSlot(BSP_STACK + i) && !InGhcb(BSP_STACK + i);
      assert Untouched(placed, mem, end, BSP_STACK + i);
    }
  }

  lemma {:induction false} AllStands(a: Assembled, memory: int, p: Prepared, acpi: Bytes, pages: PageTable,
                                     mem: Memory, end: Memory)
    requires Lawful(a.placed, memory) && Loaded(pages, mem, LaunchList(a.placed)) && Kept(a.placed, mem, end)
    requires Furnished(a, p, acpi) && |a.zero| == PAGE && |p.command| == PAGE && |acpi| == PAGE
    ensures Stands(end, a.zero, p, acpi)
  {
    StillThere(a.placed, memory, pages, mem, end, ZERO_PAGE, a.zero);
    StillThere(a.placed, memory, pages, mem, end, CMDLINE, p.command);
    StillThere(a.placed, memory, pages, mem, end, ACPI_BASE, acpi);
    StillThere(a.placed, memory, pages, mem, end, KERNEL_SETUP_BASE, p.setup);
    StillThere(a.placed, memory, pages, mem, end, KERNEL_BASE, p.kernel);
    StillThere(a.placed, memory, pages, mem, end, INITRAMFS_BASE, p.initramfs);
  }

  /** What an image made to order gives any run of it that keeps what it claims. */
  lemma {:induction false} KernelIsInformed(on: Platform, q: Request, params: Params, a: Assembled, plan: Plan, m: Mode,
                                            blob: Bytes, wakeup: bool, pages: PageTable, mem: Memory, end: Memory)
    requires Suits(on, q, params) && Files(q, params).Ok?
    requires var p := Files(q, params).value;
             && Furnished(a, p, Acpi.AcpiPage(params.vcpus, wakeup))
             && plan.setup == p.setup && plan.initSize == p.info.initSize && plan.initramfsLen == |p.initramfs|
    requires SelfDescribed(a, params.memory, plan, blob)
    requires Loaded(pages, mem, LaunchList(a.placed)) && Kept(a.placed, mem, end)
    ensures Informed(end, q.file, q.initramfs, Normalise(q.cmdline), q.cmdline, a.e820, q.vcpus, wakeup)
    ensures Load64(end, 0x7250) == plan.setupData
  {
    var p := Files(q, params).value;
    FilesFacts(q, params);
    AllStands(a, params.memory, p, Acpi.AcpiPage(params.vcpus, wakeup), pages, mem, end);
    NormaliseHonours(q.cmdline);
    KernelFindsAll(end, q.file, params.cmdline, q.cmdline, a.zero, p, a.e820, plan.setupData, params.vcpus, wakeup);
  }

  /** What is true of a map without its wrapping apertures, said of the map. */
  lemma {:induction false} SaidOfWhole(placed: seq<Placed>, memory: int, pages: PageTable)
    requires TrimsAlike(placed)
    ensures Ready(Trim(placed), memory, pages) <==> Ready(placed, memory, pages)
    ensures forall x :: Claimed(Spans(Trim(placed)), x) <==> Claimed(Spans(placed), x)
  {
    forall q
      ensures ReadyAt(Trim(placed), pages, q) <==> ReadyAt(placed, pages, q)
    {
    }
  }

  /** What a TDX image's kernel finds in memory after any run that kept what its map claims. */
  lemma {:induction false} TdxReads(H: Mrtd.Hash, b: Built, q: Request, k: Kit, params: Params, p: Prepared,
                                    pages: PageTable, mem: Memory, end: Memory)
    requires IsTdxImage(H, b, q, k, params, p) && Settles(TdxTaken(p), params) && IsKit(k)
    requires Files(q, params).Ok? && p == Files(q, params).value
    requires Loaded(pages, mem, LaunchList(b.a.placed)) && Kept(Trim(b.a.placed), mem, end)
    ensures Informed(end, q.file, q.initramfs, Normalise(q.cmdline), q.cmdline, b.a.e820, q.vcpus, true)
    ensures FindsSetupData(end, 0, []) && Lies(end, MAILBOX, Zeros(PAGE)) && FindsStack(end, k.stack)
  {
    TrimLaunches(b.a.placed);
    TrimFurnished(b.a, p, Acpi.AcpiPage(params.vcpus, true));
    TrimHolds(b.a.placed, MAILBOX, Zeros(PAGE));
    KernelIsInformed(TdxGuest, q, params, Pruned(b.a), TdxPlan(p), TDX_MODE, k.blob, true, pages, mem, end);
    StillThere(Trim(b.a.placed), params.memory, pages, mem, end, MAILBOX, Zeros(PAGE));
    TrimHolds(b.a.placed, BSP_STACK, k.stack);
    StackStays(Trim(b.a.placed), params.memory, pages, mem, end, k.stack);
  }

  lemma {:induction false} SnpReads(H: Measure.Hash, b: Built, q: Request, cbit: nat, k: Kit, params: Params,
                                    p: Prepared,
                                    pages: PageTable, mem: Memory, end: Memory)
    requires IsSnpImage(H, b, q, cbit, k, params, p) && Settles(SnpTaken(p), params)
    requires Files(q, params).Ok? && p == Files(q, params).value
    requires IsKit(k) && Loaded(pages, mem, LaunchList(b.a.placed)) && Kept(Trim(b.a.placed), mem, end)
    ensures Informed(end, q.file, q.initramfs, Normalise(q.cmdline), q.cmdline, b.a.e820, q.vcpus, false)
    ensures FindsSetupData(end, SNP_CC_BLOB, k.ccBlob) && FindsStack(end, k.stack)
  {
    TrimLaunches(b.a.placed);
    TrimFurnished(b.a, p, Acpi.AcpiPage(params.vcpus, false));
    TrimHolds(b.a.placed, SNP_CC_BLOB, k.ccBlob);
    KernelIsInformed(SnpGuest(cbit), q, params, Pruned(b.a), SnpPlan(p), SnpMode(cbit), k.blob, false,
                     pages, mem, end);
    StillThere(Trim(b.a.placed), params.memory, pages, mem, end, SNP_CC_BLOB, k.ccBlob);
    TrimHolds(b.a.placed, BSP_STACK, k.stack);
    StackStays(Trim(b.a.placed), params.memory, pages, mem, end, k.stack);
  }

  // ---------- the memory it is offered ----------

  /** The apertures of a request: the machine's own, where its memory goes past it, and those asked for. */
  function Apertures(snp: bool, q: Request): seq<Hole> {
    (if q.ram < 0xb000_0000 then [] else [Hole(0x8000_0000, if snp then 0x8000_0000 else 0x7fff_f000)]) + q.mmio
  }

  /** How far a request's memory goes. */
  function MemoryEnd(q: Request): int { if q.ram < 0xb000_0000 then q.ram else q.ram + 0x8000_0000 }

  /** Every address to the end of the memory asked for is offered by the map the kernel reads under its type. */
  ghost predicate MemoryAsAsked(mem: Memory, placed: seq<Placed>, memory: int, snp: bool, q: Request) {
    && ParseBzImage(q.file).Ok? && memory == MemoryEnd(q)
    && Offered(MapIn(mem), placed, memory, snp, q.file[ParseBzImage(q.file).value.setupBytes..], q.initramfs,
               Apertures(snp, q))
  }

  lemma {:induction false} ParamsAsAsked(on: Platform, q: Request, params: Params)
    requires Suits(on, q, params) && params.memory == MemoryAsked(on, q)
    ensures params.memory == MemoryEnd(q) && params.mmio == Apertures(on.SnpGuest?, q)
  {
    MadeAsAsked(on, q, params);
    NewValue(q.ram, q.vcpus, q.cmdline, CbitOf(on), q.mmio, HoleEnd(on));
  }

  lemma {:induction false} SettlesMap(taken: seq<Range>, params: Params)
    requires Settles(taken, params)
    ensures MapSettles(taken, params)
  {
    HarmlessForBoth(ClaimList(taken, params.mmio), params.memory);
  }

  lemma {:induction false} TdxOffers(H: Mrtd.Hash, b: Built, q: Request, k: Kit, params: Params, p: Prepared,
                                     mem: Memory)
    requires MadeTdx(H, b, q, k, params, p) && Settles(TdxTaken(p), params) && FindsMap(mem, b.a.e820)
    ensures MemoryAsAsked(mem, b.a.placed, MemoryAsked(TdxGuest, q), false, q)
  {
    SettlesMap(TdxTaken(p), params);
    ParamsAsAsked(TdxGuest, q, params);
    FilesFacts(q, params);
  }

  lemma {:induction false} SnpOffers(H: Measure.Hash, b: Built, q: Request, cbit: nat, k: Kit, params: Params,
                                     p: Prepared, mem: Memory)
    requires MadeSnp(H, b, q, cbit, k, params, p) && Settles(SnpTaken(p), params) && FindsMap(mem, b.a.e820)
    ensures MemoryAsAsked(mem, b.a.placed, MemoryAsked(SnpGuest(cbit), q), true, q)
  {
    SettlesMap(SnpTaken(p), params);
    ParamsAsAsked(SnpGuest(cbit), q, params);
    FilesFacts(q, params);
  }

  // ---------- booting it ----------

  /** What a map needs for its shim to be started. */
  ghost predicate Launchable(a: Assembled, memory: int, plan: Plan, m: Mode, blob: Bytes) {
    && Bootable(Pruned(a), memory, plan, m, blob)
    && OnlyAperturesWrap(a.placed) && TrimsAlike(a.placed) && Ascending(LaunchList(a.placed))
  }

  lemma {:induction false} TdxLaunches(H: Mrtd.Hash, b: Built, q: Request, k: Kit, params: Params, p: Prepared)
    requires IsTdxImage(H, b, q, k, params, p) && Settles(TdxTaken(p), params)
    requires p.kernel != [] && p.initramfs == q.initramfs
    ensures Launchable(b.a, params.memory, TdxPlan(p), TDX_MODE, k.blob)
    ensures NoEmptyBelow(Trim(b.a.placed), params.memory) <==> q.initramfs != []
  {
  }

  lemma {:induction false} SnpLaunches(H: Measure.Hash, b: Built, q: Request, cbit: nat, k: Kit, params: Params,
                                       p: Prepared)
    requires IsSnpImage(H, b, q, cbit, k, params, p) && Settles(SnpTaken(p), params)
    requires p.kernel != [] && p.initramfs == q.initramfs
    ensures Launchable(b.a, params.memory, SnpPlan(p), SnpMode(cbit), k.blob)
    ensures NoEmptyBelow(Trim(b.a.placed), params.memory) <==> q.initramfs != []
    ensures HoldsAt(b.a.placed, SNP_GHCB, Zeros(PAGE))
  {
  }

  /** The image loaded and its shim run, as RunTdx has it, said of the whole map. */
  method StartTdx(a: Assembled, ghost memory: U64, ghost plan: Plan, ghost blob: Bytes, blank: Memory)
    returns (outcome: Tdx.Outcome, endPages: PageTable, endMem: Memory, ghost mem: Memory,
             ghost log: seq<Range>, ghost doubled: bool, ghost strayed: bool, ghost talk: seq<Exchange>)
    requires Launchable(a, memory, plan, TDX_MODE, blob) && plan.shimBase == RESET_ALIAS
    ensures Loaded(LoadedPages(LaunchList(a.placed)), mem, LaunchList(a.placed))
    ensures !doubled && !strayed && Paged(endMem, TDX_MODE) && Kept(Trim(a.placed), mem, endMem)
    ensures forall x :: InRanges(log, x) ==> 0 <= x < memory && !Claimed(Spans(a.placed), x)
    ensures if outcome.Kernel? then Passes(talk, a.ranges, |a.ranges|) else Halts(talk, a.ranges)
    ensures outcome.Kernel? ==>
              && outcome.entry == plan.entry
              && (Ready(a.placed, memory, endPages) <==> NoEmptyBelow(Trim(a.placed), memory))
              && forall x :: 0 <= x < memory && !Claimed(Spans(a.placed), x) && !InSlot(x) ==> endMem(x) == 0
  {
    TrimLaunches(a.placed);
    LoaderLoadsMap(a.placed, blank);
    var pages, loaded := LoadedPages(LaunchList(a.placed)), LoadedMemory(LaunchList(a.placed), blank);
    outcome, endPages, endMem, log, doubled, strayed, talk := RunTdx(Pruned(a), memory, plan, blob, pages, loaded);
    mem := loaded;
    SaidOfWhole(a.placed, memory, endPages);
  }

  method StartSnp(a: Assembled, ghost memory: U64, ghost plan: Plan, cbit: nat, ghost blob: Bytes, blank: Memory)
    returns (outcome: Snp.Outcome, endPages: PageTable, endMem: Memory, ghost mem: Memory,
             ghost log: seq<Range>, ghost doubled: bool, ghost strayed: bool,
             ghost talk: seq<Exchange>, ghost validated: nat)
    requires Launchable(a, memory, plan, SnpMode(cbit), blob) && plan.shimBase == SHIM_BASE && 39 <= cbit <= 51
    requires HoldsAt(a.placed, SNP_GHCB, Zeros(PAGE))
    ensures Loaded(LoadedPages(LaunchList(a.placed)), mem, LaunchList(a.placed))
    ensures !doubled && !strayed && Paged(endMem, SnpMode(cbit)) && Kept(Trim(a.placed), mem, endMem)
    ensures forall x :: InRanges(log, x) && !InGhcb(x) ==> 0 <= x < memory && !Claimed(Spans(a.placed), x)
    ensures Tells(outcome, talk, validated, a.ranges)
    ensures outcome.Kernel? ==>
              && outcome.entry == plan.entry
              && (Ready(a.placed, memory, endPages) <==> NoEmptyBelow(Trim(a.placed), memory))
              && forall x :: 0 <= x < memory && !Claimed(Spans(a.placed), x) && !InSlot(x) && !InGhcb(x) ==>
                   endMem(x) == 0
  {
    TrimLaunches(a.placed);
    TrimHolds(a.placed, SNP_GHCB, Zeros(PAGE));
    LoaderLoadsMap(a.placed, blank);
    var pages, loaded := LoadedPages(LaunchList(a.placed)), LoadedMemory(LaunchList(a.placed), blank);
    outcome, endPages, endMem, log, doubled, strayed, talk, validated :=
      RunSnp(Pruned(a), memory, plan, cbit, blob, pages, loaded, Zeros(PAGE));
    mem := loaded;
    SaidOfWhole(a.placed, memory, endPages);
  }

  /**
   * How a TDX boot ends, under any answers the module gives: nothing accepted twice or outside RAM no region claims,
   * no access astray, and everything the kernel looks for where it looks. It is entered unless an answer was fatal,
   * and then finds blank what the shim accepted, and each page of its memory accepted except MMIO exactly if its
   * initramfs is not empty.
   */
  ghost predicate EndsTdx(q: Request, k: Kit, a: Assembled, memory: int, outcome: Tdx.Outcome, pages: PageTable,
                          mem: Memory, log: seq<Range>, doubled: bool, strayed: bool, talk: seq<Exchange>)
  {
    && !doubled && !strayed && Paged(mem, TDX_MODE)
    && Informed(mem, q.file, q.initramfs, Normalise(q.cmdline), q.cmdline, a.e820, q.vcpus, true)
    && MemoryAsAsked(mem, a.placed, memory, false, q)
    && FindsSetupData(mem, 0, []) && Lies(mem, 0xf_0000, Zeros(4096)) && FindsStack(mem, k.stack)
    && (forall x :: InRanges(log, x) ==> 0 <= x < memory && !Claimed(Spans(a.placed), x))
    && (if outcome.Kernel? then Passes(talk, a.ranges, |a.ranges|) else Halts(talk, a.ranges))
    && (outcome.Kernel? ==>
          && outcome.entry == 0x100_0200
          && (Ready(a.placed, memory, pages) <==> q.initramfs != [])
          && forall x :: 0 <= x < memory && !Claimed(Spans(a.placed), x) && !InSlot(x) ==> mem(x) == 0)
  }

  /** How an SNP boot ends, against any PVALIDATE answers and any host, for a C-bit of 39 to 51. */
  ghost predicate EndsSnp(q: Request, cbit: nat, k: Kit, a: Assembled, memory: int, outcome: Snp.Outcome,
                          pages: PageTable,
                          mem: Memory, log: seq<Range>, doubled: bool, strayed: bool, talk: seq<Exchange>,
                          validated: nat)
  {
    && !doubled && !strayed && Paged(mem, SnpMode(cbit))
    && Informed(mem, q.file, q.initramfs, Normalise(q.cmdline), q.cmdline, a.e820, q.vcpus, false)
    && MemoryAsAsked(mem, a.placed, memory, true, q)
    && FindsSetupData(mem, 0xf_2000, k.ccBlob) && FindsStack(mem, k.stack)
    && (forall x :: InRanges(log, x) && !InGhcb(x) ==> 0 <= x < memory && !Claimed(Spans(a.placed), x))
    && Tells(outcome, talk, validated, a.ranges)
    && (outcome.Kernel? ==>
          && outcome.entry == 0x100_0200
          && (Ready(a.placed, memory, pages) <==> q.initramfs != [])
          && forall x :: 0 <= x < memory && !Claimed(Spans(a.placed), x) && !InSlot(x) && !InGhcb(x) ==> mem(x) == 0)
  }

  method BootMadeTdx(ghost H: Mrtd.Hash, b: Built, ghost q: Request, ghost k: Kit, ghost params: Params,
                     ghost p: Prepared, blank: Memory)
    returns (outcome: Tdx.Outcome, endPages: PageTable, endMem: Memory,
             ghost log: seq<Range>, ghost doubled: bool, ghost strayed: bool, ghost talk: seq<Exchange>)
    requires MadeTdx(H, b, q, k, params, p) && WrapsSettled(TdxGuest, q) && IsKit(k)
    ensures EndsTdx(q, k, b.a, MemoryAsked(TdxGuest, q), outcome, endPages, endMem, log, doubled, strayed, talk)
  {
    FilesFacts(q, params);
    MadeSettles(TdxGuest, q, params, p);
    TdxLaunches(H, b, q, k, params, p);
    ghost var mem;
    outcome, endPages, endMem, mem, log, doubled, strayed, talk :=
      StartTdx(b.a, params.memory, TdxPlan(p), k.blob, blank);
    TdxReads(H, b, q, k, params, p, LoadedPages(LaunchList(b.a.placed)), mem, endMem);
    TdxOffers(H, b, q, k, params, p, endMem);
  }

  method BootMadeSnp(ghost H: Measure.Hash, b: Built, ghost q: Request, cbit: nat, ghost k: Kit, ghost params: Params,
                     ghost p: Prepared, blank: Memory)
    returns (outcome: Snp.Outcome, endPages: PageTable, endMem: Memory,
             ghost log: seq<Range>, ghost doubled: bool, ghost strayed: bool,
             ghost talk: seq<Exchange>, ghost validated: nat)
    requires MadeSnp(H, b, q, cbit, k, params, p) && WrapsSettled(SnpGuest(cbit), q)
    requires IsKit(k) && 39 <= cbit <= 51
    ensures EndsSnp(q, cbit, k, b.a, MemoryAsked(SnpGuest(cbit), q), outcome, endPages, endMem,
                    log, doubled, strayed, talk, validated)
  {
    FilesFacts(q, params);
    MadeSettles(SnpGuest(cbit), q, params, p);
    SnpLaunches(H, b, q, cbit, k, params, p);
    ghost var mem;
    outcome, endPages, endMem, mem, log, doubled, strayed, talk, validated :=
      StartSnp(b.a, params.memory, SnpPlan(p), cbit, k.blob, blank);
    SnpReads(H, b, q, cbit, k, params, p, LoadedPages(LaunchList(b.a.placed)), mem, endMem);
    SnpOffers(H, b, q, cbit, k, params, p, endMem);
  }

  /** Every TDX request that builds, and whose wrapping apertures do no harm if it has any, boots. */
  method BootTdx(H: Mrtd.Hash, q: Request, k: Kit, blank: Memory)
    returns (r: Result<(Built, Tdx.Outcome), Failure>, endPages: PageTable, endMem: Memory,
             ghost log: seq<Range>, ghost doubled: bool, ghost strayed: bool, ghost talk: seq<Exchange>)
    requires IsKit(k) && WrapsSettled(TdxGuest, q)
    ensures r.Ok? ==> Buildable(TdxGuest, q)
    ensures |q.mmio| <= 49 && RoomForData(k.blob) && Buildable(TdxGuest, q) ==> r.Ok?
    ensures r.Ok? ==>
              EndsTdx(q, k, r.value.0.a, MemoryAsked(TdxGuest, q), r.value.1, endPages, endMem,
                      log, doubled, strayed, talk)
  {
    endPages, endMem, log, doubled, strayed, talk := LoadedPages([]), blank, [], false, false, [];
    var made;
    ghost var params, p;
    made, params, p := MakeTdx(H, q, k);
    if made.Err? {
      return Err(made.error), endPages, endMem, log, doubled, strayed, talk;
    }
    var outcome;
    outcome, endPages, endMem, log, doubled, strayed, talk := BootMadeTdx(H, made.value, q, k, params, p, blank);
    return Ok((made.value, outcome)), endPages, endMem, log, doubled, strayed, talk;
  }

  /** The same on SNP. */
  method BootSnp(H: Measure.Hash, q: Request, cbit: nat, k: Kit, blank: Memory)
    returns (r: Result<(Built, Snp.Outcome), Failure>, endPages: PageTable, endMem: Memory,
             ghost log: seq<Range>, ghost doubled: bool, ghost strayed: bool,
             ghost talk: seq<Exchange>, ghost validated: nat)
    requires IsKit(k) && WrapsSettled(SnpGuest(cbit), q) && 39 <= cbit <= 51
    ensures r.Ok? ==> Buildable(SnpGuest(cbit), q)
    ensures |q.mmio| <= 46 && RoomForData(k.blob) && Buildable(SnpGuest(cbit), q) ==> r.Ok?
    ensures r.Ok? ==>
              EndsSnp(q, cbit, k, r.value.0.a, MemoryAsked(SnpGuest(cbit), q), r.value.1, endPages, endMem,
                      log, doubled, strayed, talk, validated)
  {
    endPages, endMem, log, doubled, strayed, talk, validated := LoadedPages([]), blank, [], false, false, [], 0;
    var made;
    ghost var params, p;
    made, params, p := MakeSnp(H, q, cbit, k);
    if made.Err? {
      return Err(made.error), endPages, endMem, log, doubled, strayed, talk, validated;
    }
    var outcome;
    outcome, endPages, endMem, log, doubled, strayed, talk, validated :=
      BootMadeSnp(H, made.value, q, cbit, k, params, p, blank);
    return Ok((made.value, outcome)), endPages, endMem, log, doubled, strayed, talk, validated;
  }
}
