/** A guest as its shim sees it: page states, memory behind its page tables, and the firmware's answers. */
module Guest {
  import opened Wrappers
  import opened Layout
  import opened Bytes
  import opened Physical
  import opened Paging
  import opened Placement
  import opened ShimBlock

  datatype PageState = Unaccepted | Accepted | Shared

  type PageTable = int -> PageState

  function SetPages(pages: PageTable, lo: int, hi: int, to: PageState): PageTable {
    q => if lo <= q * PAGE < hi then to else pages(q)
  }

  /** Extents in ascending order, none meeting another: no page is in two of them. */
  ghost predicate Ascends(log: seq<Range>) {
    && (forall i :: 0 <= i < |log| ==> log[i].lo < log[i].hi)
    && (forall i, j :: 0 <= i < j < |log| ==> log[i].hi <= log[j].lo)
  }

  ghost predicate EndsBy(log: seq<Range>, at: int) {
    forall i :: 0 <= i < |log| ==> log[i].hi <= at
  }

  ghost predicate Waiting(pages: PageTable, lo: int, hi: int) {
    forall q :: lo <= q * PAGE < hi ==> pages(q) == Unaccepted
  }

  lemma {:induction false} NextPage(at: int, hi: int)
    requires PageAligned(at) && PageAligned(hi) && at < hi
    ensures at + PAGE <= hi && PageAligned(at + PAGE) && PageAligned(at + PAGE_2M)
  {
  }

  /** The bytes of the stack a shim's one call at a time uses. */
  const STACK_SLOT := BSP_STACK_TOP - 8

  /** Everything a shim changes, at one moment. */
  datatype Moment = Moment(pages: PageTable, mem: Memory, log: seq<Range>, doubled: bool, strayed: bool, mode: Mode)

  /** Nothing taken twice in between, no access gone astray, and paging set up as it was. */
  predicate Steady(s: Moment, t: Moment) {
    t.doubled == s.doubled && t.strayed == s.strayed && t.mode == s.mode
  }

  /** Between two moments exactly [lo, upTo) was taken, each extent once, and blanked. */
  ghost predicate Reached(s: Moment, t: Moment, lo: int, upTo: int) {
    && (forall a :: t.mem(a) == if lo <= a < upTo then 0 else s.mem(a))
    && Ascends(t.log) && EndsBy(t.log, upTo)
    && (forall a :: InRanges(t.log, a) <==> InRanges(s.log, a) || lo <= a < upTo)
    && Steady(s, t)
  }

  ghost predicate PagesTook(p: PageTable, r: PageTable, lo: int, upTo: int) {
    forall q :: r(q) == if lo <= q * PAGE < upTo then Accepted else p(q)
  }

  /** ...and the pages left accepted are exactly those. */
  ghost predicate Took(s: Moment, t: Moment, lo: int, upTo: int) {
    PagesTook(s.pages, t.pages, lo, upTo) && Reached(s, t, lo, upTo)
  }

  lemma {:induction false} TookThen(s: Moment, t: Moment, u: Moment, lo: int, mid: int, hi: int)
    requires lo <= mid <= hi
    requires Took(s, t, lo, mid) && Took(t, u, mid, hi)
    ensures Took(s, u, lo, hi)
  {
  }

  /** What a range loop has not reached still waits. */
  lemma {:induction false} StillWaiting(s: Moment, t: Moment, lo: int, mid: int, from: int, to: int)
    requires Took(s, t, lo, mid) && mid <= from && Waiting(s.pages, from, to)
    ensures Waiting(t.pages, from, to)
  {
  }

  lemma {:induction false} TookExtent(s: Moment, t: Moment, at: int, size: nat)
    requires size > 0 && Ascends(s.log) && EndsBy(s.log, at)
    requires t.pages == SetPages(s.pages, at, at + size, Accepted)
    requires t.mem == Zeroed(s.mem, at, at + size)
    requires t.log == s.log + [Range(at, at + size)] && Steady(s, t)
    ensures Took(s, t, at, at + size)
  {
    forall a
      ensures InRanges(t.log, a) <==> InRanges(s.log, a) || at <= a < at + size
    {
      InRangesSnoc(s.log, Range(at, at + size), a);
    }
  }

  predicate InSlot(a: int) { STACK_SLOT <= a < STACK_SLOT + 8 }

  /** A range that takes no page of the tables. */
  predicate ClearOfTables(m: Mode, lo: int, hi: int) { hi <= PAGE_TABLES || PAGE_TABLES + m.TableBytes() <= lo }

  /** What the ranges in a shim's block promise it, given the page it runs from. */
  ghost predicate Walkable(s: Moment, ranges: seq<Range>, base: int) {
    && Ascends(ranges) && Paged(s.mem, s.mode)
    && (forall i :: 0 <= i < |ranges| ==>
          && 0 <= ranges[i].lo && PageAligned(ranges[i].lo) && PageAligned(ranges[i].hi)
          && ranges[i].hi <= MAP_LIMIT
          && ClearOfTables(s.mode, ranges[i].lo, ranges[i].hi)
          && (ranges[i].hi <= base || base + PAGE <= ranges[i].lo)
          && (ranges[i].hi <= STACK_SLOT || STACK_SLOT + 8 <= ranges[i].lo)
          && Waiting(s.pages, ranges[i].lo, ranges[i].hi))
  }

  /** What any run has done to memory: blanked the extents logged, all from the ranges, each once. */
  ghost predicate Blanked(s: Moment, t: Moment, ranges: seq<Range>) {
    && (forall a :: !InSlot(a) ==> t.mem(a) == if InRanges(t.log, a) then 0 else s.mem(a))
    && (forall a :: InRanges(t.log, a) ==> InRanges(ranges, a))
    && Ascends(t.log)
    && Steady(s, t)
  }

  /** ...and the pages accepted since are exactly those logged. */
  ghost predicate Ran(s: Moment, t: Moment, ranges: seq<Range>) {
    && (forall q :: t.pages(q) == if InRanges(t.log, q * PAGE) then Accepted else s.pages(q))
    && Blanked(s, t, ranges)
  }

  /** What one `call` of a range loop does, its return address being on the stack. */
  ghost predicate CallReached(s: Moment, t: Moment, lo: int, upTo: int) {
    && (forall a :: !InSlot(a) ==> t.mem(a) == if lo <= a < upTo then 0 else s.mem(a))
    && Ascends(t.log) && EndsBy(t.log, upTo)
    && (forall a :: InRanges(t.log, a) <==> InRanges(s.log, a) || lo <= a < upTo)
    && Steady(s, t)
  }

  ghost predicate CallTook(s: Moment, t: Moment, lo: int, upTo: int) {
    PagesTook(s.pages, t.pages, lo, upTo) && CallReached(s, t, lo, upTo)
  }

  /** One more range, or part of it. */
  lemma {:induction false} RanThen(s: Moment, t: Moment, u: Moment, ranges: seq<Range>, k: nat, upTo: int)
    requires Ran(s, t, ranges) && k < |ranges| && ranges[k].lo <= upTo <= ranges[k].hi
    requires CallTook(t, u, ranges[k].lo, upTo)
    ensures Ran(s, u, ranges)
  {
    forall a | InRanges(u.log, a)
      ensures InRanges(ranges, a)
    {
      if !InRanges(t.log, a) {
        assert ranges[k].lo <= a < ranges[k].hi;
      }
    }
  }

  /** The same for a range that failed part way, whatever state its own pages are left in. */
  lemma {:induction false} BlankedThen(s: Moment, t: Moment, u: Moment, ranges: seq<Range>, k: nat, upTo: int)
    requires Ran(s, t, ranges) && k < |ranges| && ranges[k].lo <= upTo <= ranges[k].hi
    requires CallReached(t, u, ranges[k].lo, upTo)
    requires forall q :: !(ranges[k].lo <= q * PAGE < ranges[k].hi) ==> u.pages(q) == t.pages(q)
    ensures Blanked(s, u, ranges)
    ensures forall q :: !InRanges(ranges, q * PAGE) ==> u.pages(q) == s.pages(q)
  {
    forall a | InRanges(u.log, a)
      ensures InRanges(ranges, a)
    {
      if !InRanges(t.log, a) {
        assert ranges[k].lo <= a < ranges[k].hi;
      }
    }
    forall q | !InRanges(ranges, q * PAGE)
      ensures u.pages(q) == s.pages(q)
    {
      assert ranges[k].lo <= q * PAGE < ranges[k].hi ==> InRanges(ranges, q * PAGE);
    }
  }

  /** The range after those done still waits, above everything logged. */
  lemma {:induction false} NextWaits(s: Moment, t: Moment, ranges: seq<Range>, base: int, k: nat)
    requires Walkable(s, ranges, base) && Ran(s, t, ranges) && k < |ranges|
    requires DoneTo(t, ranges, k)
    ensures Waiting(t.pages, ranges[k].lo, ranges[k].hi)
    ensures EndsBy(t.log, ranges[k].lo)
  {
    forall a | InRanges(t.log, a)
      ensures a < ranges[k].lo
    {
      var i :| 0 <= i < k && ranges[..k][i].lo <= a < ranges[..k][i].hi;
      assert ranges[i].hi <= ranges[k].lo;
    }
    forall i | 0 <= i < |t.log|
      ensures t.log[i].hi <= ranges[k].lo
    {
      assert InRanges(t.log, t.log[i].hi - 1);
    }
  }

  /** Exactly the first `k` ranges are done. */
  ghost predicate DoneTo(t: Moment, ranges: seq<Range>, k: nat)
    requires k <= |ranges|
  {
    forall a :: InRanges(t.log, a) <==> InRanges(ranges[..k], a)
  }

  lemma {:induction false} DoneNext(t: Moment, u: Moment, ranges: seq<Range>, k: nat)
    requires k < |ranges| && DoneTo(t, ranges, k)
    requires forall a :: InRanges(u.log, a) <==> InRanges(t.log, a) || ranges[k].lo <= a < ranges[k].hi
    ensures DoneTo(u, ranges, k + 1)
  {
    forall a
      ensures InRanges(u.log, a) <==> InRanges(ranges[..k + 1], a)
    {
      InRangesSnoc(ranges[..k], ranges[k], a);
      assert ranges[..k + 1] == ranges[..k] + [ranges[k]];
    }
  }

  /** The page a shim runs from reads the same throughout. */
  lemma {:induction false} WindowHolds(s: Moment, t: Moment, ranges: seq<Range>, base: int)
    requires Walkable(s, ranges, base) && Ran(s, t, ranges)
    requires base + PAGE <= STACK_SLOT || STACK_SLOT + 8 <= base
    ensures Window(t.mem, base, PAGE) == Window(s.mem, base, PAGE)
  {
    forall a | base <= a < base + PAGE
      ensures t.mem(a) == s.mem(a)
    {
      if InRanges(t.log, a) {
        assert false;
      }
    }
  }

  /** The state at the head of a shim's outer loop, `k` ranges in. */
  ghost predicate Walking(s: Moment, t: Moment, page: Bytes, base: int, ranges: seq<Range>, k: nat) {
    && Walkable(s, ranges, base)
    && (base + PAGE <= STACK_SLOT || STACK_SLOT + 8 <= base)
    && page == Window(s.mem, base, PAGE)
    && k <= |ranges|
    && Walk(page, SHIM_DATA + 8 + 16 * k) == Some(ranges[k..])
    && Ran(s, t, ranges)
    && DoneTo(t, ranges, k)
  }

  lemma {:induction false} WalkReads(page: Bytes, ranges: seq<Range>, k: nat)
    requires |page| == PAGE && k < |ranges| && Walk(page, SHIM_DATA + 8 + 16 * k) == Some(ranges[k..])
    ensures Walk(page, SHIM_DATA + 8 + 16 * (k + 1)) == Some(ranges[k + 1..])
  {
    WalkTurn(page, SHIM_DATA + 8 + 16 * k, ranges[k..]);
    assert ranges[k..][1..] == ranges[k + 1..];
  }

  lemma {:induction false} WalkOn(s: Moment, t: Moment, u: Moment, page: Bytes, base: int, ranges: seq<Range>, k: nat)
    requires Walking(s, t, page, base, ranges, k) && k < |ranges|
    requires CallTook(t, u, ranges[k].lo, ranges[k].hi)
    ensures Walking(s, u, page, base, ranges, k + 1)
  {
    WalkReads(page, ranges, k);
    RanThen(s, t, u, ranges, k, ranges[k].hi);
    DoneNext(t, u, ranges, k);
  }

  lemma {:induction false} WalkStarts(s: Moment, page: Bytes, base: int, ranges: seq<Range>)
    requires Walkable(s, ranges, base) && s.log == []
    requires base + PAGE <= STACK_SLOT || STACK_SLOT + 8 <= base
    requires page == Window(s.mem, base, PAGE) && Walk(page, SHIM_DATA + 8) == Some(ranges)
    ensures Walking(s, s, page, base, ranges, 0)
  {
    assert ranges[0..] == ranges;
  }

  lemma {:induction false} WalkEnds(s: Moment, t: Moment, page: Bytes, base: int, ranges: seq<Range>)
    requires Walking(s, t, page, base, ranges, |ranges|)
    ensures Load64(t.mem, base + SHIM_DATA) == Load64(s.mem, base + SHIM_DATA)
    ensures forall a :: InRanges(t.log, a) <==> InRanges(ranges, a)
  {
    assert ranges[..|ranges|] == ranges;
    WindowHolds(s, t, ranges, base);
    LoadIsGet(t.mem, base, page, SHIM_DATA);
    LoadIsGet(s.mem, base, page, SHIM_DATA);
  }

  /** Every access of a run is to the address it names: the tables are never written. */
  lemma {:induction false} RunStaysPaged(s: Moment, t: Moment, ranges: seq<Range>, base: int)
    requires Walkable(s, ranges, base) && Blanked(s, t, ranges)
    ensures Paged(t.mem, t.mode)
  {
    forall a | InTables(s.mode, a)
      ensures t.mem(a) == s.mem(a)
    {
      forall i | 0 <= i < |ranges|
        ensures !(ranges[i].lo <= a < ranges[i].hi)
      {
        assert ClearOfTables(s.mode, ranges[i].lo, ranges[i].hi);
      }
    }
    StillPaged(s.mem, t.mem, s.mode);
  }

  lemma {:induction false} TakingStaysPaged(s: Moment, t: Moment, lo: int, upTo: int, hi: int)
    requires Paged(s.mem, s.mode) && Reached(s, t, lo, upTo) && upTo <= hi && ClearOfTables(s.mode, lo, hi)
    ensures Paged(t.mem, t.mode)
  {
    StillPaged(s.mem, t.mem, s.mode);
  }

  /** How one turn of the outer loop ends. */
  datatype Turn = Next | Finished | Refused

  /** A load at an address the identity map covers. */
  method LoadDirect(g: Guest, at: int) returns (n: nat)
    requires Paged(g.mem, g.mode) && 0 <= at && at + 8 <= MAP_LIMIT
    ensures n == Load64(g.mem, at)
  {
    DirectLands(g.pages, g.mem, g.mode, at, 8);
    n := g.Read64(at);
  }

  /** `call`: a return address, whatever it is, stored below the stack top. */
  method PushReturn(g: Guest) returns (ret: U64)
    requires Paged(g.mem, g.mode)
    modifies g`mem, g`strayed
    ensures g.mem == Stored(old(g.mem), STACK_SLOT, Le(ret, 8)) && g.strayed == old(g.strayed)
    ensures Load64(g.mem, STACK_SLOT) == ret && Paged(g.mem, g.mode)
  {
    ret := AnyU64();
    DirectLands(g.pages, g.mem, g.mode, STACK_SLOT, 8);
    LoadStored(g.mem, STACK_SLOT, ret);
    g.Store(STACK_SLOT, Le(ret, 8));
    StillPaged(old(g.mem), g.mem, g.mode);
  }

  /** `ret`: what was taken since left the slot alone, so the call goes back where it came from. */
  method PopReturn(g: Guest, ghost pushed: Moment, ghost lo: int, ghost upTo: int, ghost hi: int, ret: U64)
    requires Paged(pushed.mem, pushed.mode) && Load64(pushed.mem, STACK_SLOT) == ret
    requires Reached(pushed, g.Now(), lo, upTo) && lo <= upTo <= hi && ClearOfTables(pushed.mode, lo, hi)
    requires hi <= STACK_SLOT || STACK_SLOT + 8 <= lo
    ensures Paged(g.mem, g.mode)
  {
    TakingStaysPaged(pushed, g.Now(), lo, upTo, hi);
    assert Window(g.mem, STACK_SLOT, 8) == Window(pushed.mem, STACK_SLOT, 8);
    var back := LoadDirect(g, STACK_SLOT);
    assert back == ret;
  }

  /** The two loads at the head of the walk: the next range, or the terminator. */
  method LoadPair(g: Guest, base: int, rbp: int, ghost page: Bytes, ghost at: nat, ghost left: seq<Range>)
    returns (r12: int, r13: int)
    requires page == Window(g.mem, base, PAGE) && rbp == base + at
    requires Walk(page, at) == Some(left)
    requires Paged(g.mem, g.mode) && 0 <= base && base + PAGE <= MAP_LIMIT
    ensures left == [] <==> r12 == 0 && r13 == 0
    ensures left != [] ==> left[0] == Range(r12, r13)
  {
    WalkTurn(page, at, left);
    LoadIsGet(g.mem, base, page, at);
    LoadIsGet(g.mem, base, page, at + 8);
    r12 := LoadDirect(g, rbp);
    r13 := LoadDirect(g, rbp + 8);
  }

  // ---------- what an SNP guest can say to its host ----------

  const GHCB_EXITCODE := 0x390
  const GHCB_EXITINFO1 := 0x398
  const GHCB_EXITINFO2 := 0x3a0
  const GHCB_SCRATCH := 0x3a8
  const GHCB_BITMAP := 0x3f0
  const GHCB_BUFFER := 0x800
  const GHCB_VERSION := 0xffa
  const GHCB_USAGE := 0xffc
  const EXIT_MMIO_WRITE := 0x8000_0002
  /** The byte of the bitmap that marks the four fields of an MMIO write valid, and no other. */
  const VALID_MMIO: Byte := 0x3c

  datatype Event = MmioWrite(gpa: nat, len: nat, value: nat) | Other

  datatype Exchange =
    | Tdcall(gpa: int, size: int, rax: U64)
    | PVal(gpa: int, size: int, validate: bool, eax: U32, carry: bool)
    | Msr(request: U64, response: U64)
    | Nae(event: Event, info1: nat)

  /** What the host reads from a GHCB page: an event counts only with its fields marked valid. */
  function EventIn(page: Bytes): Event
    requires |page| == PAGE
  {
    if && Get64(page, 0x390) == 0x8000_0002
       && page[0x3f0..0x400] == Zeros(14) + [0x3c] + [0]
       && page[0xffa..0xffc] == [2, 0]
       && page[0xffc..0x1000] == Zeros(4)
       && Get64(page, 0x3a8) == 0x11_7800
    then MmioWrite(Get64(page, 0x398), Get64(page, 0x3a0), Get32(page, 0x800))
    else Other
  }

  /** The request fields of the GHCB MSR protocol: info in bits 11:0, the frame, the operation in 55:52. */
  function MsrInfo(request: U64): int { request % 0x1000 }
  function MsrGpa(request: U64): int { request / 0x1000 % 0x100_0000_0000 * 0x1000 }
  function MsrOp(request: U64): int { request / 0x10_0000_0000_0000 % 16 }

  predicate IsPsc(request: U64) { MsrInfo(request) == 0x14 && (MsrOp(request) == 1 || MsrOp(request) == 2) }
  predicate IsRegister(request: U64) { MsrInfo(request) == 0x12 }

  function PscState(request: U64): PageState {
    if MsrOp(request) == 2 then Shared else Unaccepted
  }

  /** 0x15 in the low twelve bits, and nothing above bit 31. */
  predicate PscGranted(response: U64) { response / 0x1_0000_0000 == 0 && response % 0x1000 == 0x15 }
  predicate RegisterGranted(request: U64, response: U64) { response == request + 1 }

  predicate AllShared(pages: PageTable, at: int, len: int) {
    forall a | at <= a < at + len :: pages(a / PAGE) == Shared
  }

  /** The bytes a walk that succeeded for all of them leads to, if private or shared as mapped. */
  predicate Lands(pages: PageTable, mem: Memory, m: Mode, va: int, len: nat) {
    var t := Reach(mem, m, va);
    && t.Mapped? && Maps(mem, m, va, len, t.pa, t.encrypted)
    && (Private(m, t.encrypted) || AllShared(pages, t.pa, len))
  }

  function Target(mem: Memory, m: Mode, va: int): nat {
    var t := Reach(mem, m, va);
    if t.Mapped? then t.pa else 0
  }

  lemma {:induction false} DirectLands(pages: PageTable, mem: Memory, m: Mode, lo: int, len: nat)
    requires Paged(mem, m) && 0 <= lo < MAP_LIMIT && lo + len <= MAP_LIMIT
    ensures Lands(pages, mem, m, lo, len) && Target(mem, m, lo) == lo
    ensures Maps(mem, m, lo, len, lo, m.cbit != 0)
  {
    DirectMaps(mem, m, lo, len);
  }

  lemma {:induction false} AliasLands(pages: PageTable, mem: Memory, m: Mode, at: int, len: nat)
    requires Paged(mem, m) && m.alias && 0 <= at < GIB && at + len <= GIB && AllShared(pages, at, len)
    ensures Lands(pages, mem, m, SHARED_ALIAS + at, len) && Target(mem, m, SHARED_ALIAS + at) == at
  {
    AliasMaps(mem, m, at, len);
  }

  class Guest {
    ghost function Now(): Moment
      reads this
    {
      Moment(pages, mem, log, doubled, strayed, mode)
    }

    const mode: Mode
    var pages: PageTable
    var mem: Memory
    /** Each extent the firmware reported newly accepted, in order. */
    ghost var log: seq<Range>
    /** Set once an extent was accepted that held a page not waiting for it. */
    ghost var doubled: bool

    /** Every call to accept or validate memory and every exchange with the host, with its answer. */
    ghost var talk: seq<Exchange>
    /** The GHCB page the host has registered for this processor. */
    var ghcb: Option<int>
    /**
     * Set once an access did not land: not mapped, private where mapped shared, or a GHCB exit
     * without a shared registered page.
     */
    ghost var strayed: bool

    constructor (pages: PageTable, mem: Memory, mode: Mode)
      ensures this.pages == pages && this.mem == mem && this.mode == mode && log == [] && !doubled
      ensures talk == [] && ghcb == None && !strayed
    {
      this.pages := pages;
      this.mem := mem;
      this.mode := mode;
      log := [];
      doubled := false;
      talk := [];
      ghcb := None;
      strayed := false;
    }

    /** A processor store, to wherever the page tables in memory send it. */
    method Store(va: int, data: Bytes)
      modifies this`mem, this`strayed
      ensures Lands(pages, old(mem), mode, va, |data|) ==>
                mem == Stored(old(mem), Target(old(mem), mode, va), data) && strayed == old(strayed)
    {
      if Lands(pages, mem, mode, va, |data|) {
        mem := Stored(mem, Target(mem, mode, va), data);
      } else {
        strayed := true;
        mem := AnyMemory();
      }
    }

    /** `rep stosq` of zeroes over [lo, hi). */
    method Zero(lo: int, hi: int)
      requires lo <= hi
      modifies this`mem, this`strayed
      ensures Lands(pages, old(mem), mode, lo, hi - lo) ==>
                && var at := Target(old(mem), mode, lo);
                && mem == Zeroed(old(mem), at, at + (hi - lo)) && strayed == old(strayed)
    {
      if Lands(pages, mem, mode, lo, hi - lo) {
        var at := Target(mem, mode, lo);
        mem := Zeroed(mem, at, at + (hi - lo));
      } else {
        strayed := true;
        mem := AnyMemory();
      }
    }

    /** A processor load; anything at all where it does not land. */
    method Read64(va: int) returns (n: nat)
      ensures Lands(pages, mem, mode, va, 8) ==> n == Load64(mem, Target(mem, mode, va))
    {
      n := AnyU64();
      if Lands(pages, mem, mode, va, 8) {
        n := Load64(mem, Target(mem, mode, va));
      }
    }

    method Read32(va: int) returns (n: nat)
      ensures Lands(pages, mem, mode, va, 4) ==> n == Load32(mem, Target(mem, mode, va))
    {
      n := AnyU64();
      if Lands(pages, mem, mode, va, 4) {
        n := Load32(mem, Target(mem, mode, va));
      }
    }

    ghost method Log(lo: int, hi: int)
      modifies this`log, this`doubled
      ensures log == old(log) + [Range(lo, hi)]
      ensures Waiting(pages, lo, hi) ==> doubled == old(doubled)
    {
      doubled := doubled || !Waiting(pages, lo, hi);
      log := log + [Range(lo, hi)];
    }

    /** TDG.MEM.PAGE.ACCEPT: any status at all; on zero the pages are private, accepted and blank. */
    method TdAccept(gpa: int, size: int) returns (rax: U64)
      modifies this`pages, this`mem, this`log, this`doubled, this`talk
      ensures talk == old(talk) + [Tdcall(gpa, size, rax)]
      ensures rax != 0 ==> pages == old(pages) && mem == old(mem) && log == old(log) && doubled == old(doubled)
      ensures rax == 0 ==>
                && pages == SetPages(old(pages), gpa, gpa + size, Accepted)
                && mem == Zeroed(old(mem), gpa, gpa + size)
                && log == old(log) + [Range(gpa, gpa + size)]
                && (Waiting(old(pages), gpa, gpa + size) ==> doubled == old(doubled))
    {
      rax := *;
      talk := talk + [Tdcall(gpa, size, rax)];
      if rax == 0 {
        Log(gpa, gpa + size);
        pages := SetPages(pages, gpa, gpa + size, Accepted);
        mem := Zeroed(mem, gpa, gpa + size);
      }
    }

    /**
     * PVALIDATE of the extent a virtual address maps: any status and carry at all. On status zero every
     * page is in the requested state, and a clear carry says this call is what put it there.
     */
    method PValidate(va: int, size: nat, validate: bool) returns (eax: U32, carry: bool)
      modifies this`pages, this`log, this`doubled, this`talk, this`strayed
      ensures Maps(mem, mode, va, size, Target(mem, mode, va), mode.cbit != 0) ==>
                && var gpa := Target(mem, mode, va);
                && talk == old(talk) + [PVal(gpa, size, validate, eax, carry)]
                && strayed == old(strayed)
                && (eax != 0 ==> pages == old(pages) && log == old(log) && doubled == old(doubled))
                && (eax == 0 ==>
                      && pages == SetPages(old(pages), gpa, gpa + size, if validate then Accepted else Unaccepted)
                      && log == (if validate && !carry then old(log) + [Range(gpa, gpa + size)] else old(log))
                      && (Waiting(old(pages), gpa, gpa + size) ==> doubled == old(doubled))
                      && (!validate || carry ==> doubled == old(doubled)))
    {
      eax, carry := *, *;
      var gpa := Target(mem, mode, va);
      talk := talk + [PVal(gpa, size, validate, eax, carry)];
      if !Maps(mem, mode, va, size, gpa, mode.cbit != 0) {
        strayed := true;
        pages := *;
      } else if eax == 0 {
        if validate && !carry {
          Log(gpa, gpa + size);
        }
        pages := SetPages(pages, gpa, gpa + size, if validate then Accepted else Unaccepted);
      }
    }

    /** The GHCB MSR protocol: the host answers anything, and a grant is also an act. */
    method GhcbMsr(request: U64) returns (response: U64)
      modifies this`pages, this`ghcb, this`talk
      ensures talk == old(talk) + [Msr(request, response)]
      ensures pages == if IsPsc(request) && PscGranted(response)
                       then SetPages(old(pages), MsrGpa(request), MsrGpa(request) + PAGE, PscState(request))
                       else old(pages)
      ensures ghcb == if IsRegister(request) && RegisterGranted(request, response)
                      then Some(MsrGpa(request)) else old(ghcb)
    {
      response := *;
      talk := talk + [Msr(request, response)];
      if IsPsc(request) && PscGranted(response) {
        pages := SetPages(pages, MsrGpa(request), MsrGpa(request) + PAGE, PscState(request));
      }
      if IsRegister(request) && RegisterGranted(request, response) {
        ghcb := Some(MsrGpa(request));
      }
    }

    /** VMGEXIT over the GHCB page: the host reads the event and may rewrite every shared byte. */
    method Vmgexit(gpa: int)
      modifies this`mem, this`talk, this`strayed
      ensures talk == old(talk) + [Nae(EventIn(Window(old(mem), gpa, PAGE)), Load32(mem, gpa + 0x398))]
      ensures forall a :: pages(a / PAGE) != Shared ==> mem(a) == old(mem)(a)
      ensures AllShared(pages, gpa, PAGE) && ghcb == Some(gpa) ==> strayed == old(strayed)
    {
      strayed := strayed || !(AllShared(pages, gpa, PAGE) && ghcb == Some(gpa));
      var scribble := AnyMemory();
      var was, states := mem, pages;
      mem := a => if states(a / PAGE) == Shared then scribble(a) else was(a);
      talk := talk + [Nae(EventIn(Window(was, gpa, PAGE)), Load32(mem, gpa + 0x398))];
    }
  }
}
