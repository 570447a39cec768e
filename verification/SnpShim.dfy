/** The SNP reset shim: validating and clearing RAM, then waking the other processors. */
module SnpShim {
  import opened Wrappers
  import opened Layout
  import opened Bytes
  import opened Placement
  import opened ShimBlock
  import opened Physical
  import opened Paging
  import opened Guest
  import opened Trace
  import opened SnpWake

  /** How a run ends: the kernel jump, a refused validation, or a refused step of the wake. */
  datatype Outcome = Kernel(entry: nat) | Died(code: nat) | WakeFailed(step: nat, code: nat)

  /** What a refused validation leaves behind: nothing outside the range, and blank up to the cursor. */
  ghost predicate Stopped(s: Moment, t: Moment, lo: int, upTo: int, hi: int) {
    Reached(s, t, lo, upTo) && forall q :: !(lo <= q * PAGE < hi) ==> t.pages(q) == s.pages(q)
  }

  // ---------- termination codes ----------

  /** die: the 2-MiB chunk of the failing page, the carry and the status, under reason code 0x100. */
  function DieCode(r12: nat, status: U32, carry: bool): nat {
    r12 / PAGE_2M % 256 * 0x1_0000 + ((if carry then 8 else 0) + status % 8) * 0x1000 + 0x100
  }

  /** die_wake: the second reason set, with the step that was refused. */
  function WakeCode(step: nat): nat {
    step * 0x1_0000 + 0xf100
  }

  /** How a host reads a termination request: 0x100 in bits 11:0, the reason set above it, then the reason. */
  predicate Terminates(code: nat, reasonSet: nat, reason: nat) {
    && code < 0x100_0000 && code % 0x1000 == 0x100
    && code / 0x1000 % 16 == reasonSet && code / 0x1_0000 == reason
  }

  /** The chunk of the last PVALIDATE is the reason, its carry and status the reason set. */
  predicate Reports(code: nat, talk: seq<Exchange>) {
    && talk != [] && talk[|talk| - 1].PVal? && talk[|talk| - 1].gpa >= 0
    && var x := talk[|talk| - 1];
    Terminates(code, (if x.carry then 8 else 0) + x.eax % 8, x.gpa / 0x20_0000 % 256)
  }

  /** A request refused in the wake names its step, under the reason set kept for that. */
  predicate ReportsStep(code: nat, step: nat) {
    1 <= step <= 8 && Terminates(code, 0xf, step)
  }

  /** The host reads back everything die put in. */
  lemma {:induction false} DieCodeDecodes(r12: nat, status: U32, carry: bool)
    ensures Terminates(DieCode(r12, status, carry), (if carry then 8 else 0) + status % 8, r12 / 0x20_0000 % 256)
  {
  }

  /** And the step die_wake was given; a code of die's is mistaken for one only if carry and status are all set. */
  lemma {:induction false} WakeCodeDecodes(step: nat, r12: nat, status: U32, carry: bool)
    requires 1 <= step <= 8
    ensures ReportsStep(WakeCode(step), step)
    ensures DieCode(r12, status, carry) == WakeCode(step) ==> carry && status % 8 == 7 && r12 / 0x20_0000 % 256 == step
  {
    DieCodeDecodes(r12, status, carry);
  }

  // ---------- validating RAM ----------

  /** validate_range: validates and clears [lo, hi) front to back, or stops at the first refusal. */
  method ValidateRange(g: Guest, lo: int, hi: int) returns (ok: bool, code: nat, ghost upTo: int)
    requires PageAligned(lo) && PageAligned(hi) && 0 <= lo <= hi <= MAP_LIMIT
    requires Paged(g.mem, g.mode) && ClearOfTables(g.mode, lo, hi)
    requires Waiting(g.pages, lo, hi)
    requires Ascends(g.log) && EndsBy(g.log, lo)
    modifies g`pages, g`mem, g`log, g`doubled, g`talk, g`strayed
    ensures lo <= upTo <= hi && PageAligned(upTo)
    ensures ok <==> upTo == hi
    ensures ok ==> Took(old(g.Now()), g.Now(), lo, hi)
    ensures !ok ==> Stopped(old(g.Now()), g.Now(), lo, upTo, hi)
    ensures old(g.talk) <= g.talk
    ensures ok ==> Reaches(Since(old(g.talk), g.talk), lo, hi, hi)
    ensures !ok ==> StopsAt(Since(old(g.talk), g.talk), lo, upTo, hi) && Reports(code, g.talk)
  {
    ghost var start, spoken := g.Now(), g.talk;
    var r12 := lo;
    code := 0;
    while r12 < hi
      invariant lo <= r12 <= hi && PageAligned(r12)
      invariant Took(start, g.Now(), lo, r12)
      invariant spoken <= g.talk && Reaches(Since(spoken, g.talk), lo, r12, hi)
      decreases hi - r12
    {
      ghost var turn := g.Now();
      RangeGoesOn(start, turn, lo, r12, hi);
      var step;
      ghost var said := g.talk;
      step, code := ValidateNext(g, r12, hi);
      if step == 0 {
        TurnBalked(spoken, said, g.talk, lo, r12, hi);
        StoppedThen(start, turn, g.Now(), lo, r12, hi);
        return false, code, r12;
      }
      TurnTook(start, turn, g.Now(), spoken, said, g.talk, lo, r12, r12 + step, hi);
      r12 := r12 + step;
    }
    return true, code, r12;
  }

  /** What is left of a range is as it was, and so is where accesses to it go. */
  lemma {:induction false} RangeGoesOn(start: Moment, turn: Moment, lo: int, at: int, hi: int)
    requires Took(start, turn, lo, at) && lo <= at <= hi && Waiting(start.pages, lo, hi)
    requires Paged(start.mem, start.mode) && ClearOfTables(start.mode, lo, hi)
    ensures Waiting(turn.pages, at, hi) && Paged(turn.mem, turn.mode)
  {
    StillWaiting(start, turn, lo, at, at, hi);
    TakingStaysPaged(start, turn, lo, at, hi);
  }

  lemma {:induction false} StoppedThen(s: Moment, t: Moment, u: Moment, lo: int, mid: int, hi: int)
    requires lo <= mid < hi
    requires Took(s, t, lo, mid) && Stopped(t, u, mid, mid, hi)
    ensures Stopped(s, u, lo, mid, hi)
  {
  }

  /** One turn: a 2-MiB attempt where it fits, the 4-KiB one after a size mismatch, else die (0). */
  method ValidateNext(g: Guest, r12: int, hi: int) returns (step: int, code: nat)
    requires 0 <= r12 < hi <= MAP_LIMIT && PageAligned(r12) && PageAligned(hi)
    requires Paged(g.mem, g.mode)
    requires Waiting(g.pages, r12, hi)
    requires Ascends(g.log) && EndsBy(g.log, r12)
    modifies g`pages, g`mem, g`log, g`doubled, g`talk, g`strayed
    ensures old(g.talk) <= g.talk
    ensures step == 0 ==>
              && Stopped(old(g.Now()), g.Now(), r12, r12, hi)
              && Balked(Since(old(g.talk), g.talk), r12, hi) && Reports(code, g.talk)
    ensures step != 0 ==>
              && (step == PAGE || step == PAGE_2M) && r12 + step <= hi && PageAligned(r12 + step)
              && Took(old(g.Now()), g.Now(), r12, r12 + step)
              && Reaches(Since(old(g.talk), g.talk), r12, r12 + step, hi)
  {
    NextPage(r12, hi);
    ghost var said := g.talk;
    if r12 % PAGE_2M == 0 && r12 + PAGE_2M <= hi {
      var eax, carry := ValidateExtent(g, r12, PAGE_2M, hi);
      ghost var big := PVal(r12, PAGE_2M, true, eax, carry);
      OneCall(said, big, r12, hi);
      if eax == 0 && !carry {
        return PAGE_2M, 0;
      }
      DieCodeDecodes(r12, eax, carry);
      if eax != FAIL_SIZEMISMATCH {
        return 0, DieCode(r12, eax, carry);
      }
      eax, carry := ValidateExtent(g, r12, PAGE, hi);
      TwoCalls(said, big, PVal(r12, PAGE, true, eax, carry), r12, hi);
      DieCodeDecodes(r12, eax, carry);
      return if eax == 0 && !carry then PAGE else 0, DieCode(r12, eax, carry);
    }
    var eax, carry := ValidateExtent(g, r12, PAGE, hi);
    OneCall(said, PVal(r12, PAGE, true, eax, carry), r12, hi);
    DieCodeDecodes(r12, eax, carry);
    return if eax == 0 && !carry then PAGE else 0, DieCode(r12, eax, carry);
  }

  /** A page already validated was not changed: what is outside the range stands. */
  lemma {:induction false} TwiceStopped(s: Moment, t: Moment, at: int, size: nat, hi: int)
    requires at + size <= hi && Ascends(s.log) && EndsBy(s.log, at)
    requires t.mem == s.mem && t.log == s.log && Steady(s, t)
    requires t.pages == SetPages(s.pages, at, at + size, Accepted)
    ensures Stopped(s, t, at, at, hi)
  {
  }

  /** `rep stosq` over an extent just validated. */
  method ClearExtent(g: Guest, at: int, size: nat, ghost before: Moment)
    requires 0 < size && 0 <= at && at + size <= MAP_LIMIT && Paged(g.mem, g.mode)
    requires Ascends(before.log) && EndsBy(before.log, at) && Steady(before, g.Now())
    requires g.mem == before.mem && g.pages == SetPages(before.pages, at, at + size, Accepted)
    requires g.log == before.log + [Range(at, at + size)]
    modifies g`mem, g`strayed
    ensures Took(before, g.Now(), at, at + size)
  {
    DirectLands(g.pages, g.mem, g.mode, at, size);
    g.Zero(at, at + size);
    TookExtent(before, g.Now(), at, size);
  }

  /** PVALIDATE where the tables map an extent to itself. */
  method ValidateDirect(g: Guest, at: int, size: nat) returns (eax: U32, carry: bool)
    requires 0 <= at < MAP_LIMIT && at + size <= MAP_LIMIT && Paged(g.mem, g.mode) && Waiting(g.pages, at, at + size)
    modifies g`pages, g`log, g`doubled, g`talk, g`strayed
    ensures g.talk == old(g.talk) + [PVal(at, size, true, eax, carry)]
    ensures g.strayed == old(g.strayed) && g.doubled == old(g.doubled)
    ensures g.pages == if eax == 0 then SetPages(old(g.pages), at, at + size, Accepted) else old(g.pages)
    ensures g.log == if eax == 0 && !carry then old(g.log) + [Range(at, at + size)] else old(g.log)
  {
    DirectLands(g.pages, g.mem, g.mode, at, size);
    eax, carry := g.PValidate(at, size, true);
  }

  /** One PVALIDATE for the extent at the cursor and, where it changed the page, the clearing. */
  method ValidateExtent(g: Guest, at: int, size: nat, ghost hi: int) returns (eax: U32, carry: bool)
    requires (size == PAGE || size == PAGE_2M) && 0 <= at && at + size <= hi <= MAP_LIMIT
    requires Paged(g.mem, g.mode)
    requires Waiting(g.pages, at, hi)
    requires Ascends(g.log) && EndsBy(g.log, at)
    modifies g`pages, g`mem, g`log, g`doubled, g`talk, g`strayed
    ensures g.talk == old(g.talk) + [PVal(at, size, true, eax, carry)]
    ensures eax != 0 ==> g.Now() == old(g.Now())
    ensures eax == 0 && carry ==> Stopped(old(g.Now()), g.Now(), at, at, hi)
    ensures eax == 0 && !carry ==> Took(old(g.Now()), g.Now(), at, at + size)
  {
    ghost var before := g.Now();
    eax, carry := ValidateDirect(g, at, size);
    if eax == 0 && !carry {
      ClearExtent(g, at, size, before);
    } else if eax == 0 {
      TwiceStopped(before, g.Now(), at, size, hi);
    }
  }

  /** `call validate_range`: nothing cleared reaches the return address, so the call returns. */
  method CallValidateRange(g: Guest, lo: int, hi: int) returns (ok: bool, code: nat, ghost upTo: int)
    requires PageAligned(lo) && PageAligned(hi) && 0 <= lo <= hi <= MAP_LIMIT
    requires hi <= STACK_SLOT || STACK_SLOT + 8 <= lo
    requires Paged(g.mem, g.mode) && ClearOfTables(g.mode, lo, hi)
    requires Waiting(g.pages, lo, hi)
    requires Ascends(g.log) && EndsBy(g.log, lo)
    modifies g`pages, g`mem, g`log, g`doubled, g`talk, g`strayed
    ensures lo <= upTo <= hi && (ok <==> upTo == hi)
    ensures CallReached(old(g.Now()), g.Now(), lo, upTo)
    ensures ok ==> CallTook(old(g.Now()), g.Now(), lo, upTo)
    ensures old(g.talk) <= g.talk
    ensures ok ==> Reaches(Since(old(g.talk), g.talk), lo, hi, hi)
    ensures !ok ==> StopsAt(Since(old(g.talk), g.talk), lo, upTo, hi) && Reports(code, g.talk)
    ensures forall q :: !(lo <= q * PAGE < hi) ==> g.pages(q) == old(g.pages)(q)
  {
    var ret := PushReturn(g);
    ghost var pushed := g.Now();
    ok, code, upTo := ValidateRange(g, lo, hi);
    PopReturn(g, pushed, lo, upTo, hi, ret);
  }

  // ---------- the whole run ----------

  /** What holds of every run, however it ends: nothing outside the ranges was touched. */
  ghost predicate Contained(s: Moment, t: Moment, ranges: seq<Range>) {
    Blanked(s, t, ranges) && forall q :: !InRanges(ranges, q * PAGE) ==> t.pages(q) == s.pages(q)
  }

  lemma {:induction false} RanContained(s: Moment, t: Moment, ranges: seq<Range>)
    requires Ran(s, t, ranges)
    ensures Contained(s, t, ranges)
  {
  }

  /** What the walk has done so far: `k` ranges validated, and the calls that did it. */
  ghost predicate Passed(start: Moment, now: Moment, spoken: seq<Exchange>, talk: seq<Exchange>, page: Bytes,
                         ranges: seq<Range>, k: nat)
  {
    && Walking(start, now, page, SHIM_BASE, ranges, k)
    && spoken <= talk && Passes(Since(spoken, talk), ranges, k)
  }

  ghost predicate Balks(code: nat, spoken: seq<Exchange>, talk: seq<Exchange>, ranges: seq<Range>) {
    spoken <= talk && Halts(Since(spoken, talk), ranges) && Reports(code, talk)
  }

  /** validate_next: one range of the block, or its end. */
  method WalkNext(g: Guest, rbp: int, ghost start: Moment, ghost spoken: seq<Exchange>, ghost page: Bytes,
                  ghost ranges: seq<Range>, ghost k: nat)
    returns (turn: Turn, code: nat, ghost now: Moment, ghost talk: seq<Exchange>)
    requires Passed(start, g.Now(), spoken, g.talk, page, ranges, k)
    requires rbp == SHIM_BASE + SHIM_DATA + 8 + 16 * k
    modifies g`pages, g`mem, g`log, g`doubled, g`talk, g`strayed
    ensures now == g.Now() && talk == g.talk && Contained(start, now, ranges)
    ensures turn.Finished? ==> k == |ranges| && Passed(start, now, spoken, talk, page, ranges, k)
    ensures turn.Next? ==> k < |ranges| && Passed(start, now, spoken, talk, page, ranges, k + 1)
    ensures turn.Refused? ==> Balks(code, spoken, talk, ranges)
  {
    ghost var before, said := g.Now(), g.talk;
    now, talk := before, said;
    RanContained(start, before, ranges);
    WindowHolds(start, before, ranges, SHIM_BASE);
    RunStaysPaged(start, before, ranges, SHIM_BASE);
    var r12, r13 := LoadPair(g, SHIM_BASE, rbp, page, SHIM_DATA + 8 + 16 * k, ranges[k..]);
    if r12 == 0 && r13 == 0 {
      return Turn.Finished, 0, now, talk;
    }
    NextWaits(start, before, ranges, SHIM_BASE, k);
    var ok, status, upTo := CallValidateRange(g, r12, r13);
    now, talk := g.Now(), g.talk;
    TalkGrows(spoken, said, talk);
    BlankedThen(start, before, now, ranges, k, upTo);
    if !ok {
      HaltsThen(Since(spoken, said), Since(said, talk), ranges, k, upTo);
      return Turn.Refused, status, now, talk;
    }
    PassesThen(Since(spoken, said), Since(said, talk), ranges, k);
    WalkOn(start, before, now, page, SHIM_BASE, ranges, k);
    return Turn.Next, status, now, talk;
  }

  lemma {:induction false} NothingSaid(talk: seq<Exchange>, ranges: seq<Range>)
    ensures Passes(Since(talk, talk), ranges, 0)
  {
  }

  /** validate_next to its end: every range validated and cleared, or the run dies with a code. */
  method WalkAll(g: Guest, ghost start: Moment, ghost spoken: seq<Exchange>, ghost page: Bytes,
                 ghost ranges: seq<Range>)
    returns (ok: bool, code: nat, ghost now: Moment, ghost talk: seq<Exchange>)
    requires start == g.Now() && spoken == g.talk && Passed(start, start, spoken, spoken, page, ranges, 0)
    modifies g`pages, g`mem, g`log, g`doubled, g`talk, g`strayed
    ensures now == g.Now() && talk == g.talk && Contained(start, now, ranges)
    ensures if ok then Passed(start, now, spoken, talk, page, ranges, |ranges|)
            else Balks(code, spoken, talk, ranges)
  {
    ghost var k := 0;
    now, talk, code := start, spoken, 0;
    RanContained(start, start, ranges);
    var rbp := SHIM_BASE + SHIM_DATA + 8;
    while true
      invariant rbp == SHIM_BASE + SHIM_DATA + 8 + 16 * k && k <= |ranges|
      invariant now == g.Now() && talk == g.talk && Contained(start, now, ranges)
      invariant Passed(start, now, spoken, talk, page, ranges, k)
      decreases |ranges| - k
    {
      var turn;
      turn, code, now, talk := WalkNext(g, rbp, start, spoken, page, ranges, k);
      if turn != Turn.Next {
        return turn == Turn.Finished, code, now, talk;
      }
      rbp := rbp + 16;
      k := k + 1;
    }
  }

  method ValidateAll(g: Guest, ghost ranges: seq<Range>) returns (ok: bool, code: nat)
    requires g.log == []
    requires Walkable(g.Now(), ranges, SHIM_BASE)
    requires Walk(Window(g.mem, SHIM_BASE, PAGE), SHIM_DATA + 8) == Some(ranges)
    modifies g`pages, g`mem, g`log, g`doubled, g`talk, g`strayed
    ensures Contained(old(g.Now()), g.Now(), ranges) && Paged(g.mem, g.mode)
    ensures ok ==> Ran(old(g.Now()), g.Now(), ranges)
    ensures ok ==> forall a :: InRanges(g.log, a) <==> InRanges(ranges, a)
    ensures ok ==> Load64(g.mem, SHIM_BASE + SHIM_DATA) == old(Load64(g.mem, SHIM_BASE + SHIM_DATA))
    ensures old(g.talk) <= g.talk
    ensures ok ==> Passes(Since(old(g.talk), g.talk), ranges, |ranges|)
    ensures !ok ==> Halts(Since(old(g.talk), g.talk), ranges) && Reports(code, g.talk)
  {
    ghost var start, spoken := g.Now(), g.talk;
    ghost var page := Window(g.mem, SHIM_BASE, PAGE);
    WalkStarts(start, page, SHIM_BASE, ranges);
    NothingSaid(spoken, ranges);
    ghost var end, talk;
    ok, code, end, talk := WalkAll(g, start, spoken, page, ranges);
    RunStaysPaged(start, end, ranges, SHIM_BASE);
    if ok {
      WalkEnds(start, end, page, SHIM_BASE, ranges);
    }
  }

  lemma {:induction false} SplitTalk(x: seq<Exchange>, y: seq<Exchange>)
    requires x <= y
    ensures y[..|x|] == x
  {
  }

  /** The wake adds at most the GHCB page to what was validated, and touches only that page. */
  ghost predicate Woke(m: Moment, t: Moment) {
    && (t.log == m.log || t.log == m.log + [Range(SNP_GHCB, SNP_GHCB + PAGE)])
    && (forall a :: !InGhcb(a) ==> t.mem(a) == m.mem(a))
    && (forall q :: q != GHCB_PAGE ==> t.pages(q) == m.pages(q))
  }

  lemma {:induction false} WakeLog(m: Moment, t: Moment, a: int)
    requires Woke(m, t)
    ensures InRanges(m.log, a) ==> InRanges(t.log, a)
    ensures InRanges(t.log, a) ==> InRanges(m.log, a) || InGhcb(a)
  {
    InRangesSnoc(m.log, Range(SNP_GHCB, SNP_GHCB + PAGE), a);
  }

  lemma {:induction false} AfterWake(s: Moment, m: Moment, t: Moment, ranges: seq<Range>)
    requires Contained(s, m, ranges) && Woke(m, t)
    ensures forall a :: !InSlot(a) && !InGhcb(a) ==> t.mem(a) == if InRanges(t.log, a) then 0 else s.mem(a)
    ensures forall a :: InRanges(t.log, a) ==> InRanges(ranges, a) || InGhcb(a)
    ensures forall q :: !InRanges(ranges, q * PAGE) && q != GHCB_PAGE ==> t.pages(q) == s.pages(q)
  {
    forall a
      ensures !InSlot(a) && !InGhcb(a) ==> t.mem(a) == if InRanges(t.log, a) then 0 else s.mem(a)
      ensures InRanges(t.log, a) ==> InRanges(ranges, a) || InGhcb(a)
    {
      WakeLog(m, t, a);
    }
  }

  lemma {:induction false} Awake(s: Moment, m: Moment, t: Moment, ranges: seq<Range>)
    requires Ran(s, m, ranges) && Woke(m, t) && GhcbMoved(m.pages, t.pages, Accepted)
    requires forall a :: InRanges(m.log, a) <==> InRanges(ranges, a)
    ensures Load64(t.mem, SHIM_BASE + SHIM_DATA) == Load64(m.mem, SHIM_BASE + SHIM_DATA)
    ensures forall a :: InRanges(ranges, a) ==> InRanges(t.log, a)
    ensures forall q :: InRanges(ranges, q * PAGE) || q == GHCB_PAGE ==> t.pages(q) == Accepted
  {
    var at := SHIM_BASE + SHIM_DATA;
    assert Window(t.mem, at, 8) == Window(m.mem, at, 8);
    forall a | InRanges(ranges, a)
      ensures InRanges(t.log, a)
    {
      WakeLog(m, t, a);
    }
  }

  /** snp_long_mode to the kernel jump, against any PVALIDATE answers and any host. */
  method Boot(g: Guest, ghost ranges: seq<Range>) returns (outcome: Outcome, ghost validated: nat)
    requires g.log == [] && g.talk == [] && !g.strayed && !g.doubled && g.mode.alias
    requires forall q :: g.pages(q) != Shared
    requires Walkable(g.Now(), ranges, SHIM_BASE)
    requires Walk(Window(g.mem, SHIM_BASE, PAGE), SHIM_DATA + 8) == Some(ranges)
    modifies g
    ensures !g.strayed && !g.doubled && Paged(g.mem, g.mode)
    ensures forall a :: !InSlot(a) && !InGhcb(a) ==>
              g.mem(a) == (if InRanges(g.log, a) then 0 else old(g.mem)(a))
    ensures forall a :: InRanges(g.log, a) ==> InRanges(ranges, a) || InGhcb(a)
    ensures forall q :: !InRanges(ranges, q * PAGE) && q != GHCB_PAGE ==> g.pages(q) == old(g.pages)(q)
    ensures validated <= |g.talk|
    ensures match outcome
            case Died(code) => validated == |g.talk| && Halts(g.talk, ranges) && Reports(code, g.talk)
            case WakeFailed(step, code) =>
              && Passes(g.talk[..validated], ranges, |ranges|)
              && RefusedAt(g.talk[validated..], 1, step) && ReportsStep(code, step)
            case Kernel(entry) =>
              && Passes(g.talk[..validated], ranges, |ranges|)
              && Granted(g.talk[validated..], 1, 8)
              && entry == old(Load64(g.mem, SHIM_BASE + SHIM_DATA))
              && (forall a :: InRanges(ranges, a) ==> InRanges(g.log, a))
              && (forall q :: InRanges(ranges, q * PAGE) || q == GHCB_PAGE ==> g.pages(q) == Accepted)
  {
    var ok, code := ValidateAll(g, ranges);
    validated := |g.talk|;
    assert Since([], g.talk) == g.talk[..validated] == g.talk;
    if !ok {
      return Died(code), validated;
    }
    ghost var mid, quiet := g.Now(), g.talk;
    var refused := WakeAps(g);
    SplitTalk(quiet, g.talk);
    AfterWake(old(g.Now()), mid, g.Now(), ranges);
    if refused != 0 {
      WakeCodeDecodes(refused, 0, 0, false);
      return WakeFailed(refused, WakeCode(refused)), validated;
    }
    Awake(old(g.Now()), mid, g.Now(), ranges);
    var entry := LoadDirect(g, SHIM_BASE + SHIM_DATA);
    return Kernel(entry), validated;
  }
}
