/** The TDX reset shim: the walk over its data block and the 2-MiB-first accept loop. */
module TdxShim {
  import opened Wrappers
  import opened Layout
  import opened Bytes
  import opened Placement
  import opened ShimBlock
  import opened Physical
  import opened Paging
  import opened Guest
  import opened Trace

  datatype Outcome = Kernel(entry: nat) | Stopped

  /** accept_range: accepts [lo, hi) front to back, or stops at the first refusal. */
  method AcceptRange(g: Guest, lo: int, hi: int) returns (ok: bool, ghost upTo: int)
    requires PageAligned(lo) && PageAligned(hi) && 0 <= lo <= hi <= MAP_LIMIT
    requires Waiting(g.pages, lo, hi)
    requires Ascends(g.log) && EndsBy(g.log, lo)
    modifies g`pages, g`mem, g`log, g`doubled, g`talk, g`strayed
    ensures lo <= upTo <= hi && PageAligned(upTo)
    ensures ok <==> upTo == hi
    ensures Took(old(g.Now()), g.Now(), lo, upTo)
    ensures old(g.talk) <= g.talk
    ensures ok ==> Reaches(Since(old(g.talk), g.talk), lo, hi, hi)
    ensures !ok ==> StopsAt(Since(old(g.talk), g.talk), lo, upTo, hi)
  {
    ghost var start, spoken := g.Now(), g.talk;
    var r12 := lo;
    while r12 < hi
      invariant lo <= r12 <= hi && PageAligned(r12)
      invariant Took(start, g.Now(), lo, r12)
      invariant spoken <= g.talk && Reaches(Since(spoken, g.talk), lo, r12, hi)
      decreases hi - r12
    {
      ghost var turn, said := g.Now(), g.talk;
      StillWaiting(start, turn, lo, r12, r12, hi);
      var step := AcceptNext(g, r12, hi);
      if step == 0 {
        TurnBalked(spoken, said, g.talk, lo, r12, hi);
        return false, r12;
      }
      TurnTook(start, turn, g.Now(), spoken, said, g.talk, lo, r12, r12 + step, hi);
      r12 := r12 + step;
    }
    return true, r12;
  }

  /** One turn: a 2-MiB attempt where it fits, the 4-KiB one after a size mismatch, else fatal (0). */
  method AcceptNext(g: Guest, r12: int, hi: int) returns (step: int)
    requires PageAligned(r12) && PageAligned(hi) && r12 < hi
    requires Waiting(g.pages, r12, hi)
    requires Ascends(g.log) && EndsBy(g.log, r12)
    modifies g`pages, g`mem, g`log, g`doubled, g`talk, g`strayed
    ensures old(g.talk) <= g.talk
    ensures step == 0 ==> g.Now() == old(g.Now()) && Balked(Since(old(g.talk), g.talk), r12, hi)
    ensures step != 0 ==>
              && (step == PAGE || step == PAGE_2M) && r12 + step <= hi && PageAligned(r12 + step)
              && Took(old(g.Now()), g.Now(), r12, r12 + step)
              && Reaches(Since(old(g.talk), g.talk), r12, r12 + step, hi)
  {
    NextPage(r12, hi);
    ghost var said := g.talk;
    if r12 % PAGE_2M == 0 && r12 + PAGE_2M <= hi {
      var rax := TakeExtent(g, r12, PAGE_2M);
      ghost var big := Tdcall(r12, PAGE_2M, rax);
      OneCall(said, big, r12, hi);
      if rax == 0 {
        return PAGE_2M;
      }
      if rax / 0x1_0000_0000 != SIZE_MISMATCH {
        return 0;
      }
      rax := TakeExtent(g, r12, PAGE);
      TwoCalls(said, big, Tdcall(r12, PAGE, rax), r12, hi);
      return if rax == 0 then PAGE else 0;
    }
    var rax := TakeExtent(g, r12, PAGE);
    OneCall(said, Tdcall(r12, PAGE, rax), r12, hi);
    return if rax == 0 then PAGE else 0;
  }

  /** One tdcall for the extent at the cursor. */
  method TakeExtent(g: Guest, at: int, size: int) returns (rax: U64)
    requires size == PAGE || size == PAGE_2M
    requires Waiting(g.pages, at, at + size)
    requires Ascends(g.log) && EndsBy(g.log, at)
    modifies g`pages, g`mem, g`log, g`doubled, g`talk, g`strayed
    ensures g.talk == old(g.talk) + [Tdcall(at, size, rax)]
    ensures rax != 0 ==> g.Now() == old(g.Now())
    ensures rax == 0 ==> Took(old(g.Now()), g.Now(), at, at + size)
  {
    ghost var before := g.Now();
    rax := g.TdAccept(at, size);
    if rax == 0 {
      TookExtent(before, g.Now(), at, size);
    }
  }

  /** `call accept_range`: no extent accepted reaches the return address, so the call returns. */
  method CallAcceptRange(g: Guest, lo: int, hi: int) returns (ok: bool, ghost upTo: int)
    requires PageAligned(lo) && PageAligned(hi) && 0 <= lo <= hi <= MAP_LIMIT
    requires hi <= STACK_SLOT || STACK_SLOT + 8 <= lo
    requires Paged(g.mem, g.mode) && ClearOfTables(g.mode, lo, hi)
    requires Waiting(g.pages, lo, hi)
    requires Ascends(g.log) && EndsBy(g.log, lo)
    modifies g`pages, g`mem, g`log, g`doubled, g`talk, g`strayed
    ensures lo <= upTo <= hi && (ok <==> upTo == hi)
    ensures CallTook(old(g.Now()), g.Now(), lo, upTo)
    ensures old(g.talk) <= g.talk
    ensures ok ==> Reaches(Since(old(g.talk), g.talk), lo, hi, hi)
    ensures !ok ==> StopsAt(Since(old(g.talk), g.talk), lo, upTo, hi)
  {
    var ret := PushReturn(g);
    ghost var pushed := g.Now();
    ok, upTo := AcceptRange(g, lo, hi);
    PopReturn(g, pushed, lo, upTo, hi, ret);
  }

  /** What the walk has done so far: `k` ranges taken, and the calls that took them. */
  ghost predicate Passed(start: Moment, now: Moment, spoken: seq<Exchange>, talk: seq<Exchange>, page: Bytes,
                         ranges: seq<Range>, k: nat)
  {
    && Walking(start, now, page, RESET_ALIAS, ranges, k)
    && spoken <= talk && Passes(Since(spoken, talk), ranges, k)
  }

  ghost predicate Balks(spoken: seq<Exchange>, talk: seq<Exchange>, ranges: seq<Range>) {
    spoken <= talk && Halts(Since(spoken, talk), ranges)
  }

  /** accept_next: one range of the block, or its end. */
  method WalkNext(g: Guest, rbp: int, ghost start: Moment, ghost spoken: seq<Exchange>, ghost page: Bytes,
                  ghost ranges: seq<Range>, ghost k: nat)
    returns (turn: Turn, ghost now: Moment, ghost talk: seq<Exchange>)
    requires Passed(start, g.Now(), spoken, g.talk, page, ranges, k)
    requires rbp == RESET_ALIAS + SHIM_DATA + 8 + 16 * k
    modifies g`pages, g`mem, g`log, g`doubled, g`talk, g`strayed
    ensures now == g.Now() && talk == g.talk && Ran(start, now, ranges)
    ensures turn.Finished? ==> k == |ranges| && Passed(start, now, spoken, talk, page, ranges, k)
    ensures turn.Next? ==> k < |ranges| && Passed(start, now, spoken, talk, page, ranges, k + 1)
    ensures turn.Refused? ==> Balks(spoken, talk, ranges)
  {
    ghost var before, said := g.Now(), g.talk;
    now, talk := before, said;
    WindowHolds(start, before, ranges, RESET_ALIAS);
    RunStaysPaged(start, before, ranges, RESET_ALIAS);
    var r12, r13 := LoadPair(g, RESET_ALIAS, rbp, page, SHIM_DATA + 8 + 16 * k, ranges[k..]);
    if r12 == 0 && r13 == 0 {
      return Turn.Finished, now, talk;
    }
    NextWaits(start, before, ranges, RESET_ALIAS, k);
    var ok, upTo := CallAcceptRange(g, r12, r13);
    now, talk := g.Now(), g.talk;
    TalkGrows(spoken, said, talk);
    if !ok {
      HaltsThen(Since(spoken, said), Since(said, talk), ranges, k, upTo);
      RanThen(start, before, now, ranges, k, upTo);
      return Turn.Refused, now, talk;
    }
    PassesThen(Since(spoken, said), Since(said, talk), ranges, k);
    WalkOn(start, before, now, page, RESET_ALIAS, ranges, k);
    return Turn.Next, now, talk;
  }

  lemma {:induction false} NothingSaid(talk: seq<Exchange>, ranges: seq<Range>)
    ensures Passes(Since(talk, talk), ranges, 0)
  {
  }

  /** accept_next to its end: every range accepted, or a fatal status. */
  method AcceptAll(g: Guest, ghost start: Moment, ghost spoken: seq<Exchange>, ghost page: Bytes,
                   ghost ranges: seq<Range>)
    returns (ok: bool, ghost now: Moment, ghost talk: seq<Exchange>)
    requires start == g.Now() && spoken == g.talk && Passed(start, start, spoken, spoken, page, ranges, 0)
    modifies g`pages, g`mem, g`log, g`doubled, g`talk, g`strayed
    ensures now == g.Now() && talk == g.talk && Ran(start, now, ranges)
    ensures if ok then Passed(start, now, spoken, talk, page, ranges, |ranges|)
            else Balks(spoken, talk, ranges)
  {
    ghost var k := 0;
    now, talk := start, spoken;
    var rbp := RESET_ALIAS + SHIM_DATA + 8;
    while true
      invariant rbp == RESET_ALIAS + SHIM_DATA + 8 + 16 * k && k <= |ranges|
      invariant now == g.Now() && talk == g.talk && Passed(start, now, spoken, talk, page, ranges, k)
      decreases |ranges| - k
    {
      var turn;
      turn, now, talk := WalkNext(g, rbp, start, spoken, page, ranges, k);
      if turn != Turn.Next {
        return turn == Turn.Finished, now, talk;
      }
      rbp := rbp + 16;
      k := k + 1;
    }
  }

  /** long_mode to boot_kernel on the boot processor, reading its block from the page it runs from. */
  method Boot(g: Guest, ghost ranges: seq<Range>) returns (outcome: Outcome)
    requires g.log == []
    requires Walkable(g.Now(), ranges, RESET_ALIAS)
    requires Walk(Window(g.mem, RESET_ALIAS, PAGE), SHIM_DATA + 8) == Some(ranges)
    modifies g`pages, g`mem, g`log, g`doubled, g`talk, g`strayed
    ensures Ran(old(g.Now()), g.Now(), ranges)
    ensures outcome.Kernel? ==> outcome.entry == old(Load64(g.mem, RESET_ALIAS + SHIM_DATA))
    ensures outcome.Kernel? ==> forall a :: InRanges(g.log, a) <==> InRanges(ranges, a)
    ensures old(g.talk) <= g.talk && Paged(g.mem, g.mode)
    ensures if outcome.Kernel? then Passes(Since(old(g.talk), g.talk), ranges, |ranges|)
            else Halts(Since(old(g.talk), g.talk), ranges)
  {
    ghost var start, spoken := g.Now(), g.talk;
    ghost var page := Window(g.mem, RESET_ALIAS, PAGE);
    WalkStarts(start, page, RESET_ALIAS, ranges);
    NothingSaid(spoken, ranges);
    ghost var end, talk;
    var ok;
    ok, end, talk := AcceptAll(g, start, spoken, page, ranges);
    RunStaysPaged(start, end, ranges, RESET_ALIAS);
    if !ok {
      return Outcome.Stopped;
    }
    WalkEnds(start, end, page, RESET_ALIAS, ranges);
    var entry := LoadDirect(g, RESET_ALIAS + SHIM_DATA);
    return Kernel(entry);
  }
}
