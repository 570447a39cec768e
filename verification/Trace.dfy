/** What a shim says to its firmware, call by call, and what each answer makes of the run. */
module Trace {
  import opened Layout
  import opened Placement
  import opened Guest

  const SIZE_MISMATCH := 0xc000_0b0b
  const FAIL_SIZEMISMATCH := 6

  /** An answer lets the loop go on, has it retry in 4-KiB pages, or ends the run. */
  datatype Verdict = Taken | Retry | Fatal

  function Judge(x: Exchange): Verdict {
    match x
    case Tdcall(_, size, rax) =>
      if rax == 0 then Taken else if size == 0x20_0000 && rax / 0x1_0000_0000 == 0xc000_0b0b then Retry else Fatal
    case PVal(_, size, _, eax, carry) =>
      if eax == 0 then (if carry then Fatal else Taken)
      else if size == 0x20_0000 && eax == 6 then Retry
      else Fatal
    case _ => Fatal
  }

  /** A request to accept this extent. */
  predicate Calls(x: Exchange, at: int, size: int) {
    (x.Tdcall? || (x.PVal? && x.validate)) && x.gpa == at && x.size == size
  }

  predicate Fits2M(at: int, hi: int) { at % 0x20_0000 == 0 && at + 0x20_0000 <= hi }

  /** The calls that take [at, to): 2 MiB wherever it fits, 4 KiB there only after a size mismatch. */
  predicate Reaches(x: seq<Exchange>, at: int, to: int, hi: int)
    decreases |x|
  {
    if x == [] then at == to
    else if at >= to then false
    else if !Fits2M(at, hi) then Calls(x[0], at, PAGE) && Judge(x[0]) == Taken && Reaches(x[1..], at + PAGE, to, hi)
    else if Judge(x[0]) == Taken then Calls(x[0], at, PAGE_2M) && Reaches(x[1..], at + PAGE_2M, to, hi)
    else
      && |x| >= 2 && Calls(x[0], at, PAGE_2M) && Judge(x[0]) == Retry
      && Calls(x[1], at, PAGE) && Judge(x[1]) == Taken && Reaches(x[2..], at + PAGE, to, hi)
  }

  /** The calls of one turn that got nowhere. */
  predicate Balked(x: seq<Exchange>, at: int, hi: int) {
    if !Fits2M(at, hi) then |x| == 1 && Calls(x[0], at, PAGE) && Judge(x[0]) == Fatal
    else if |x| == 1 then Calls(x[0], at, PAGE_2M) && Judge(x[0]) == Fatal
    else
      && |x| == 2 && Calls(x[0], at, PAGE_2M) && Judge(x[0]) == Retry
      && Calls(x[1], at, PAGE) && Judge(x[1]) == Fatal
  }

  /** The calls of a range that stopped at `to`. */
  ghost predicate StopsAt(x: seq<Exchange>, at: int, to: int, hi: int) {
    exists n :: 0 <= n <= |x| && Reaches(x[..n], at, to, hi) && Balked(x[n..], to, hi)
  }

  /** The calls of the first `k` ranges, one range after another. */
  ghost predicate Passes(x: seq<Exchange>, ranges: seq<Range>, k: nat)
    requires k <= |ranges|
    decreases k
  {
    if k == 0 then x == []
    else
      var r := ranges[k - 1];
      exists n :: 0 <= n <= |x| && Passes(x[..n], ranges, k - 1) && Reaches(x[n..], r.lo, r.hi, r.hi)
  }

  /** The calls of a run refused partway through some range. */
  ghost predicate Halts(x: seq<Exchange>, ranges: seq<Range>) {
    exists n, k, upTo :: 0 <= n <= |x| && 0 <= k < |ranges| && Passes(x[..n], ranges, k)
                         && StopsAt(x[n..], ranges[k].lo, upTo, ranges[k].hi)
  }

  /** What was said between two moments. */
  function Since(before: seq<Exchange>, after: seq<Exchange>): seq<Exchange>
    requires before <= after
  {
    after[|before|..]
  }

  lemma {:induction false} TalkGrows(a: seq<Exchange>, b: seq<Exchange>, c: seq<Exchange>)
    requires a <= b <= c
    ensures a <= c && Since(a, c) == Since(a, b) + Since(b, c)
  {
  }

  lemma {:induction false} ReachesThen(x: seq<Exchange>, y: seq<Exchange>, lo: int, mid: int, to: int, hi: int)
    requires Reaches(x, lo, mid, hi) && Reaches(y, mid, to, hi) && mid < to
    ensures Reaches(x + y, lo, to, hi)
    decreases |x|
  {
    if x == [] {
      assert x + y == y;
    } else {
      assert (x + y)[0] == x[0] && (x + y)[1..] == x[1..] + y;
      if !Fits2M(lo, hi) {
        ReachesForward(x[1..], lo + PAGE, mid, hi);
        ReachesThen(x[1..], y, lo + PAGE, mid, to, hi);
      } else if Judge(x[0]) == Taken {
        ReachesForward(x[1..], lo + PAGE_2M, mid, hi);
        ReachesThen(x[1..], y, lo + PAGE_2M, mid, to, hi);
      } else {
        assert (x + y)[1] == x[1] && (x + y)[2..] == x[2..] + y;
        ReachesForward(x[2..], lo + PAGE, mid, hi);
        ReachesThen(x[2..], y, lo + PAGE, mid, to, hi);
      }
    }
  }

  lemma {:induction false} ReachesForward(x: seq<Exchange>, at: int, to: int, hi: int)
    requires Reaches(x, at, to, hi)
    ensures at <= to
  {
  }

  lemma {:induction false} StopsThen(x: seq<Exchange>, y: seq<Exchange>, lo: int, mid: int, hi: int)
    requires Reaches(x, lo, mid, hi) && Balked(y, mid, hi)
    ensures StopsAt(x + y, lo, mid, hi)
  {
    assert (x + y)[..|x|] == x && (x + y)[|x|..] == y;
  }

  lemma {:induction false} PassesThen(x: seq<Exchange>, y: seq<Exchange>, ranges: seq<Range>, k: nat)
    requires k < |ranges| && Passes(x, ranges, k) && Reaches(y, ranges[k].lo, ranges[k].hi, ranges[k].hi)
    ensures Passes(x + y, ranges, k + 1)
  {
    assert (x + y)[..|x|] == x && (x + y)[|x|..] == y;
  }

  lemma {:induction false} HaltsThen(x: seq<Exchange>, y: seq<Exchange>, ranges: seq<Range>, k: nat, upTo: int)
    requires k < |ranges| && Passes(x, ranges, k) && StopsAt(y, ranges[k].lo, upTo, ranges[k].hi)
    ensures Halts(x + y, ranges)
  {
    assert (x + y)[..|x|] == x && (x + y)[|x|..] == y;
  }

  /** A turn of one call: the size that fits, and how it was answered. */
  lemma {:induction false} OneCall(talk: seq<Exchange>, x: Exchange, at: int, hi: int)
    requires Calls(x, at, if Fits2M(at, hi) then PAGE_2M else PAGE)
    ensures talk <= talk + [x]
    ensures Judge(x) == Taken ==> Reaches(Since(talk, talk + [x]), at, at + x.size, hi)
    ensures Judge(x) == Fatal ==> Balked(Since(talk, talk + [x]), at, hi)
  {
    assert Since(talk, talk + [x]) == [x] && [x][1..] == [];
  }

  /** A turn of two: a size mismatch, then the small page. */
  lemma {:induction false} TwoCalls(talk: seq<Exchange>, x: Exchange, y: Exchange, at: int, hi: int)
    requires Fits2M(at, hi) && Calls(x, at, PAGE_2M) && Judge(x) == Retry && Calls(y, at, PAGE)
    ensures talk <= talk + [x] + [y]
    ensures Judge(y) == Taken ==> Reaches(Since(talk, talk + [x] + [y]), at, at + PAGE, hi)
    ensures Judge(y) != Taken ==> Balked(Since(talk, talk + [x] + [y]), at, hi)
  {
    assert Since(talk, talk + [x] + [y]) == [x, y] && [x, y][2..] == [];
  }

  /** One more turn of a range loop: what it took, and the calls it took it with. */
  lemma {:induction false} TurnTook(start: Moment, turn: Moment, now: Moment, spoken: seq<Exchange>,
                                    said: seq<Exchange>,
                                    talk: seq<Exchange>, lo: int, mid: int, to: int, hi: int)
    requires lo <= mid < to && Took(start, turn, lo, mid) && Took(turn, now, mid, to)
    requires spoken <= said <= talk
    requires Reaches(Since(spoken, said), lo, mid, hi) && Reaches(Since(said, talk), mid, to, hi)
    ensures Took(start, now, lo, to) && spoken <= talk && Reaches(Since(spoken, talk), lo, to, hi)
  {
    TookThen(start, turn, now, lo, mid, to);
    TalkGrows(spoken, said, talk);
    ReachesThen(Since(spoken, said), Since(said, talk), lo, mid, to, hi);
  }

  lemma {:induction false} TurnBalked(spoken: seq<Exchange>, said: seq<Exchange>, talk: seq<Exchange>, lo: int,
                                      mid: int, hi: int)
    requires spoken <= said <= talk && Reaches(Since(spoken, said), lo, mid, hi) && Balked(Since(said, talk), mid, hi)
    ensures spoken <= talk && StopsAt(Since(spoken, talk), lo, mid, hi)
  {
    TalkGrows(spoken, said, talk);
    StopsThen(Since(spoken, said), Since(said, talk), lo, mid, hi);
  }

  // ---------- what a trace rules out ----------

  /** No answer was one to stop at. */
  ghost predicate Clean(x: seq<Exchange>) {
    forall i :: 0 <= i < |x| ==> Judge(x[i]) != Fatal
  }

  lemma {:induction false} ReachesClean(x: seq<Exchange>, at: int, to: int, hi: int)
    requires Reaches(x, at, to, hi)
    ensures Clean(x)
    decreases |x|
  {
    if x != [] {
      if !Fits2M(at, hi) {
        ReachesClean(x[1..], at + PAGE, to, hi);
        assert x == [x[0]] + x[1..];
      } else if Judge(x[0]) == Taken {
        ReachesClean(x[1..], at + PAGE_2M, to, hi);
        assert x == [x[0]] + x[1..];
      } else {
        ReachesClean(x[2..], at + PAGE, to, hi);
        assert x == [x[0], x[1]] + x[2..];
      }
    }
  }

  lemma {:induction false} PassesClean(x: seq<Exchange>, ranges: seq<Range>, k: nat)
    requires k <= |ranges| && Passes(x, ranges, k)
    ensures Clean(x)
    decreases k
  {
    if k > 0 {
      var r := ranges[k - 1];
      var n :| 0 <= n <= |x| && Passes(x[..n], ranges, k - 1) && Reaches(x[n..], r.lo, r.hi, r.hi);
      PassesClean(x[..n], ranges, k - 1);
      ReachesClean(x[n..], r.lo, r.hi, r.hi);
      assert x == x[..n] + x[n..];
    }
  }

  lemma {:induction false} StopsFatal(x: seq<Exchange>, at: int, to: int, hi: int)
    requires StopsAt(x, at, to, hi)
    ensures x != [] && Judge(x[|x| - 1]) == Fatal && Clean(x[..|x| - 1])
  {
    var n :| 0 <= n <= |x| && Reaches(x[..n], at, to, hi) && Balked(x[n..], to, hi);
    ReachesClean(x[..n], at, to, hi);
    assert x == x[..n] + x[n..];
  }

  /** A run goes on past every answer but a fatal one, and past none of those. */
  lemma {:induction false} HaltsFatal(x: seq<Exchange>, ranges: seq<Range>)
    requires Halts(x, ranges)
    ensures x != [] && Judge(x[|x| - 1]) == Fatal && Clean(x[..|x| - 1])
  {
    var n, k, upTo :| 0 <= n <= |x| && 0 <= k < |ranges| && Passes(x[..n], ranges, k)
                      && StopsAt(x[n..], ranges[k].lo, upTo, ranges[k].hi);
    PassesClean(x[..n], ranges, k);
    StopsFatal(x[n..], ranges[k].lo, upTo, ranges[k].hi);
    assert x == x[..n] + x[n..];
  }

  /** So the answers alone decide how a run ends. */
  lemma {:induction false} AnswersDecide(x: seq<Exchange>, ranges: seq<Range>)
    ensures !(Passes(x, ranges, |ranges|) && Halts(x, ranges))
  {
    if Passes(x, ranges, |ranges|) {
      PassesClean(x, ranges, |ranges|);
      if Halts(x, ranges) {
        HaltsFatal(x, ranges);
      }
    }
  }
}
