/** What spans whose ends wrap past 2^64 do to the two sweeps, and exactly when that does no harm. */
module Wrapping {
  import opened Layout
  import opened Collections
  import opened Placement
  import opened MapTheorems

  predicate Wrapped(s: Span) { s.hi < s.lo }

  function Least(a: int, b: int): int { if a < b then a else b }

  /** The spans that have not wrapped. */
  function Kept(spans: seq<Span>): (r: seq<Span>)
    ensures forall s :: s in r <==> s in spans && !Wrapped(s)
  {
    if spans == [] then []
    else
      var rest := Kept(spans[1..]);
      if Wrapped(spans[0]) then rest else [spans[0]] + rest
  }

  lemma {:induction false} KeptSorted(spans: seq<Span>)
    requires SortedSpans(spans)
    ensures SortedSpans(Kept(spans))
  {
    if spans != [] {
      var rest := Kept(spans[1..]);
      KeptSorted(spans[1..]);
      forall j | 0 <= j < |rest|
        ensures SpanLe(spans[0], rest[j])
      {
        assert rest[j] in spans[1..];
      }
    }
  }

  /** A span that has wrapped covers nothing, so what the others mean is what all of them mean. */
  lemma {:induction false} KeptMeaning(spans: seq<Span>, a: int)
    ensures Claimed(Kept(spans), a) <==> Claimed(spans, a)
    ensures FirstKind(Kept(spans), a) == FirstKind(spans, a)
  {
    KeptKind(spans, a);
    if i :| 0 <= i < |spans| && Covers(spans[i], a) {
      assert spans[i] in Kept(spans);
    }
    if i :| 0 <= i < |Kept(spans)| && Covers(Kept(spans)[i], a) {
      assert Kept(spans)[i] in spans;
    }
  }

  lemma {:induction false} KeptKind(spans: seq<Span>, a: int)
    ensures FirstKind(Kept(spans), a) == FirstKind(spans, a)
  {
    if spans != [] {
      KeptKind(spans[1..], a);
      if !Wrapped(spans[0]) {
        assert Kept(spans)[1..] == Kept(spans[1..]);
      }
    }
  }

  // ---------- the accept list ----------

  lemma {:induction false} RetainJoin(a: seq<Range>, b: seq<Range>)
    ensures Retain(a + b) == Retain(a) + Retain(b)
  {
    if b == [] {
      assert a + b == a && Retain(a) + [] == Retain(a);
    } else {
      var n := |b| - 1;
      RetainJoin(a, b[..n]);
      assert (a + b)[..|a| + n] == a + b[..n] && (a + b)[|a| + n] == b[n];
      if b[n].lo < b[n].hi {
        ConcatAssoc(Retain(a), Retain(b[..n]), [b[n]]);
      }
    }
  }

  lemma {:induction false} RetainOne(x: Range)
    ensures Retain([x]) == if x.lo < x.hi then [x] else []
  {
    assert [x][..0] == [] && Retain([x][..0]) == [];
  }

  /** The ranges listed from a cursor on. */
  function RangesFrom(spans: seq<Span>, at: int, memory: int): seq<Range> { Retain(Gaps(spans, at, memory)) }

  /** One turn of the sweep: the gap before a span, if there is one, and the rest. */
  lemma {:induction false} RangesTurn(spans: seq<Span>, at: int, memory: int)
    ensures spans == [] ==> RangesFrom(spans, at, memory) == if at < memory then [Range(at, memory)] else []
    ensures spans != [] ==>
              var m := Least(spans[0].lo, memory);
              RangesFrom(spans, at, memory) ==
              (if at < m then [Range(at, m)] else []) + RangesFrom(spans[1..], Cursor(spans[0], at), memory)
  {
    if spans == [] {
      RetainOne(Range(at, memory));
    } else {
      RetainJoin(Gap(spans[0], at, memory), Gaps(spans[1..], Cursor(spans[0], at), memory));
      RetainOne(Range(at, Least(spans[0].lo, memory)));
      assert Retain([]) == [];
    }
  }

  lemma {:induction false} NothingPastMemory(spans: seq<Span>, at: int, memory: int)
    requires memory <= at
    ensures RangesFrom(spans, at, memory) == []
  {
    RangesTurn(spans, at, memory);
    if spans != [] {
      NothingPastMemory(spans[1..], Cursor(spans[0], at), memory);
    }
  }

  /** With nothing in the way, everything from the cursor on is listed. */
  lemma {:induction false} AllFromCursor(spans: seq<Span>, at: int, memory: int)
    requires at < memory && forall s :: s in spans ==> memory <= s.lo <= s.hi
    ensures RangesFrom(spans, at, memory) == [Range(at, memory)]
  {
    RangesTurn(spans, at, memory);
    if spans != [] {
      assert spans[0] in spans;
      NothingPastMemory(spans[1..], Cursor(spans[0], at), memory);
    }
  }

  /** Each wrapped span is met where no gap is left before it, or takes the cursor past memory. */
  predicate Settled(spans: seq<Span>, at: int, memory: int) {
    spans == [] ||
      (&& (Wrapped(spans[0]) ==> memory <= spans[0].hi || Least(spans[0].lo, memory) <= at)
       && Settled(spans[1..], Cursor(spans[0], at), memory))
  }

  lemma {:induction false} SettledDrops(spans: seq<Span>, at: int, memory: int)
    requires SortedSpans(spans) && Settled(spans, at, memory)
    ensures RangesFrom(spans, at, memory) == RangesFrom(Kept(spans), at, memory)
  {
    if spans != [] {
      RangesTurn(spans, at, memory);
      SettledDrops(spans[1..], Cursor(spans[0], at), memory);
      if !Wrapped(spans[0]) {
        RangesTurn(Kept(spans), at, memory);
        assert Kept(spans)[1..] == Kept(spans[1..]);
      } else {
        WrappedDrops(spans, at, memory);
      }
    }
  }

  lemma {:induction false} WrappedDrops(spans: seq<Span>, at: int, memory: int)
    requires SortedSpans(spans) && spans != [] && Wrapped(spans[0])
    requires memory <= spans[0].hi || Least(spans[0].lo, memory) <= at
    requires var c := Cursor(spans[0], at); RangesFrom(spans[1..], c, memory) == RangesFrom(Kept(spans[1..]), c, memory)
    ensures RangesFrom(spans, at, memory) == RangesFrom(Kept(spans[1..]), at, memory)
  {
    var rest, c := spans[1..], Cursor(spans[0], at);
    RangesTurn(spans, at, memory);
    if memory <= at {
      NothingPastMemory(rest, c, memory);
      NothingPastMemory(Kept(rest), at, memory);
    } else if memory <= spans[0].hi {
      NothingPastMemory(rest, c, memory);
      forall s | s in Kept(rest)
        ensures memory <= s.lo <= s.hi
      {
        LaterStarts(spans, s);
      }
      AllFromCursor(Kept(rest), at, memory);
    }
  }

  lemma {:induction false} LaterStarts(spans: seq<Span>, s: Span)
    requires SortedSpans(spans) && spans != [] && s in spans[1..]
    ensures spans[0].lo <= s.lo
  {
    var j :| 0 <= j < |spans[1..]| && spans[1..][j] == s;
    assert SpanLe(spans[0], spans[j + 1]);
  }

  /** The list a sweep leaves ahead of a cursor short of memory begins there. */
  lemma {:induction false} BeginsAtCursor(spans: seq<Span>, at: int, memory: int)
    requires at < memory && (spans != [] ==> at < spans[0].lo)
    ensures var r := RangesFrom(spans, at, memory); r != [] && r[0].lo == at < r[0].hi
  {
    RangesTurn(spans, at, memory);
  }

  /** Otherwise the cursor falls behind a gap already listed, and its bytes are listed again. */
  lemma {:induction false} UnsettledRepeats(spans: seq<Span>, at: int, memory: int)
    requires SortedSpans(spans) && !Settled(spans, at, memory)
    ensures !Separated(RangesFrom(spans, at, memory), memory)
  {
    var m, rest, c := Least(spans[0].lo, memory), spans[1..], Cursor(spans[0], at);
    var head := if at < m then [Range(at, m)] else [];
    RangesTurn(spans, at, memory);
    if Wrapped(spans[0]) && spans[0].hi < memory && at < m {
      if rest != [] {
        LaterStarts(spans, rest[0]);
      }
      BeginsAtCursor(rest, c, memory);
      var all := head + RangesFrom(rest, c, memory);
      assert all[0] == Range(at, m) && all[1] == RangesFrom(rest, c, memory)[0];
    } else {
      UnsettledRepeats(rest, c, memory);
      TailSeparated(head, RangesFrom(rest, c, memory), memory);
    }
  }

  lemma {:induction false} TailSeparated(head: seq<Range>, tail: seq<Range>, memory: int)
    ensures Separated(head + tail, memory) ==> Separated(tail, memory)
  {
    var all := head + tail;
    forall i | 0 <= i < |tail|
      ensures tail[i] == all[|head| + i]
    {
      TailMember(head, tail, i);
    }
    if Separated(all, memory) {
      forall i, j | 0 <= i < j < |tail|
        ensures tail[i].hi < tail[j].lo
      {
        assert all[|head| + i].hi < all[|head| + j].lo;
      }
    }
  }

  // ---------- the E820 map ----------

  /** The same of the other sweep, which looks no further than memory: no gap is left before a wrapped span. */
  predicate MapSettled(spans: seq<Span>, at: int, memory: int) {
    spans == [] || memory <= spans[0].lo ||
      ((Wrapped(spans[0]) ==> spans[0].lo <= at) && MapSettled(spans[1..], Cursor(spans[0], at), memory))
  }

  lemma {:induction false} StopsAtMemory(out: seq<Entry>, spans: seq<Span>, at: int, memory: int)
    requires forall s :: s in spans ==> memory <= s.lo
    ensures SweepFrom(out, spans, at, memory) == PushOn(out, at, memory, RAM)
  {
    if spans != [] {
      assert spans[0] in spans;
    }
  }

  lemma {:induction false} MapSettledDrops(out: seq<Entry>, spans: seq<Span>, at: int, memory: int)
    requires SortedSpans(spans) && MapSettled(spans, at, memory)
    ensures SweepFrom(out, spans, at, memory) == SweepFrom(out, Kept(spans), at, memory)
    decreases |spans|
  {
    if spans != [] && memory <= spans[0].lo {
      forall s | s in Kept(spans)
        ensures memory <= s.lo
      {
        if s != spans[0] {
          LaterStarts(spans, s);
        }
      }
      StopsAtMemory(out, Kept(spans), at, memory);
    } else if spans != [] {
      var next := SweepSpan(out, spans[0], at, memory);
      MapSettledDrops(next, spans[1..], Cursor(spans[0], at), memory);
      if Wrapped(spans[0]) {
        assert next == out && Cursor(spans[0], at) == at;
      } else {
        assert Kept(spans)[1..] == Kept(spans[1..]);
      }
    }
  }

  /** Some entry starts before the one in front of it has ended. */
  ghost predicate Tangled(out: seq<Entry>) {
    exists i :: 0 <= i < |out| - 1 && out[i + 1].base < out[i].base + out[i].size
  }

  lemma {:induction false} TangledIsNotCanonical(out: seq<Entry>)
    requires Tangled(out)
    ensures !Canonical(out)
  {
    var i :| 0 <= i < |out| - 1 && out[i + 1].base < out[i].base + out[i].size;
    assert !Before(out[i], out[i + 1]);
  }

  lemma {:induction false} PushKeepsTangle(out: seq<Entry>, base: int, end: int, kind: int)
    requires Tangled(out)
    ensures Tangled(PushOn(out, base, end, kind))
  {
    var i :| 0 <= i < |out| - 1 && out[i + 1].base < out[i].base + out[i].size;
    var r := PushOn(out, base, end, kind);
    assert r[i] == out[i] && r[i + 1].base == out[i + 1].base;
  }

  lemma {:induction false} SweepKeepsTangle(out: seq<Entry>, spans: seq<Span>, at: int, memory: int)
    requires Tangled(out)
    ensures Tangled(SweepFrom(out, spans, at, memory))
    decreases |spans|
  {
    if spans == [] || spans[0].lo >= memory {
      PushKeepsTangle(out, at, memory, RAM);
    } else {
      var s := spans[0];
      PushKeepsTangle(out, at, s.lo, RAM);
      if s.kind != ABSENT {
        PushKeepsTangle(PushOn(out, at, s.lo, RAM), if s.lo > at then s.lo else at,
                        if s.hi < memory then s.hi else memory, s.kind);
      }
      SweepKeepsTangle(SweepSpan(out, s, at, memory), spans[1..], Cursor(s, at), memory);
    }
  }

  /** An extent pushed behind the end of the list is appended, out of order. */
  lemma {:induction false} PushTangles(out: seq<Entry>, base: int, end: int, kind: int)
    requires out != [] && base < EndOf(out) && base < end
    ensures Tangled(PushOn(out, base, end, kind))
  {
    var r, n := PushOn(out, base, end, kind), |out|;
    assert r[n - 1] == out[n - 1] && r[n - 1 + 1].base == base;
  }

  lemma {:induction false} SweepTangles(out: seq<Entry>, spans: seq<Span>, at: int, memory: int)
    requires out != [] && at < EndOf(out) && at < memory && (spans != [] ==> EndOf(out) <= spans[0].lo)
    ensures Tangled(SweepFrom(out, spans, at, memory))
  {
    if spans == [] || spans[0].lo >= memory {
      PushTangles(out, at, memory, RAM);
    } else {
      var s := spans[0];
      PushTangles(out, at, s.lo, RAM);
      if s.kind != ABSENT {
        PushKeepsTangle(PushOn(out, at, s.lo, RAM), if s.lo > at then s.lo else at,
                        if s.hi < memory then s.hi else memory, s.kind);
      }
      SweepKeepsTangle(SweepSpan(out, s, at, memory), spans[1..], Cursor(s, at), memory);
    }
  }

  lemma {:induction false} MapUnsettledTangles(out: seq<Entry>, spans: seq<Span>, at: int, memory: int)
    requires SortedSpans(spans) && !MapSettled(spans, at, memory)
    ensures Tangled(SweepFrom(out, spans, at, memory))
    decreases |spans|
  {
    var s, rest, c := spans[0], spans[1..], Cursor(spans[0], at);
    if Wrapped(s) && at < s.lo {
      var next := SweepSpan(out, s, at, memory);
      assert next == PushOn(out, at, s.lo, RAM) && EndOf(next) == s.lo;
      if rest != [] {
        LaterStarts(spans, rest[0]);
      }
      SweepTangles(next, rest, c, memory);
    } else {
      MapUnsettledTangles(SweepSpan(out, s, at, memory), rest, c, memory);
    }
  }

  // ---------- the conditions, of a listing in any order ----------

  /** Some region that starts below another's start, or below `m`, reaches `m`. */
  ghost predicate Reached(list: seq<Span>, k: nat, m: int)
    requires k < |list|
  {
    exists j :: 0 <= j < |list| && list[j].lo < list[k].lo && m <= list[j].hi
  }

  ghost predicate HarmlessAt(list: seq<Span>, k: nat, memory: int)
    requires k < |list|
  {
    Wrapped(list[k]) ==> memory <= list[k].hi || Reached(list, k, Least(list[k].lo, memory))
  }

  /** What wrapped regions need for the accept list to stand: no gap before one below memory, or an end past it. */
  ghost predicate Harmless(list: seq<Span>, memory: int) {
    forall k :: 0 <= k < |list| ==> HarmlessAt(list, k, memory)
  }

  ghost predicate MapHarmlessAt(list: seq<Span>, k: nat, memory: int)
    requires k < |list|
  {
    Wrapped(list[k]) && list[k].lo < memory ==> Reached(list, k, list[k].lo)
  }

  /** And for the E820 map to. */
  ghost predicate MapHarmless(list: seq<Span>, memory: int) {
    forall k :: 0 <= k < |list| ==> MapHarmlessAt(list, k, memory)
  }

  lemma {:induction false} HarmlessForBoth(list: seq<Span>, memory: int)
    requires Harmless(list, memory)
    ensures MapHarmless(list, memory)
  {
    forall k | 0 <= k < |list|
      ensures MapHarmlessAt(list, k, memory)
    {
      assert HarmlessAt(list, k, memory);
    }
  }

  /** What comes before a sorted span, from a cursor on, reaches `m`. */
  ghost predicate Covered(spans: seq<Span>, i: nat, at: int, m: int)
    requires i <= |spans|
  {
    m <= at || exists j :: 0 <= j < i && m <= spans[j].hi
  }

  lemma {:induction false} CoveredTurn(spans: seq<Span>, i: nat, at: int, m: int)
    requires 0 < i <= |spans|
    ensures Covered(spans, i, at, m) <==> Covered(spans[1..], i - 1, Cursor(spans[0], at), m)
  {
    var rest := spans[1..];
    if j :| 0 <= j < i && m <= spans[j].hi {
      assert j > 0 ==> rest[j - 1] == spans[j];
    }
    if j :| 0 <= j < i - 1 && m <= rest[j].hi {
      assert rest[j] == spans[j + 1];
    }
  }

  ghost predicate SettledAt(spans: seq<Span>, i: nat, at: int, memory: int)
    requires i < |spans|
  {
    Wrapped(spans[i]) ==> memory <= spans[i].hi || Covered(spans, i, at, Least(spans[i].lo, memory))
  }

  lemma {:induction false} SettledTurn(spans: seq<Span>, i: nat, at: int, memory: int)
    requires 0 < i < |spans|
    ensures SettledAt(spans, i, at, memory) <==> SettledAt(spans[1..], i - 1, Cursor(spans[0], at), memory)
  {
    CoveredTurn(spans, i, at, Least(spans[i].lo, memory));
  }

  lemma {:induction false} SettledIff(spans: seq<Span>, at: int, memory: int)
    ensures Settled(spans, at, memory) <==> forall i :: 0 <= i < |spans| ==> SettledAt(spans, i, at, memory)
  {
    if spans != [] {
      var rest, c := spans[1..], Cursor(spans[0], at);
      SettledIff(rest, c, memory);
      if Settled(spans, at, memory) {
        forall i | 0 < i < |spans|
          ensures SettledAt(spans, i, at, memory)
        {
          SettledTurn(spans, i, at, memory);
        }
      }
      if forall i :: 0 <= i < |spans| ==> SettledAt(spans, i, at, memory) {
        assert SettledAt(spans, 0, at, memory);
        forall i | 0 <= i < |rest|
          ensures SettledAt(rest, i, c, memory)
        {
          SettledTurn(spans, i + 1, at, memory);
        }
      }
    }
  }

  ghost predicate MapSettledAt(spans: seq<Span>, i: nat, at: int, memory: int)
    requires i < |spans|
  {
    Wrapped(spans[i]) && spans[i].lo < memory ==> Covered(spans, i, at, spans[i].lo)
  }

  lemma {:induction false} MapSettledTurn(spans: seq<Span>, i: nat, at: int, memory: int)
    requires 0 < i < |spans|
    ensures MapSettledAt(spans, i, at, memory) <==> MapSettledAt(spans[1..], i - 1, Cursor(spans[0], at), memory)
  {
    CoveredTurn(spans, i, at, spans[i].lo);
  }

  lemma {:induction false} MapSettledIff(spans: seq<Span>, at: int, memory: int)
    requires SortedSpans(spans)
    ensures MapSettled(spans, at, memory) <==> forall i :: 0 <= i < |spans| ==> MapSettledAt(spans, i, at, memory)
  {
    if spans != [] && memory <= spans[0].lo {
      forall i | 0 <= i < |spans|
        ensures MapSettledAt(spans, i, at, memory)
      {
        assert i > 0 ==> SpanLe(spans[0], spans[i]);
      }
    } else if spans != [] {
      var rest, c := spans[1..], Cursor(spans[0], at);
      MapSettledIff(rest, c, memory);
      if MapSettled(spans, at, memory) {
        forall i | 0 < i < |spans|
          ensures MapSettledAt(spans, i, at, memory)
        {
          MapSettledTurn(spans, i, at, memory);
        }
      }
      if forall i :: 0 <= i < |spans| ==> MapSettledAt(spans, i, at, memory) {
        assert MapSettledAt(spans, 0, at, memory);
        forall i | 0 <= i < |rest|
          ensures MapSettledAt(rest, i, c, memory)
        {
          MapSettledTurn(spans, i + 1, at, memory);
        }
      }
    }
  }

  /** Of a wrapped span with no end past `m`, what comes before it in order is what starts below it. */
  lemma {:induction false} CoveredIsReached(spans: seq<Span>, i: nat, m: int)
    requires SortedSpans(spans) && i < |spans| && spans[i].hi < m && 0 < m
    ensures Covered(spans, i, 0, m) <==> Reached(spans, i, m)
  {
    if j :| 0 <= j < i && m <= spans[j].hi {
      assert SpanLe(spans[j], spans[i]);
    }
    if j :| 0 <= j < |spans| && spans[j].lo < spans[i].lo && m <= spans[j].hi {
      assert i <= j ==> i == j || SpanLe(spans[i], spans[j]);
    }
  }

  lemma {:induction false} SettledIsHarmlessAt(spans: seq<Span>, i: nat, memory: int)
    requires SortedSpans(spans) && SpansFit(spans) && i < |spans|
    ensures SettledAt(spans, i, 0, memory) <==> HarmlessAt(spans, i, memory)
    ensures MapSettledAt(spans, i, 0, memory) <==> MapHarmlessAt(spans, i, memory)
  {
    assert spans[i] in spans;
    if Wrapped(spans[i]) {
      CoveredIsReached(spans, i, spans[i].lo);
      if spans[i].hi < memory {
        CoveredIsReached(spans, i, Least(spans[i].lo, memory));
      }
    }
  }

  lemma {:induction false} SettledIsHarmless(spans: seq<Span>, memory: int)
    requires SortedSpans(spans) && SpansFit(spans)
    ensures Settled(spans, 0, memory) <==> Harmless(spans, memory)
    ensures MapSettled(spans, 0, memory) <==> MapHarmless(spans, memory)
  {
    SettledIff(spans, 0, memory);
    MapSettledIff(spans, 0, memory);
    forall i | 0 <= i < |spans|
      ensures SettledAt(spans, i, 0, memory) <==> HarmlessAt(spans, i, memory)
      ensures MapSettledAt(spans, i, 0, memory) <==> MapHarmlessAt(spans, i, memory)
    {
      SettledIsHarmlessAt(spans, i, memory);
    }
  }

  lemma {:induction false} ReachedMoves(x: seq<Span>, y: seq<Span>, k: nat, n: nat, m: int)
    requires (forall s :: s in x ==> s in y) && k < |x| && n < |y| && x[k] == y[n] && Reached(x, k, m)
    ensures Reached(y, n, m)
  {
    var j :| 0 <= j < |x| && x[j].lo < x[k].lo && m <= x[j].hi;
    assert x[j] in y;
    var i :| 0 <= i < |y| && y[i] == x[j];
  }

  lemma {:induction false} HarmlessMoves(x: seq<Span>, y: seq<Span>, memory: int)
    requires forall s :: s in x <==> s in y
    ensures Harmless(x, memory) ==> Harmless(y, memory)
    ensures MapHarmless(x, memory) ==> MapHarmless(y, memory)
  {
    forall n | 0 <= n < |y|
      ensures Harmless(x, memory) ==> HarmlessAt(y, n, memory)
      ensures MapHarmless(x, memory) ==> MapHarmlessAt(y, n, memory)
    {
      assert y[n] in x;
      var k :| 0 <= k < |x| && x[k] == y[n];
      assert Harmless(x, memory) ==> HarmlessAt(x, k, memory);
      assert MapHarmless(x, memory) ==> MapHarmlessAt(x, k, memory);
      if Reached(x, k, Least(y[n].lo, memory)) {
        ReachedMoves(x, y, k, n, Least(y[n].lo, memory));
      }
      if Reached(x, k, y[n].lo) {
        ReachedMoves(x, y, k, n, y[n].lo);
      }
    }
  }

  /** Two lists of spans that differ at most in kind. */
  ghost predicate SameEnds(x: seq<Span>, y: seq<Span>) {
    |x| == |y| && forall k :: 0 <= k < |x| ==> x[k].lo == y[k].lo && x[k].hi == y[k].hi
  }

  lemma {:induction false} ReachedBySame(x: seq<Span>, y: seq<Span>, k: nat, m: int)
    requires SameEnds(x, y) && k < |x|
    ensures Reached(x, k, m) <==> Reached(y, k, m)
  {
  }

  lemma {:induction false} HarmlessBySame(x: seq<Span>, y: seq<Span>, memory: int)
    requires SameEnds(x, y)
    ensures Harmless(x, memory) <==> Harmless(y, memory)
    ensures MapHarmless(x, memory) <==> MapHarmless(y, memory)
  {
    forall k | 0 <= k < |x|
      ensures HarmlessAt(x, k, memory) <==> HarmlessAt(y, k, memory)
      ensures MapHarmlessAt(x, k, memory) <==> MapHarmlessAt(y, k, memory)
    {
      ReachedBySame(x, y, k, Least(x[k].lo, memory));
      ReachedBySame(x, y, k, x[k].lo);
    }
  }

  lemma {:induction false} ListingSettled(placed: seq<Placed>, memory: int)
    ensures Settled(Spans(placed), 0, memory) <==> Harmless(SpanList(placed), memory)
    ensures MapSettled(Spans(placed), 0, memory) <==> MapHarmless(SpanList(placed), memory)
  {
    SpansBounded(placed);
    SettledIsHarmless(Spans(placed), memory);
    SpansMembers(placed);
    HarmlessMoves(Spans(placed), SpanList(placed), memory);
    HarmlessMoves(SpanList(placed), Spans(placed), memory);
  }

  // ---------- the two sweeps, of every map ----------

  /** No region is so large that its end comes round to its start. */
  ghost predicate NoFullTurn(placed: seq<Placed>) {
    forall i :: 0 <= i < |placed| ==> 0 < placed[i].Span() < U64_MODULUS
  }

  lemma {:induction false} WrapsOrNot(p: Placed)
    requires 0 < p.Span() < U64_MODULUS
    ensures var s := SpanOf(p);
            0 <= s.lo && 0 <= s.hi && s.lo != s.hi && (Wrapped(s) <==> p.base + p.Span() >= U64_MODULUS)
  {
  }

  lemma {:induction false} KeptNonEmpty(placed: seq<Placed>)
    requires NoFullTurn(placed)
    ensures NonEmptySpans(Kept(Spans(placed))) && Ordered(Kept(Spans(placed)))
  {
    var list, kept := SpanList(placed), Kept(Spans(placed));
    SpansMembers(placed);
    forall k | 0 <= k < |kept|
      ensures 0 <= kept[k].lo < kept[k].hi
    {
      assert kept[k] in kept && kept[k] in list;
      var i :| 0 <= i < |list| && list[i] == kept[k];
      WrapsOrNot(placed[i]);
    }
  }

  /**
   * The accept list swept from any map at all is that map's exactly when each region that wraps is met by one that
   * starts before it and reaches its start, or memory, or itself ends past memory.
   */
  lemma {:induction false} AcceptListIff(placed: seq<Placed>, memory: int)
    requires NoFullTurn(placed) && memory >= 0
    ensures IsAcceptList(AcceptList(Spans(placed), memory), placed, memory) <==> Harmless(SpanList(placed), memory)
  {
    var spans := Spans(placed);
    ListingSettled(placed, memory);
    AcceptListIsFree(spans, memory);
    if Settled(spans, 0, memory) {
      SettledDrops(spans, 0, memory);
      KeptSorted(spans);
      KeptNonEmpty(placed);
      AcceptListIsFree(Kept(spans), memory);
    } else {
      UnsettledRepeats(spans, 0, memory);
    }
  }

  /** And the E820 map exactly when each that starts below memory is met at its start. */
  lemma {:induction false} E820ListIff(placed: seq<Placed>, memory: int)
    requires NoFullTurn(placed) && memory >= 0
    ensures IsE820(E820List(Spans(placed), memory), placed, memory) <==> MapHarmless(SpanList(placed), memory)
  {
    var spans := Spans(placed);
    ListingSettled(placed, memory);
    if MapSettled(spans, 0, memory) {
      MapSettledDrops([], spans, 0, memory);
      KeptSorted(spans);
      KeptNonEmpty(placed);
      E820ListIs(Kept(spans), memory);
      forall a
        ensures E820Meaning(Kept(spans), memory, a) == E820Meaning(spans, memory, a)
      {
        KeptMeaning(spans, a);
      }
    } else {
      MapUnsettledTangles([], spans, 0, memory);
      TangledIsNotCanonical(E820List(spans, memory));
    }
  }
}
