/** A map without the regions whose ends wrap: the same claims, the same pages, and nothing left to wrap. */
module Trimming {
  import opened Layout
  import opened Collections
  import opened Placement
  import opened MapTheorems
  import opened Pages
  import opened Partition
  import opened Wrapping

  predicate Wraps(p: Placed) { p.base + p.Span() >= U64_MODULUS }

  function Trim(placed: seq<Placed>): (r: seq<Placed>)
    ensures forall p :: p in r <==> p in placed && !Wraps(p)
  {
    if placed == [] then []
    else
      var init, last := placed[..|placed| - 1], placed[|placed| - 1];
      if Wraps(last) then Trim(init) else Trim(init) + [last]
  }

  lemma {:induction false} TrimAll(placed: seq<Placed>)
    requires forall p :: p in placed ==> !Wraps(p)
    ensures Trim(placed) == placed
  {
    if placed != [] {
      var init, last := placed[..|placed| - 1], placed[|placed| - 1];
      SplitLast(placed);
      TrimAll(init);
      TrimSnoc(init, last);
    }
  }

  lemma {:induction false} TrimSnoc(init: seq<Placed>, last: Placed)
    ensures Trim(init + [last]) == if Wraps(last) then Trim(init) else Trim(init) + [last]
  {
    assert (init + [last])[..|init|] == init;
  }

  lemma {:induction false} TrimJoin(x: seq<Placed>, y: seq<Placed>)
    ensures Trim(x + y) == Trim(x) + Trim(y)
  {
    if y == [] {
      assert x + y == x;
    } else {
      var init, last := y[..|y| - 1], y[|y| - 1];
      TrimJoin(x, init);
      assert y == init + [last];
      ConcatAssoc(x, init, [last]);
      TrimSnoc(x + init, last);
      TrimSnoc(init, last);
      ConcatAssoc(Trim(x), Trim(init), [last]);
    }
  }

  lemma {:induction false} TrimNoWrap(placed: seq<Placed>)
    ensures NoWrap(Trim(placed))
  {
    forall i | 0 <= i < |Trim(placed)|
      ensures Trim(placed)[i].base + Trim(placed)[i].Span() < U64_MODULUS
    {
      assert Trim(placed)[i] in Trim(placed);
    }
  }

  // ---------- the spans ----------

  lemma {:induction false} ConsSpans(x: Placed, s: seq<Placed>)
    ensures SpanList([x] + s) == [SpanOf(x)] + SpanList(s)
  {
  }

  lemma {:induction false} ConsKept(x: Span, s: seq<Span>)
    ensures Kept([x] + s) == if Wrapped(x) then Kept(s) else [x] + Kept(s)
  {
    assert ([x] + s)[1..] == s;
  }

  lemma {:induction false} ConsTrims(x: Placed, s: seq<Placed>)
    ensures Trim([x] + s) == if Wraps(x) then Trim(s) else [x] + Trim(s)
  {
    TrimJoin([x], s);
    TrimSnoc([], x);
    assert [] + [x] == [x] && Trim([]) == [];
  }

  lemma {:induction false} TrimSpanList(placed: seq<Placed>)
    requires NoFullTurn(placed)
    ensures SpanList(Trim(placed)) == Kept(SpanList(placed))
  {
    if placed != [] {
      var x, rest := placed[0], placed[1..];
      TrimSpanList(rest);
      WrapsOrNot(x);
      assert placed == [x] + rest;
      ConsSpans(x, rest);
      ConsSpans(x, Trim(rest));
      ConsKept(SpanOf(x), SpanList(rest));
      ConsTrims(x, rest);
    }
  }

  lemma {:induction false} KeptCount(s: seq<Span>, x: Span)
    ensures multiset(Kept(s))[x] == if Wrapped(x) then 0 else multiset(s)[x]
  {
    if s != [] {
      KeptCount(s[1..], x);
      assert s == [s[0]] + s[1..];
    }
  }

  lemma {:induction false} KeptPermutes(s: seq<Span>, t: seq<Span>)
    requires multiset(s) == multiset(t)
    ensures multiset(Kept(s)) == multiset(Kept(t))
  {
    forall x
      ensures multiset(Kept(s))[x] == multiset(Kept(t))[x]
    {
      KeptCount(s, x);
      KeptCount(t, x);
    }
  }

  lemma {:induction false} TrimSpans(placed: seq<Placed>)
    requires NoFullTurn(placed)
    ensures Spans(Trim(placed)) == Kept(Spans(placed))
  {
    TrimSpanList(placed);
    KeptPermutes(SpanList(placed), Spans(placed));
    KeptSorted(Spans(placed));
    SortedUnique(Spans(Trim(placed)), Kept(Spans(placed)));
  }

  /** What a map means it means without them. */
  lemma {:induction false} TrimMeans(placed: seq<Placed>, memory: int, e820: seq<Entry>, ranges: seq<Range>)
    requires NoFullTurn(placed)
    ensures forall a :: Claimed(Spans(Trim(placed)), a) <==> Claimed(Spans(placed), a)
    ensures IsE820(e820, placed, memory) ==> IsE820(e820, Trim(placed), memory)
    ensures IsAcceptList(ranges, placed, memory) ==> IsAcceptList(ranges, Trim(placed), memory)
  {
    TrimSpans(placed);
    forall a
      ensures Claimed(Spans(Trim(placed)), a) <==> Claimed(Spans(placed), a)
      ensures E820Meaning(Spans(Trim(placed)), memory, a) == E820Meaning(Spans(placed), memory, a)
    {
      KeptMeaning(Spans(placed), a);
    }
  }

  lemma {:induction false} KeptInTurn(spans: seq<Span>)
    requires PairwiseInTurn(spans)
    ensures PairwiseInTurn(Kept(spans))
  {
    if spans != [] {
      var rest := spans[1..];
      forall i, j | 0 <= i < j < |rest|
        ensures InTurn(rest[i], rest[j])
      {
        assert InTurn(spans[i + 1], spans[j + 1]);
      }
      KeptInTurn(rest);
      forall y | y in Kept(rest)
        ensures InTurn(spans[0], y)
      {
        assert y in rest;
        var j :| 0 <= j < |rest| && rest[j] == y;
        assert InTurn(spans[0], spans[j + 1]);
      }
      if !Wrapped(spans[0]) {
        InTurnCons(spans[0], Kept(rest));
      }
    }
  }

  lemma {:induction false} TrimDisjoint(placed: seq<Placed>)
    requires NoFullTurn(placed) && AdjacentDisjoint(Spans(placed))
    ensures AdjacentDisjoint(Spans(Trim(placed)))
  {
    TrimSpans(placed);
    NeighboursInTurn(Spans(placed));
    KeptInTurn(Spans(placed));
    KeptSorted(Spans(placed));
    NeighboursInTurn(Kept(Spans(placed)));
  }

  lemma {:induction false} TrimDescribed(placed: seq<Placed>)
    requires Described(placed)
    ensures Described(Trim(placed))
  {
    forall i | 0 <= i < |Trim(placed)|
      ensures exists k :: 0 <= k < |placed| && placed[k] == Trim(placed)[i]
    {
      assert Trim(placed)[i] in placed;
    }
  }

  lemma {:induction false} TrimInside(placed: seq<Placed>, memory: int)
    requires AlignedAndInside(placed, memory)
    ensures AlignedAndInside(Trim(placed), memory)
  {
    forall i | 0 <= i < |Trim(placed)|
      ensures exists k :: 0 <= k < |placed| && placed[k] == Trim(placed)[i]
    {
      assert Trim(placed)[i] in placed;
    }
  }

  /** A map that passed validation is lawful without them. */
  lemma {:induction false} TrimIsLawful(placed: seq<Placed>, memory: int)
    requires NoFullTurn(placed) && Described(placed) && PageAligned(memory)
    requires AdjacentDisjoint(Spans(placed)) && AlignedAndInside(placed, memory)
    ensures Lawful(Trim(placed), memory)
  {
    TrimNoWrap(placed);
    TrimDisjoint(placed);
    TrimDescribed(placed);
    TrimInside(placed, memory);
  }

  // ---------- the order, and the pages ----------

  lemma {:induction false} InsertPast(x: Placed, head: Placed, s: seq<Placed>)
    requires head.base < x.base
    ensures InsertByBase(x, [head] + s) == [head] + InsertByBase(x, s)
  {
    assert ([head] + s)[1..] == s;
  }

  /** Inserting a region and trimming is trimming and inserting it, if it stays. */
  ghost predicate TrimsInto(x: Placed, s: seq<Placed>) {
    Trim(InsertByBase(x, s)) == if Wraps(x) then Trim(s) else InsertByBase(x, Trim(s))
  }

  lemma {:induction false} InsertTrims(x: Placed, s: seq<Placed>)
    requires SortedByBase(s)
    ensures TrimsInto(x, s)
  {
    if s == [] || x.base <= s[0].base {
      InsertTrimsHere(x, s);
    } else {
      InsertTrims(x, s[1..]);
      InsertTrimsPast(x, s[0], s[1..]);
      assert s == [s[0]] + s[1..];
    }
  }

  lemma {:induction false} InsertTrimsHere(x: Placed, s: seq<Placed>)
    requires SortedByBase(s) && (s != [] ==> x.base <= s[0].base)
    ensures TrimsInto(x, s)
  {
    ConsTrims(x, s);
    HeadOfTrim(x, s);
  }

  lemma {:induction false} InsertTrimsPast(x: Placed, head: Placed, rest: seq<Placed>)
    requires head.base < x.base && TrimsInto(x, rest)
    ensures TrimsInto(x, [head] + rest)
  {
    InsertPast(x, head, rest);
    InsertPast(x, head, Trim(rest));
    ConsTrims(head, rest);
    ConsTrims(head, InsertByBase(x, rest));
  }

  lemma {:induction false} HeadOfTrim(x: Placed, s: seq<Placed>)
    requires SortedByBase(s) && (s != [] ==> x.base <= s[0].base)
    ensures InsertByBase(x, Trim(s)) == [x] + Trim(s)
  {
    if Trim(s) != [] {
      assert Trim(s)[0] in s;
      var j :| 0 <= j < |s| && s[j] == Trim(s)[0];
      assert j > 0 ==> s[0].base <= s[j].base;
    }
  }

  lemma {:induction false} SortTrims(s: seq<Placed>)
    ensures Trim(SortByBase(s)) == SortByBase(Trim(s))
  {
    if s != [] {
      var head, rest := s[0], s[1..];
      SortTrims(rest);
      SortByBaseSorted(rest);
      InsertTrims(head, SortByBase(rest));
      assert s == [head] + rest;
      ConsTrims(head, rest);
      SortCons(head, Trim(rest));
    }
  }

  lemma {:induction false} SortCons(x: Placed, s: seq<Placed>)
    ensures SortByBase([x] + s) == InsertByBase(x, SortByBase(s))
  {
    assert ([x] + s)[1..] == s;
  }

  lemma {:induction false} LaunchOne(s: seq<Placed>, p: Placed)
    ensures LaunchList(s + [p]) == LaunchList(s) + PagesOf(p)
  {
    assert (s + [p])[..|s|] == s;
  }

  ghost predicate OnlyAperturesWrap(placed: seq<Placed>) {
    forall p :: p in placed && Wraps(p) ==> p.fill.Mmio?
  }

  lemma {:induction false} TrimLaunchesOne(init: seq<Placed>, last: Placed, whole: seq<Placed>)
    requires whole == init + [last] && LaunchList(Trim(init)) == LaunchList(init) && (Wraps(last) ==> last.fill.Mmio?)
    ensures LaunchList(Trim(whole)) == LaunchList(whole)
  {
    TrimSnoc(init, last);
    LaunchOne(init, last);
    LaunchOne(Trim(init), last);
  }

  /** Where only apertures wrap, none of the pages goes. */
  lemma {:induction false} TrimLaunches(placed: seq<Placed>)
    requires OnlyAperturesWrap(placed)
    ensures LaunchList(Trim(placed)) == LaunchList(placed)
  {
    if placed != [] {
      var init, last := placed[..|placed| - 1], placed[|placed| - 1];
      SplitLast(placed);
      TrimLaunches(init);
      TrimLaunchesOne(init, last, placed);
    }
  }

  /** A map whose claims and apertures are those of its trimmed one. */
  ghost predicate TrimsAlike(placed: seq<Placed>) {
    && (forall a :: Claimed(Spans(Trim(placed)), a) <==> Claimed(Spans(placed), a))
    && (forall g :: Declared(Trim(placed), g) <==> Declared(placed, g))
  }

  lemma {:induction false} MapsTrimAlike(placed: seq<Placed>)
    requires NoFullTurn(placed)
    ensures TrimsAlike(placed)
  {
    TrimMeans(placed, 0, [], []);
    forall g
      ensures Declared(Trim(placed), g) <==> Declared(placed, g)
    {
      TrimDeclares(placed, g);
    }
  }

  /** No page is MMIO by way of an aperture that wraps. */
  lemma {:induction false} TrimDeclares(placed: seq<Placed>, g: int)
    requires NoFullTurn(placed)
    ensures Declared(Trim(placed), g) <==> Declared(placed, g)
  {
    if i :| 0 <= i < |placed| && placed[i].fill.Mmio? && Covers(SpanOf(placed[i]), g) {
      WrapsOrNot(placed[i]);
      assert placed[i] in Trim(placed);
      var k :| 0 <= k < |Trim(placed)| && Trim(placed)[k] == placed[i];
    }
    if i :| 0 <= i < |Trim(placed)| && Trim(placed)[i].fill.Mmio? && Covers(SpanOf(Trim(placed)[i]), g) {
      assert Trim(placed)[i] in placed;
      var k :| 0 <= k < |placed| && placed[k] == Trim(placed)[i];
    }
  }
}
