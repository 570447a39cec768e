/** What the map's views mean: uniqueness, independence of listing order, disjointness. */
module MapTheorems {
  import opened Placement

  // ---------- a list is its meaning ----------

  lemma {:induction false} LookupAtEnd(x: seq<Entry>)
    requires Canonical(x)
    ensures x != [] ==> Lookup(x, EndOf(x) - 1) == x[|x| - 1].kind != ABSENT
  {
  }

  lemma {:induction false} LookupInit(x: seq<Entry>, a: int)
    requires Canonical(x) && x != []
    ensures var e := x[|x| - 1];
            Lookup(x[..|x| - 1], a) == if a < e.base then Lookup(x, a) else ABSENT
  {
    var init := x[..|x| - 1];
    if a >= x[|x| - 1].base {
      if init != [] {
        assert Before(x[|x| - 2], x[|x| - 1]);
      }
      LookupPastEnd(init, a);
    }
  }

  /** Just below the last entry there is no more of its type. */
  lemma {:induction false} LastIsMaximal(x: seq<Entry>)
    requires Canonical(x) && x != []
    ensures Lookup(x, x[|x| - 1].base - 1) != x[|x| - 1].kind
  {
    var e := x[|x| - 1];
    var init := x[..|x| - 1];
    LookupInit(x, e.base - 1);
    if init != [] {
      var p := init[|init| - 1];
      assert Before(x[|x| - 2], x[|x| - 1]);
      if p.base + p.size < e.base {
        LookupPastEnd(init, e.base - 1);
      }
    }
  }

  /** A canonical list is the only canonical list with its meaning. */
  lemma {:induction false} CanonicalUnique(x: seq<Entry>, y: seq<Entry>)
    requires Canonical(x) && Canonical(y)
    requires forall a :: Lookup(x, a) == Lookup(y, a)
    ensures x == y
  {
    if x == [] {
      LookupAtEnd(y);
    } else if y == [] {
      LookupAtEnd(x);
    } else {
      var e, f := x[|x| - 1], y[|y| - 1];
      SameEnd(x, y);
      SameEnd(y, x);
      LookupAtEnd(x);
      LookupAtEnd(y);
      SameBase(x, y);
      SameBase(y, x);
      var x', y' := x[..|x| - 1], y[..|y| - 1];
      forall a
        ensures Lookup(x', a) == Lookup(y', a)
      {
        LookupInit(x, a);
        LookupInit(y, a);
      }
      CanonicalUnique(x', y');
      assert x == x' + [e] && y == y' + [f];
    }
  }

  lemma {:induction false} SameEnd(x: seq<Entry>, y: seq<Entry>)
    requires Canonical(x) && Canonical(y) && x != [] && y != []
    requires forall a :: Lookup(x, a) == Lookup(y, a)
    ensures EndOf(x) >= EndOf(y)
  {
    LookupAtEnd(y);
    if EndOf(x) < EndOf(y) {
      LookupPastEnd(x, EndOf(y) - 1);
    }
  }

  lemma {:induction false} SameBase(x: seq<Entry>, y: seq<Entry>)
    requires Canonical(x) && Canonical(y) && x != [] && y != []
    requires forall a :: Lookup(x, a) == Lookup(y, a)
    requires EndOf(x) == EndOf(y) && x[|x| - 1].kind == y[|y| - 1].kind
    ensures x[|x| - 1].base >= y[|y| - 1].base
  {
    var e, f := x[|x| - 1], y[|y| - 1];
    LastIsMaximal(y);
    assert e.base < f.base ==> Lookup(x, f.base - 1) == e.kind;
  }

  /** The same, for accept lists. */
  lemma {:induction false} SeparatedUnique(x: seq<Range>, y: seq<Range>, memory: int)
    requires Separated(x, memory) && Separated(y, memory)
    requires forall a :: InRanges(x, a) <==> InRanges(y, a)
    ensures x == y
  {
    var ex, ey := AsEntries(x), AsEntries(y);
    forall a
      ensures Lookup(ex, a) == Lookup(ey, a)
    {
      RangesLookup(x, a);
      RangesLookup(y, a);
    }
    CanonicalUnique(ex, ey);
    forall i | 0 <= i < |x|
      ensures x[i] == y[i]
    {
      assert ex[i] == ey[i];
    }
  }

  function AsEntries(r: seq<Range>): (e: seq<Entry>)
    ensures |e| == |r|
    ensures forall i :: 0 <= i < |r| ==> e[i] == Entry(r[i].lo, r[i].hi - r[i].lo, RAM)
  {
    seq(|r|, i requires 0 <= i < |r| => Entry(r[i].lo, r[i].hi - r[i].lo, RAM))
  }

  lemma {:induction false} RangesLookup(r: seq<Range>, a: int)
    ensures Lookup(AsEntries(r), a) == if InRanges(r, a) then RAM else ABSENT
  {
    if r != [] {
      var init, last := r[..|r| - 1], r[|r| - 1];
      RangesLookup(init, a);
      InRangesSnoc(init, last, a);
      assert r == init + [last];
      assert AsEntries(r)[..|r| - 1] == AsEntries(init);
    }
  }

  // ---------- listing order and contents do not matter ----------

  lemma {:induction false} SameSpans(a: seq<Placed>, b: seq<Placed>)
    requires multiset(SpanList(a)) == multiset(SpanList(b))
    ensures Spans(a) == Spans(b)
  {
    SortSorted(SpanList(a));
    SortSorted(SpanList(b));
    SortedUnique(Spans(a), Spans(b));
  }

  /** Two listings that claim the same spans, in any order, have one E820 map. */
  lemma {:induction false} E820OrderIndependent(a: seq<Placed>, b: seq<Placed>, memory: int, x: seq<Entry>,
                                                y: seq<Entry>)
    requires multiset(SpanList(a)) == multiset(SpanList(b))
    requires IsE820(x, a, memory) && IsE820(y, b, memory)
    ensures x == y
  {
    SameSpans(a, b);
    forall z
      ensures Lookup(x, z) == Lookup(y, z)
    {
      assert Lookup(x, z) == E820Meaning(Spans(a), memory, z);
      assert Lookup(y, z) == E820Meaning(Spans(b), memory, z);
    }
    CanonicalUnique(x, y);
  }

  /** ...and one accept list. */
  lemma {:induction false} AcceptOrderIndependent(a: seq<Placed>, b: seq<Placed>, memory: int, x: seq<Range>,
                                                  y: seq<Range>)
    requires multiset(SpanList(a)) == multiset(SpanList(b))
    requires IsAcceptList(x, a, memory) && IsAcceptList(y, b, memory)
    ensures x == y
  {
    SameSpans(a, b);
    forall z
      ensures InRanges(x, z) <==> InRanges(y, z)
    {
      assert InRanges(x, z) <==> 0 <= z < memory && !Claimed(Spans(a), z);
      assert InRanges(y, z) <==> 0 <= z < memory && !Claimed(Spans(b), z);
    }
    SeparatedUnique(x, y, memory);
  }

  // ---------- validation is pairwise disjointness ----------

  predicate Apart(s: Span, t: Span) { s.hi <= t.lo || t.hi <= s.lo }

  ghost predicate PairwiseApart(spans: seq<Span>) {
    forall i, j :: 0 <= i < j < |spans| ==> Apart(spans[i], spans[j])
  }

  /** Whichever of two spans starts first ends by the start of the other, even if its end has wrapped. */
  predicate InTurn(s: Span, t: Span) {
    if s.lo < t.lo then s.hi <= t.lo
    else if t.lo < s.lo then t.hi <= s.lo
    else s.hi <= t.lo || t.hi <= s.lo
  }

  ghost predicate PairwiseInTurn(spans: seq<Span>) {
    forall i, j :: 0 <= i < j < |spans| ==> InTurn(spans[i], spans[j])
  }

  function Without(s: seq<Span>, i: nat): seq<Span>
    requires i < |s|
  {
    s[..i] + s[i + 1..]
  }

  lemma {:induction false} WithoutMembers(s: seq<Span>, i: nat)
    requires i < |s|
    ensures multiset(s) == multiset(Without(s, i)) + multiset{s[i]}
    ensures multiset(Without(s, i)) == multiset(s) - multiset{s[i]}
  {
    assert s == s[..i] + [s[i]] + s[i + 1..];
  }

  lemma {:induction false} InTurnWithout(s: seq<Span>, i: nat)
    requires PairwiseInTurn(s) && i < |s|
    ensures PairwiseInTurn(Without(s, i))
    ensures forall y :: y in Without(s, i) ==> InTurn(s[i], y)
    ensures multiset(Without(s, i)) == multiset(s) - multiset{s[i]}
  {
    var rest := Without(s, i);
    WithoutMembers(s, i);
    forall k | 0 <= k < |rest|
      ensures InTurn(s[i], rest[k])
    {
      assert rest[k] == if k < i then s[k] else s[k + 1];
    }
  }

  lemma {:induction false} InTurnCons(x: Span, s: seq<Span>)
    requires PairwiseInTurn(s)
    requires forall y :: y in s ==> InTurn(x, y)
    ensures PairwiseInTurn([x] + s)
  {
    var t := [x] + s;
    forall i, j | 0 <= i < j < |t|
      ensures InTurn(t[i], t[j])
    {
      assert t[j] == s[j - 1] && t[j] in s;
      if i > 0 {
        assert t[i] == s[i - 1];
      }
    }
  }

  lemma {:induction false} InTurnPermutes(s: seq<Span>, t: seq<Span>)
    requires multiset(s) == multiset(t)
    requires PairwiseInTurn(s)
    ensures PairwiseInTurn(t)
    decreases |t|
  {
    if t != [] {
      var i, rest := PickHead(s, t);
      InTurnPermutes(rest, t[1..]);
      forall y | y in t[1..]
        ensures InTurn(t[0], y)
      {
        assert y in multiset(rest);
      }
      InTurnCons(t[0], t[1..]);
      assert t == [t[0]] + t[1..];
    }
  }

  lemma {:induction false} PickHead(s: seq<Span>, t: seq<Span>) returns (i: nat, rest: seq<Span>)
    requires multiset(s) == multiset(t) && t != []
    requires PairwiseInTurn(s)
    ensures PairwiseInTurn(rest) && multiset(rest) == multiset(t[1..])
    ensures forall y :: y in rest ==> InTurn(t[0], y)
  {
    assert t[0] in multiset(s);
    i :| 0 <= i < |s| && s[i] == t[0];
    rest := Without(s, i);
    InTurnWithout(s, i);
    assert t == [t[0]] + t[1..];
    assert multiset(t) == multiset{t[0]} + multiset(t[1..]);
  }

  lemma {:induction false} AscendingEnds(spans: seq<Span>, i: nat, j: nat)
    requires SortedSpans(spans) && AdjacentDisjoint(spans) && i < j < |spans|
    ensures spans[i].hi <= spans[j].lo
  {
    assert spans[i].hi <= spans[i + 1].lo;
    if i + 1 < j {
      assert SpanLe(spans[i + 1], spans[j]);
    }
  }

  /** In sorted order, checking neighbours is checking every pair, whatever has wrapped. */
  lemma {:induction false} NeighboursInTurn(spans: seq<Span>)
    requires SortedSpans(spans)
    ensures AdjacentDisjoint(spans) <==> PairwiseInTurn(spans)
  {
    if AdjacentDisjoint(spans) {
      forall i, j | 0 <= i < j < |spans|
        ensures InTurn(spans[i], spans[j])
      {
        AscendingEnds(spans, i, j);
        assert SpanLe(spans[i], spans[j]);
      }
    }
    if PairwiseInTurn(spans) {
      forall i | 0 <= i < |spans| - 1
        ensures spans[i].hi <= spans[i + 1].lo
      {
        assert InTurn(spans[i], spans[i + 1]) && SpanLe(spans[i], spans[i + 1]);
      }
    }
  }

  /** For spans that have not wrapped, taking turns is lying apart. */
  lemma {:induction false} InTurnIsApart(spans: seq<Span>)
    requires NonEmptySpans(spans)
    ensures PairwiseInTurn(spans) <==> PairwiseApart(spans)
  {
    forall i, j | 0 <= i < j < |spans|
      ensures InTurn(spans[i], spans[j]) <==> Apart(spans[i], spans[j])
    {
    }
  }

  lemma {:induction false} NonEmptyPermutes(s: seq<Span>, t: seq<Span>)
    requires multiset(s) == multiset(t) && NonEmptySpans(s)
    ensures NonEmptySpans(t)
  {
    forall k | 0 <= k < |t|
      ensures 0 <= t[k].lo < t[k].hi
    {
      assert t[k] in multiset(s);
    }
  }

  /**
   * Checking neighbours in sorted order decides whether the listed regions lie in turn, for any listing;
   * where no end has wrapped, that is whether any two of them meet.
   */
  lemma {:induction false} AdjacentCheckIsPairwise(placed: seq<Placed>)
    ensures AdjacentDisjoint(Spans(placed)) <==> PairwiseInTurn(SpanList(placed))
    ensures NonEmptySpans(Spans(placed)) ==>
              (AdjacentDisjoint(Spans(placed)) <==> PairwiseApart(SpanList(placed)))
  {
    var spans, list := Spans(placed), SpanList(placed);
    NeighboursInTurn(spans);
    if PairwiseInTurn(spans) {
      InTurnPermutes(spans, list);
    }
    if PairwiseInTurn(list) {
      InTurnPermutes(list, spans);
    }
    if NonEmptySpans(spans) {
      NonEmptyPermutes(spans, list);
      InTurnIsApart(list);
    }
  }

  lemma {:induction false} SpansMembers(placed: seq<Placed>)
    ensures forall s :: s in Spans(placed) <==> s in SpanList(placed)
  {
    var spans, list := Spans(placed), SpanList(placed);
    forall s
      ensures s in spans <==> s in list
    {
      assert s in spans <==> s in multiset(spans);
      assert s in list <==> s in multiset(list);
    }
  }

  /** An address is claimed exactly when some listed region covers it. */
  lemma {:induction false} ClaimedIsListed(placed: seq<Placed>, a: int)
    ensures Claimed(Spans(placed), a) <==> exists i :: 0 <= i < |placed| && Covers(SpanOf(placed[i]), a)
  {
    var spans, list := Spans(placed), SpanList(placed);
    SpansMembers(placed);
    if Claimed(spans, a) {
      var k :| 0 <= k < |spans| && Covers(spans[k], a);
      assert spans[k] in list;
      var i :| 0 <= i < |list| && list[i] == spans[k];
      assert Covers(SpanOf(placed[i]), a);
    }
    if i :| 0 <= i < |placed| && Covers(SpanOf(placed[i]), a) {
      assert list[i] in spans;
      var k :| 0 <= k < |spans| && spans[k] == list[i];
      assert Covers(spans[k], a);
    }
  }

  /** In a disjoint map, the kind of an address is that of the one region covering it. */
  lemma {:induction false} KindOfListed(placed: seq<Placed>, i: nat, a: int)
    requires NonEmptySpans(Spans(placed)) && AdjacentDisjoint(Spans(placed))
    requires i < |placed| && Covers(SpanOf(placed[i]), a)
    ensures FirstKind(Spans(placed), a) == placed[i].e820
  {
    var spans, list := Spans(placed), SpanList(placed);
    SpansMembers(placed);
    assert list[i] in spans;
    var k :| 0 <= k < |spans| && spans[k] == list[i];
    forall j | 0 <= j < k
      ensures !Covers(spans[j], a)
    {
      AscendingEnds(spans, j, k);
    }
    FirstKindAt(spans, k, a);
  }
}
