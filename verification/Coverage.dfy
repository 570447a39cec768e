/** E820 entries as intervals: where they lie, what they cover, and how many bytes that is. */
module Coverage {
  import opened Collections
  import opened Layout
  import opened Placement
  import opened Partition

  function EntryRanges(out: seq<Entry>): (r: seq<Range>)
    ensures |r| == |out|
    ensures forall i :: 0 <= i < |out| ==> r[i] == Range(out[i].base, out[i].base + out[i].size)
  {
    seq(|out|, i requires 0 <= i < |out| => Range(out[i].base, out[i].base + out[i].size))
  }

  /** A canonical list gives a type to exactly the addresses its entries cover. */
  lemma {:induction false} ListedIffCovered(out: seq<Entry>, a: int)
    requires forall i :: 0 <= i < |out| ==> out[i].kind != ABSENT
    ensures Lookup(out, a) != ABSENT <==> InRanges(EntryRanges(out), a)
  {
    if out != [] {
      var init, last := out[..|out| - 1], out[|out| - 1];
      ListedIffCovered(init, a);
      InRangesSnoc(EntryRanges(init), Range(last.base, last.base + last.size), a);
      assert EntryRanges(out) == EntryRanges(init) + [Range(last.base, last.base + last.size)];
    }
  }

  lemma {:induction false} EntriesAscend(out: seq<Entry>, i: nat, j: nat)
    requires Canonical(out) && i < j < |out|
    ensures out[i].base + out[i].size <= out[j].base
    decreases j
  {
    assert Before(out[j - 1], out[j]);
    if i < j - 1 {
      EntriesAscend(out, i, j - 1);
    }
  }

  lemma {:induction false} AlignedDifference(base: int, size: int)
    requires PageAligned(base) && PageAligned(base + size)
    ensures PageAligned(size)
  {
  }

  function PageBase(a: int): (g: int)
    ensures PageAligned(g) && g <= a < g + PAGE
    ensures !PageAligned(a) ==> g <= a - 1
  {
    a / PAGE * PAGE
  }

  lemma {:induction false} SameTypeWithin(placed: seq<Placed>, memory: int, e820: seq<Entry>, g: int, a: int)
    requires Lawful(placed, memory) && IsE820(e820, placed, memory)
    requires PageAligned(g) && 0 <= g < memory && g < a < g + PAGE
    ensures Lookup(e820, a) == Lookup(e820, a - 1)
  {
    AbsentIffMmio(placed, memory, e820, g, a);
    AbsentIffMmio(placed, memory, e820, g, a - 1);
  }

  lemma {:induction false} TypeChangeAligned(placed: seq<Placed>, memory: int, e820: seq<Entry>, a: int)
    requires Lawful(placed, memory) && IsE820(e820, placed, memory)
    requires Lookup(e820, a) != Lookup(e820, a - 1) && 0 <= a <= memory
    ensures PageAligned(a)
  {
    if !PageAligned(a) {
      SameTypeWithin(placed, memory, e820, PageBase(a), a);
    }
  }

  // ---------- counting bytes ----------

  /** The bytes a list of ranges covers. */
  function Covered(rs: seq<Range>): (s: set<int>)
    ensures forall a :: a in s <==> InRanges(rs, a)
  {
    if rs == [] then {}
    else
      var init, last := rs[..|rs| - 1], rs[|rs| - 1];
      assert forall a :: InRanges(rs, a) <==> InRanges(init, a) || last.lo <= a < last.hi by {
        assert rs == init + [last];
        forall a
          ensures InRanges(rs, a) <==> InRanges(init, a) || last.lo <= a < last.hi
        {
          InRangesSnoc(init, last, a);
        }
      }
      Covered(init) + Interval(last.lo, last.hi)
  }

  function Total(rs: seq<Range>): int {
    if rs == [] then 0 else Total(rs[..|rs| - 1]) + (rs[|rs| - 1].hi - rs[|rs| - 1].lo)
  }

  ghost predicate Disjoint(rs: seq<Range>) {
    && (forall i :: 0 <= i < |rs| ==> rs[i].lo <= rs[i].hi)
    && (forall i, j :: 0 <= i < j < |rs| ==> rs[i].hi <= rs[j].lo || rs[j].hi <= rs[i].lo)
  }

  lemma {:induction false} LastApart(rs: seq<Range>, a: int)
    requires Disjoint(rs) && rs != [] && InRanges(rs[..|rs| - 1], a)
    ensures !(rs[|rs| - 1].lo <= a < rs[|rs| - 1].hi)
  {
    var init := rs[..|rs| - 1];
    var i :| 0 <= i < |init| && init[i].lo <= a < init[i].hi;
    assert rs[i] == init[i];
  }

  /** Disjoint ranges cover as many bytes as their lengths add up to. */
  lemma {:induction false} TotalIsCount(rs: seq<Range>)
    requires Disjoint(rs)
    ensures |Covered(rs)| == Total(rs)
  {
    if rs != [] {
      var init, last := rs[..|rs| - 1], rs[|rs| - 1];
      TotalIsCount(init);
      IntervalSize(last.lo, last.hi);
      forall a | a in Covered(init)
        ensures a !in Interval(last.lo, last.hi)
      {
        LastApart(rs, a);
      }
      SizesAdd(Covered(init), Interval(last.lo, last.hi));
    }
  }

  lemma {:induction false} CountsAdd(xs: seq<Range>, ys: seq<Range>, zs: seq<Range>)
    requires forall a :: InRanges(zs, a) <==> InRanges(xs, a) || InRanges(ys, a)
    requires forall a :: !(InRanges(xs, a) && InRanges(ys, a))
    ensures |Covered(zs)| == |Covered(xs)| + |Covered(ys)|
  {
    forall a | a in Covered(xs)
      ensures a !in Covered(ys)
    {
      assert InRanges(xs, a);
    }
    SizesAddUp(Covered(xs), Covered(ys), Covered(zs));
  }

  /** Two disjoint lists that together cover a third add up to it. */
  lemma {:induction false} TotalsAdd(xs: seq<Range>, ys: seq<Range>, zs: seq<Range>)
    requires Disjoint(xs) && Disjoint(ys) && Disjoint(zs)
    requires forall a :: InRanges(zs, a) <==> InRanges(xs, a) || InRanges(ys, a)
    requires forall a :: !(InRanges(xs, a) && InRanges(ys, a))
    ensures Total(zs) == Total(xs) + Total(ys)
  {
    TotalIsCount(xs);
    TotalIsCount(ys);
    TotalIsCount(zs);
    CountsAdd(xs, ys, zs);
  }
}
