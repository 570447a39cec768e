/** The RequiredMemory directives: what the E820 map covers, in spans of at most 32 bits. */
module RequiredMemory {
  import opened Layout
  import opened Placement
  import opened Partition
  import opened Coverage

  const REQUIRED_MEMORY_MAX := 0xffff_f000

  /** The size is a 32-bit field, so its type says that the cast to it loses nothing. */
  datatype Directive = Directive(gpa: U64, bytes: U32) {
    function End(): int { gpa + bytes }
  }

  predicate Demanded(ds: seq<Directive>, a: int) {
    exists i :: 0 <= i < |ds| && ds[i].gpa <= a < ds[i].End()
  }

  ghost predicate AscendingDirectives(ds: seq<Directive>) {
    forall i, j :: 0 <= i < j < |ds| ==> ds[i].End() <= ds[j].gpa
  }

  lemma {:induction false} DemandedJoin(xs: seq<Directive>, ys: seq<Directive>, a: int)
    ensures Demanded(xs + ys, a) <==> Demanded(xs, a) || Demanded(ys, a)
  {
    var all := xs + ys;
    if i :| 0 <= i < |xs| && xs[i].gpa <= a < xs[i].End() {
      assert all[i] == xs[i];
    }
    if i :| 0 <= i < |ys| && ys[i].gpa <= a < ys[i].End() {
      assert all[|xs| + i] == ys[i];
    }
    if i :| 0 <= i < |all| && all[i].gpa <= a < all[i].End() {
      assert all[i] == if i < |xs| then xs[i] else ys[i - |xs|];
    }
  }

  // ---------- coalescing ----------

  /** The maximal runs of listed addresses. */
  ghost predicate IsRuns(spans: seq<Range>, e820: seq<Entry>) {
    && (forall i :: 0 <= i < |spans| ==> 0 <= spans[i].lo < spans[i].hi)
    && Spaced(spans)
    && (spans == [] <==> e820 == []) && (spans != [] ==> spans[|spans| - 1].hi == EndOf(e820))
    && forall a :: InRanges(spans, a) <==> Lookup(e820, a) != ABSENT
  }

  lemma {:induction false} GrowLast(spans: seq<Range>, hi: int, a: int)
    requires spans != [] && spans[|spans| - 1].lo <= spans[|spans| - 1].hi <= hi
    ensures var n := |spans| - 1;
            InRanges(spans[n := Range(spans[n].lo, hi)], a) <==> InRanges(spans, a) || spans[n].hi <= a < hi
  {
    var n := |spans| - 1;
    InRangesSnoc(spans[..n], spans[n], a);
    InRangesSnoc(spans[..n], Range(spans[n].lo, hi), a);
    assert spans == spans[..n] + [spans[n]];
    assert spans[n := Range(spans[n].lo, hi)] == spans[..n] + [Range(spans[n].lo, hi)];
  }

  /** What the loop keeps whatever it is given: spans with bytes in them. */
  ghost predicate Shaped(spans: seq<Range>, memory: int) {
    forall i :: 0 <= i < |spans| ==> 0 <= spans[i].lo < spans[i].hi <= memory
  }

  method AddEntry(spans: seq<Range>, ghost before: seq<Entry>, e: Entry, ghost memory: int) returns (r: seq<Range>)
    requires Shaped(spans, memory) && 0 <= e.base && 0 < e.size && e.base + e.size <= memory
    ensures Shaped(r, memory)
    ensures IsRuns(spans, before) && Canonical(before + [e]) && EndOf(before) <= e.base ==> IsRuns(r, before + [e])
  {
    var n := |spans| - 1;
    if spans != [] && spans[n].hi == e.base {
      r := spans[n := Range(spans[n].lo, e.base + e.size)];
      forall a
        ensures InRanges(r, a) <==> InRanges(spans, a) || e.base <= a < e.base + e.size
      {
        GrowLast(spans, e.base + e.size, a);
      }
    } else {
      r := spans + [Range(e.base, e.base + e.size)];
      forall a
        ensures InRanges(r, a) <==> InRanges(spans, a) || e.base <= a < e.base + e.size
      {
        InRangesSnoc(spans, Range(e.base, e.base + e.size), a);
      }
    }
    if IsRuns(spans, before) && Canonical(before + [e]) && EndOf(before) <= e.base {
      RunsGrow(spans, before, e, r);
    }
  }

  lemma {:induction false} RunsGrow(spans: seq<Range>, before: seq<Entry>, e: Entry, r: seq<Range>)
    requires IsRuns(spans, before) && Canonical(before + [e]) && EndOf(before) <= e.base
    requires forall a :: InRanges(r, a) <==> InRanges(spans, a) || e.base <= a < e.base + e.size
    requires var n := |spans| - 1;
             r == if spans != [] && spans[n].hi == e.base then spans[n := Range(spans[n].lo, e.base + e.size)]
                  else spans + [Range(e.base, e.base + e.size)]
    ensures IsRuns(r, before + [e])
  {
    var after := before + [e];
    assert after[|after| - 1] == e && after[..|after| - 1] == before;
  }

  method Coalesce(e820: seq<Entry>, ghost memory: int) returns (spans: seq<Range>)
    requires InBounds(e820, memory)
    ensures Shaped(spans, memory) && (Canonical(e820) ==> IsRuns(spans, e820))
  {
    spans := [];
    for i := 0 to |e820|
      invariant Shaped(spans, memory) && (Canonical(e820) ==> IsRuns(spans, e820[..i]))
    {
      assert e820[..i + 1] == e820[..i] + [e820[i]] && e820[i] in e820;
      if i > 0 && Canonical(e820) {
        assert Before(e820[i - 1], e820[i]);
      }
      spans := AddEntry(spans, e820[..i], e820[i], memory);
    }
    assert e820[..|e820|] == e820;
  }

  // ---------- splitting ----------

  /** Full chunks of [lo, hi) up to `at`, the last of them shorter only at `hi`. */
  ghost predicate Chunked(ds: seq<Directive>, lo: int, at: int, hi: int) {
    && (forall i :: 0 <= i < |ds| ==> lo <= ds[i].gpa && 0 < ds[i].bytes <= 0xffff_f000 && ds[i].End() <= at)
    && (forall i :: 0 <= i < |ds| ==> ds[i].bytes == 0xffff_f000 || ds[i].End() == hi)
    && AscendingDirectives(ds)
    && (forall a :: Demanded(ds, a) <==> lo <= a < at)
  }

  lemma {:induction false} NextChunk(ds: seq<Directive>, lo: int, at: U64, hi: int, bytes: U32)
    requires Chunked(ds, lo, at, hi) && lo <= at && at + bytes <= hi && 0 < bytes <= 0xffff_f000
    requires bytes == 0xffff_f000 || at + bytes == hi
    ensures Chunked(ds + [Directive(at, bytes)], lo, at + bytes, hi)
  {
    var d := Directive(at, bytes);
    forall a
      ensures Demanded(ds + [d], a) <==> lo <= a < at + bytes
    {
      DemandedJoin(ds, [d], a);
      assert Demanded([d], a) <==> at <= a < at + bytes by {
        assert [d][0] == d;
      }
    }
  }

  method SplitSpan(lo: U64, hi: U64) returns (ds: seq<Directive>)
    requires lo < hi
    ensures Chunked(ds, lo, hi, hi)
  {
    ds := [];
    var at: U64 := lo;
    while at < hi
      invariant lo <= at <= hi
      invariant Chunked(ds, lo, at, hi)
      decreases hi - at
    {
      var bytes := if hi - at < REQUIRED_MEMORY_MAX then hi - at else REQUIRED_MEMORY_MAX;
      NextChunk(ds, lo, at, hi, bytes);
      ds := ds + [Directive(at, bytes)];
      at := at + bytes;
    }
  }

  /** The chunks of the spans passed so far, in order. */
  ghost predicate Required(ds: seq<Directive>, spans: seq<Range>) {
    && AscendingDirectives(ds)
    && (forall a :: Demanded(ds, a) <==> InRanges(spans, a))
    && (forall i :: 0 <= i < |ds| ==> 0 < ds[i].bytes <= 0xffff_f000)
    && (forall i :: 0 <= i < |ds| ==> spans != [] && ds[i].End() <= spans[|spans| - 1].hi)
    && (forall i :: 0 <= i < |ds| && ds[i].bytes < 0xffff_f000 ==> EndsSpan(spans, ds[i].End()))
  }

  ghost predicate EndsSpan(spans: seq<Range>, a: int) {
    exists k :: 0 <= k < |spans| && spans[k].hi == a
  }

  lemma {:induction false} NextSpan(ds: seq<Directive>, spans: seq<Range>, more: seq<Directive>, s: Range)
    requires Required(ds, spans) && Chunked(more, s.lo, s.hi, s.hi) && s.lo <= s.hi
    requires spans != [] ==> spans[|spans| - 1].hi <= s.lo
    ensures Required(ds + more, spans + [s])
  {
    forall a
      ensures Demanded(ds + more, a) <==> InRanges(spans + [s], a)
    {
      DemandedJoin(ds, more, a);
      InRangesSnoc(spans, s, a);
    }
    var all, spans' := ds + more, spans + [s];
    assert spans'[|spans|] == s;
    forall i | 0 <= i < |all| && all[i].bytes < 0xffff_f000
      ensures EndsSpan(spans', all[i].End())
    {
      if i < |ds| {
        var k :| 0 <= k < |spans| && spans[k].hi == all[i].End();
        assert spans'[k] == spans[k];
      }
    }
  }

  method Split(spans: seq<Range>) returns (ds: seq<Directive>)
    requires forall i :: 0 <= i < |spans| ==> 0 <= spans[i].lo < spans[i].hi < U64_MODULUS
    ensures Spaced(spans) ==> Required(ds, spans)
  {
    ds := [];
    for k := 0 to |spans|
      invariant Spaced(spans) ==> Required(ds, spans[..k])
    {
      var more := SplitSpan(spans[k].lo, spans[k].hi);
      assert spans[..k + 1] == spans[..k] + [spans[k]];
      if Spaced(spans) {
        NextSpan(ds, spans[..k], more, spans[k]);
      }
      ds := ds + more;
    }
    assert spans[..|spans|] == spans;
  }

  // ---------- together ----------

  /** Ascending chunks of at most 32 bits that together are what the E820 map lists, cut only where they must be. */
  ghost predicate IsRequired(ds: seq<Directive>, e820: seq<Entry>) {
    && AscendingDirectives(ds)
    && (forall i :: 0 <= i < |ds| ==> 0 < ds[i].bytes <= 0xffff_f000)
    && (forall a :: Demanded(ds, a) <==> Lookup(e820, a) != ABSENT)
    && (forall i :: 0 <= i < |ds| && ds[i].bytes < 0xffff_f000 ==> Lookup(e820, ds[i].End()) == ABSENT)
  }

  lemma {:induction false} RunsEnd(spans: seq<Range>, a: int)
    requires Spaced(spans) && (forall i :: 0 <= i < |spans| ==> spans[i].lo < spans[i].hi) && EndsSpan(spans, a)
    ensures !InRanges(spans, a)
  {
    var k :| 0 <= k < |spans| && spans[k].hi == a;
    forall i | 0 <= i < |spans|
      ensures !(spans[i].lo <= a < spans[i].hi)
    {
      assert i < k ==> spans[i].hi < spans[k].lo;
      assert k < i ==> spans[k].hi < spans[i].lo;
    }
  }

  method Directives(e820: seq<Entry>, memory: U64) returns (ds: seq<Directive>)
    requires InBounds(e820, memory)
    ensures Canonical(e820) ==> IsRequired(ds, e820)
  {
    var spans := Coalesce(e820, memory);
    ds := Split(spans);
    if Canonical(e820) {
      forall i | 0 <= i < |ds| && ds[i].bytes < 0xffff_f000
        ensures Lookup(e820, ds[i].End()) == ABSENT
      {
        RunsEnd(spans, ds[i].End());
      }
    }
  }

  /** The loader is asked for exactly the bytes below `memory` that lie in no aperture. */
  lemma {:induction false} RequiredIsMemoryLessMmio(placed: seq<Placed>, memory: int, e820: seq<Entry>,
                                                    ds: seq<Directive>, a: int)
    requires Lawful(placed, memory) && IsE820(e820, placed, memory) && IsRequired(ds, e820)
    ensures Demanded(ds, a) <==> 0 <= a < memory && !Declared(placed, PageBase(a))
  {
    if 0 <= a < memory {
      AbsentIffMmio(placed, memory, e820, PageBase(a), a);
    }
  }

  /** Coverage begins and ends between pages. */
  ghost predicate PageEdged(ds: seq<Directive>) {
    forall a :: Demanded(ds, a) != Demanded(ds, a - 1) ==> PageAligned(a)
  }

  lemma {:induction false} RequiredPageEdged(placed: seq<Placed>, memory: int, e820: seq<Entry>, ds: seq<Directive>)
    requires Lawful(placed, memory) && IsE820(e820, placed, memory) && IsRequired(ds, e820)
    ensures PageEdged(ds)
  {
    forall a | Demanded(ds, a) != Demanded(ds, a - 1)
      ensures PageAligned(a)
    {
      TypeChangeAligned(placed, memory, e820, a);
    }
  }

  /** A chunk starts where the one before it ends, or where coverage does. */
  lemma {:induction false} NothingBefore(ds: seq<Directive>, i: nat)
    requires AscendingDirectives(ds) && i < |ds| && ds[i].bytes > 0
    requires i > 0 ==> ds[i - 1].End() < ds[i].gpa
    ensures Demanded(ds, ds[i].gpa) && !Demanded(ds, ds[i].gpa - 1)
  {
    var a := ds[i].gpa - 1;
    forall j | 0 <= j < |ds|
      ensures !(ds[j].gpa <= a < ds[j].End())
    {
      if j < i - 1 {
        assert ds[j].End() <= ds[i - 1].gpa <= ds[i - 1].End();
      } else if j > i {
        assert ds[i].End() <= ds[j].gpa;
      }
    }
  }

  lemma {:induction false} ChunkStarts(ds: seq<Directive>, i: nat)
    requires PageEdged(ds) && AscendingDirectives(ds) && i < |ds| && ds[i].bytes > 0
    requires i > 0 ==> PageAligned(ds[i - 1].gpa) && PageAligned(ds[i - 1].bytes)
    ensures PageAligned(ds[i].gpa)
  {
    if i == 0 || ds[i - 1].End() < ds[i].gpa {
      NothingBefore(ds, i);
    } else {
      assert ds[i - 1].End() == ds[i].gpa;
    }
  }

  lemma {:induction false} ChunkEnds(ds: seq<Directive>, i: nat)
    requires PageEdged(ds) && i < |ds| && PageAligned(ds[i].gpa) && 0 < ds[i].bytes <= 0xffff_f000
    requires ds[i].bytes < 0xffff_f000 ==> !Demanded(ds, ds[i].End())
    ensures PageAligned(ds[i].bytes)
  {
    if ds[i].bytes < 0xffff_f000 {
      assert Demanded(ds, ds[i].End() - 1);
      AlignedDifference(ds[i].gpa, ds[i].bytes);
    }
  }

  lemma {:induction false} ChunkAligned(ds: seq<Directive>, i: nat)
    requires PageEdged(ds) && AscendingDirectives(ds) && i < |ds|
    requires forall j :: 0 <= j <= i ==> 0 < ds[j].bytes <= 0xffff_f000
    requires forall j :: 0 <= j <= i && ds[j].bytes < 0xffff_f000 ==> !Demanded(ds, ds[j].End())
    ensures PageAligned(ds[i].gpa) && PageAligned(ds[i].bytes)
    decreases i
  {
    if i > 0 {
      ChunkAligned(ds, i - 1);
    }
    ChunkStarts(ds, i);
    ChunkEnds(ds, i);
  }

  /** Every chunk is whole pages. */
  lemma {:induction false} RequiredAligned(placed: seq<Placed>, memory: int, e820: seq<Entry>, ds: seq<Directive>,
                                           i: nat)
    requires Lawful(placed, memory) && IsE820(e820, placed, memory) && IsRequired(ds, e820) && i < |ds|
    ensures PageAligned(ds[i].gpa) && PageAligned(ds[i].bytes)
  {
    RequiredPageEdged(placed, memory, e820, ds);
    ChunkAligned(ds, i);
  }
}
