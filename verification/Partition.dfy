/** Below `memory` every page is imported, accepted or MMIO: one of the three, once. */
module Partition {
  import opened Layout
  import opened Bytes
  import opened Placement
  import opened MapTheorems
  import opened Pages

  /** What the constructors and parameter checks give every map: typed, page-sized apertures. */
  ghost predicate Described(placed: seq<Placed>) {
    forall i :: 0 <= i < |placed| ==>
      && (placed[i].fill.Mmio? <==> placed[i].e820 == ABSENT)
      && (placed[i].fill.Mmio? ==> placed[i].fill.size > 0 && PageAligned(placed[i].fill.size))
  }

  /** A map `validate` passed, whose region ends do not wrap. */
  ghost predicate Lawful(placed: seq<Placed>, memory: int) {
    && PageAligned(memory)
    && NoWrap(placed)
    && Described(placed)
    && AdjacentDisjoint(Spans(placed))
    && AlignedAndInside(placed, memory)
  }

  ghost predicate NoEmptyRegion(placed: seq<Placed>) {
    forall i :: 0 <= i < |placed| && placed[i].fill.Measured? ==> placed[i].fill.data != []
  }

  lemma {:induction false} SpanAligned(placed: seq<Placed>, i: nat)
    requires NoWrap(placed) && Described(placed) && i < |placed| && PageAligned(placed[i].base)
    ensures var s := SpanOf(placed[i]);
            && s.lo == placed[i].base && s.hi == placed[i].base + placed[i].Span()
            && s.lo + PAGE <= s.hi && PageAligned(s.hi)
  {
    assert placed[i].base + placed[i].Span() < U64_MODULUS;
  }

  lemma {:induction false} DescribedNonEmpty(placed: seq<Placed>)
    requires NoWrap(placed) && Described(placed)
    ensures NonEmptySpans(Spans(placed))
  {
    var spans, list := Spans(placed), SpanList(placed);
    SpansMembers(placed);
    forall k | 0 <= k < |spans|
      ensures 0 <= spans[k].lo < spans[k].hi
    {
      assert spans[k] in list;
      var i :| 0 <= i < |list| && list[i] == spans[k];
      assert placed[i].base + placed[i].Span() < U64_MODULUS;
    }
  }

  lemma {:induction false} LawfulApart(placed: seq<Placed>, memory: int)
    requires Lawful(placed, memory)
    ensures NonEmptySpans(Spans(placed)) && PairwiseApart(SpanList(placed))
  {
    DescribedNonEmpty(placed);
    AdjacentCheckIsPairwise(placed);
  }

  // ---------- what the loader imports ----------

  function ChunkEnd(i: nat, len: nat): nat {
    if i * PAGE + PAGE < len then i * PAGE + PAGE else len
  }

  lemma {:induction false} ChunkShifts(i: nat, len: nat)
    requires i > 0 && len > PAGE && i * PAGE < len
    ensures ChunkEnd(i - 1, len - PAGE) == ChunkEnd(i, len) - PAGE
    ensures (i - 1) * PAGE == i * PAGE - PAGE && i * PAGE < ChunkEnd(i, len) <= i * PAGE + PAGE
  {
  }

  lemma {:induction false} PageCount(i: nat, len: nat)
    requires i < PageUp(len) / PAGE
    ensures i * PAGE < len
  {
  }

  lemma {:induction false} FirstPage(base: int, data: Bytes)
    requires data != []
    ensures 0 < ChunkEnd(0, |data|) <= PAGE && ChunkEnd(0, |data|) <= |data| && |PagesOfData(base, data)| > 0
    ensures PagesOfData(base, data)[0] == LaunchPage(base, Padded(data[0..ChunkEnd(0, |data|)]), Normal)
  {
    if |data| <= PAGE {
      assert data[0..|data|] == data;
    } else {
      assert Padded(data[0..PAGE]) == data[..PAGE];
    }
  }

  /** A page past the first is a page of what is left. */
  lemma {:induction false} PageShifts(base: int, data: Bytes, i: nat, lo: nat, hi: nat)
    requires 0 < i < |PagesOfData(base, data)| && lo == i * PAGE && hi == ChunkEnd(i, |data|)
    ensures |data| > PAGE && i - 1 < |PagesOfData(base + PAGE, data[PAGE..])|
    ensures PagesOfData(base, data)[i] == PagesOfData(base + PAGE, data[PAGE..])[i - 1]
    ensures (i - 1) * PAGE == lo - PAGE && ChunkEnd(i - 1, |data| - PAGE) == hi - PAGE
    ensures lo < hi <= lo + PAGE && hi <= |data| && data[PAGE..][lo - PAGE..hi - PAGE] == data[lo..hi]
  {
    PageCount(i, |data|);
    ChunkShifts(i, |data|);
    SliceShift(data, PAGE, lo, hi);
  }

  /** A page that holds one chunk of some contents, padded. */
  predicate Carries(page: LaunchPage, at: int, chunk: Bytes) {
    |chunk| <= PAGE && page.gpa == at && page.data == Padded(chunk) && page.kind == Normal
  }

  lemma {:induction false} PageBetween(base: int, data: Bytes, i: nat, lo: nat, hi: nat)
    requires i < |PagesOfData(base, data)| && lo == i * PAGE && hi == ChunkEnd(i, |data|)
    ensures lo < hi <= lo + PAGE && hi <= |data|
    ensures Carries(PagesOfData(base, data)[i], base + lo, data[lo..hi])
    decreases i
  {
    if i == 0 {
      FirstPage(base, data);
    } else {
      PageShifts(base, data, i, lo, hi);
      PageBetween(base + PAGE, data[PAGE..], i - 1, lo - PAGE, hi - PAGE);
    }
  }

  lemma {:induction false} PageOfDataAt(base: int, data: Bytes, i: nat)
    requires i < |PagesOfData(base, data)|
    ensures var lo, hi := i * PAGE, ChunkEnd(i, |data|);
            && lo < hi <= lo + PAGE && hi <= |data|
            && PagesOfData(base, data)[i] == LaunchPage(base + lo, Padded(data[lo..hi]), Normal)
  {
    PageBetween(base, data, i, i * PAGE, ChunkEnd(i, |data|));
  }

  /** Every page imported is some region's... */
  lemma {:induction false} LaunchSource(placed: seq<Placed>, page: LaunchPage) returns (i: nat)
    requires page in LaunchList(placed)
    ensures i < |placed| && page in PagesOf(placed[i])
  {
    var n := |placed| - 1;
    if page in PagesOf(placed[n]) {
      i := n;
    } else {
      i := LaunchSource(placed[..n], page);
    }
  }

  lemma {:induction false} InConcat<T>(a: seq<T>, b: seq<T>, x: T)
    ensures x in a + b <==> x in a || x in b
  {
  }

  /** ...and every region's pages are imported. */
  lemma {:induction false} LaunchIncludes(placed: seq<Placed>, i: nat, page: LaunchPage)
    requires i < |placed| && page in PagesOf(placed[i])
    ensures page in LaunchList(placed)
  {
    LaunchSnoc(placed, i);
    InConcat(LaunchList(placed[..i]), PagesOf(placed[i]), page);
    LaunchGrows(placed, i + 1, page);
  }

  lemma {:induction false} LaunchGrows(placed: seq<Placed>, i: nat, page: LaunchPage)
    requires i <= |placed| && page in LaunchList(placed[..i])
    ensures page in LaunchList(placed)
    decreases |placed| - i
  {
    if i < |placed| {
      LaunchSnoc(placed, i);
      InConcat(LaunchList(placed[..i]), PagesOf(placed[i]), page);
      LaunchGrows(placed, i + 1, page);
    } else {
      assert placed[..i] == placed;
    }
  }

  /** The pages of one region: each whole, aligned and inside its span. */
  lemma {:induction false} PagesInside(p: Placed, page: LaunchPage)
    requires PageAligned(p.base) && page in PagesOf(p)
    ensures PageAligned(page.gpa) && p.base <= page.gpa && page.gpa + PAGE <= p.base + p.Span()
    ensures |page.data| == PAGE && !p.fill.Mmio?
  {
    if p.fill.Measured? {
      var pages := PagesOfData(p.base, p.fill.data);
      var i :| 0 <= i < |pages| && pages[i] == page;
      PageOfDataAt(p.base, p.fill.data, i);
    }
  }

  /** ...and together they are every page of it, unless the region is MMIO or empty. */
  lemma {:induction false} PagesExhaust(p: Placed, g: int) returns (page: LaunchPage)
    requires PageAligned(p.base) && PageAligned(g)
    requires p.base <= g < p.base + p.Span()
    requires !p.fill.Mmio? && (p.fill.Measured? ==> p.fill.data != [])
    ensures page in PagesOf(p) && page.gpa == g
  {
    if p.fill.Measured? {
      var pages, i := PagesOfData(p.base, p.fill.data), (g - p.base) / PAGE;
      assert i < |pages|;
      PageOfDataAt(p.base, p.fill.data, i);
      page := pages[i];
    } else {
      page := PagesOf(p)[0];
    }
  }

  ghost predicate Imported(list: seq<LaunchPage>, g: int) {
    exists i :: 0 <= i < |list| && list[i].gpa == g
  }

  /** A region the loader imports pages of, covering `g`. */
  ghost predicate Sources(p: Placed, g: int) {
    Covers(SpanOf(p), g) && !p.fill.Mmio? && (p.fill.Measured? ==> p.fill.data != [])
  }

  lemma {:induction false} ImportedIff(placed: seq<Placed>, memory: int, g: int)
    requires Lawful(placed, memory) && PageAligned(g)
    ensures Imported(LaunchList(placed), g) <==>
            exists i :: 0 <= i < |placed| && Sources(placed[i], g)
  {
    var list := LaunchList(placed);
    if Imported(list, g) {
      var k :| 0 <= k < |list| && list[k].gpa == g;
      var i := LaunchSource(placed, list[k]);
      SpanAligned(placed, i);
      PagesInside(placed[i], list[k]);
    }
    if i :| 0 <= i < |placed| && Sources(placed[i], g) {
      SpanAligned(placed, i);
      var page := PagesExhaust(placed[i], g);
      LaunchIncludes(placed, i, page);
      var k :| 0 <= k < |list| && list[k] == page;
    }
  }

  /** Ascending by whole pages, the order a loader and both digests need. */
  ghost predicate Ascending(list: seq<LaunchPage>) {
    forall i, j :: 0 <= i < j < |list| ==> list[i].gpa + PAGE <= list[j].gpa
  }

  lemma {:induction false} PagesOfAscending(p: Placed)
    requires PageAligned(p.base)
    ensures Ascending(PagesOf(p))
  {
    if p.fill.Measured? {
      var pages := PagesOfData(p.base, p.fill.data);
      forall i, j | 0 <= i < j < |pages|
        ensures pages[i].gpa + PAGE <= pages[j].gpa
      {
        PageOfDataAt(p.base, p.fill.data, i);
        PageOfDataAt(p.base, p.fill.data, j);
      }
    }
  }

  /** The regions with pages lie apart, each ending where its sum says; apertures may lie anywhere. */
  ghost predicate OwnApart(placed: seq<Placed>) {
    && (forall i :: 0 <= i < |placed| && !placed[i].fill.Mmio? ==> PageAligned(placed[i].base))
    && forall i, j :: 0 <= i < j < |placed| && !placed[i].fill.Mmio? && !placed[j].fill.Mmio? ==>
         placed[i].base + placed[i].Span() <= placed[j].base || placed[j].base + placed[j].Span() <= placed[i].base
  }

  /** Sorting such a map by base and expanding it gives strictly ascending pages. */
  lemma {:induction false} LaunchAscending(placed: seq<Placed>)
    requires OwnApart(placed) && SortedByBase(placed)
    ensures Ascending(LaunchList(placed))
  {
    if placed != [] {
      var n := |placed| - 1;
      var init, last := placed[..n], placed[n];
      LaunchAscending(init);
      if !last.fill.Mmio? {
        PagesOfAscending(last);
        forall x, y | x in LaunchList(init) && y in PagesOf(last)
          ensures x.gpa + PAGE <= y.gpa
        {
          PageBeforeLast(placed, x, y);
        }
      }
    }
  }

  lemma {:induction false} PageBeforeLast(placed: seq<Placed>, x: LaunchPage, y: LaunchPage)
    requires OwnApart(placed) && SortedByBase(placed) && placed != []
    requires x in LaunchList(placed[..|placed| - 1]) && y in PagesOf(placed[|placed| - 1])
    ensures x.gpa + PAGE <= y.gpa
  {
    var n := |placed| - 1;
    var i := LaunchSource(placed[..n], x);
    assert placed[i] == placed[..n][i] && !placed[i].fill.Mmio? && !placed[n].fill.Mmio?;
    PagesInside(placed[i], x);
    PagesInside(placed[n], y);
  }

  /** Regions that took turns in validation, and did not wrap themselves, lie apart. */
  lemma {:induction false} InTurnIsOwnApart(placed: seq<Placed>)
    requires PairwiseInTurn(SpanList(placed))
    requires forall i :: 0 <= i < |placed| && !placed[i].fill.Mmio? ==>
               PageAligned(placed[i].base) && placed[i].base + placed[i].Span() < U64_MODULUS
    ensures OwnApart(placed)
  {
    forall i, j | 0 <= i < j < |placed| && !placed[i].fill.Mmio? && !placed[j].fill.Mmio?
      ensures placed[i].base + placed[i].Span() <= placed[j].base || placed[j].base + placed[j].Span() <= placed[i].base
    {
      assert InTurn(SpanList(placed)[i], SpanList(placed)[j]);
    }
  }

  lemma {:induction false} LawfulOwnApart(placed: seq<Placed>, memory: int)
    requires Lawful(placed, memory)
    ensures OwnApart(placed)
  {
    AdjacentCheckIsPairwise(placed);
    InTurnIsOwnApart(placed);
  }

  // ---------- the partition ----------

  ghost predicate AcceptedWhole(accept: seq<Range>, g: int) {
    forall a :: g <= a < g + PAGE ==> InRanges(accept, a)
  }

  ghost predicate AcceptedNowhere(accept: seq<Range>, g: int) {
    forall a :: g <= a < g + PAGE ==> !InRanges(accept, a)
  }

  ghost predicate Declared(placed: seq<Placed>, g: int) {
    exists i :: 0 <= i < |placed| && placed[i].fill.Mmio? && Covers(SpanOf(placed[i]), g)
  }

  /** Page `g` is in exactly one of the three lists. */
  ghost predicate OnePlace(placed: seq<Placed>, accept: seq<Range>, g: int) {
    || (Imported(LaunchList(placed), g) && AcceptedNowhere(accept, g) && !Declared(placed, g))
    || (!Imported(LaunchList(placed), g) && AcceptedWhole(accept, g) && !Declared(placed, g))
    || (!Imported(LaunchList(placed), g) && AcceptedNowhere(accept, g) && Declared(placed, g))
  }

  lemma {:induction false} CoversByPage(placed: seq<Placed>, memory: int, i: nat, g: int, a: int)
    requires Lawful(placed, memory) && PageAligned(g) && g <= a < g + PAGE
    requires i < |placed|
    ensures Covers(SpanOf(placed[i]), a) <==> Covers(SpanOf(placed[i]), g)
  {
    assert AlignedAndInside(placed, memory);
    SpanAligned(placed, i);
    var s := SpanOf(placed[i]);
    SamePage(s.lo, g, a);
    SamePage(s.hi, g, a);
  }

  lemma {:induction false} SamePage(edge: int, g: int, a: int)
    requires PageAligned(edge) && PageAligned(g) && g <= a < g + PAGE
    ensures edge <= a <==> edge <= g
  {
  }

  lemma {:induction false} ClaimedByPage(placed: seq<Placed>, memory: int, g: int, a: int)
    requires Lawful(placed, memory) && PageAligned(g) && g <= a < g + PAGE
    ensures Claimed(Spans(placed), a) <==> Claimed(Spans(placed), g)
  {
    ClaimedIsListed(placed, a);
    ClaimedIsListed(placed, g);
    if Claimed(Spans(placed), a) {
      var i :| 0 <= i < |placed| && Covers(SpanOf(placed[i]), a);
      CoversByPage(placed, memory, i, g, a);
    } else if Claimed(Spans(placed), g) {
      var i :| 0 <= i < |placed| && Covers(SpanOf(placed[i]), g);
      CoversByPage(placed, memory, i, g, a);
    }
  }

  lemma {:induction false} AcceptByPage(placed: seq<Placed>, memory: int, accept: seq<Range>, g: int)
    requires Lawful(placed, memory) && IsAcceptList(accept, placed, memory)
    requires PageAligned(g) && 0 <= g < memory
    ensures Claimed(Spans(placed), g) ==> AcceptedNowhere(accept, g)
    ensures !Claimed(Spans(placed), g) ==> AcceptedWhole(accept, g)
  {
    forall a | g <= a < g + PAGE
      ensures InRanges(accept, a) <==> !Claimed(Spans(placed), g)
    {
      ClaimedByPage(placed, memory, g, a);
    }
  }

  lemma {:induction false} ApartAt(list: seq<Span>, i: nat, j: nat)
    requires PairwiseApart(list) && i < |list| && j < |list| && i != j
    ensures Apart(list[i], list[j])
  {
    assert i < j || Apart(list[j], list[i]);
  }

  lemma {:induction false} ApartOwners(placed: seq<Placed>, i: nat, j: nat, g: int)
    requires PairwiseApart(SpanList(placed)) && i < |placed| && j < |placed|
    requires Covers(SpanOf(placed[i]), g) && Covers(SpanOf(placed[j]), g)
    ensures i == j
  {
    if i != j {
      ApartAt(SpanList(placed), i, j);
    }
  }

  /** The partition of one page, with the one way it fails. */
  lemma {:induction false} PagePlace(placed: seq<Placed>, memory: int, accept: seq<Range>, g: int)
    requires Lawful(placed, memory) && IsAcceptList(accept, placed, memory)
    requires PageAligned(g) && 0 <= g < memory
    ensures OnePlace(placed, accept, g) <==>
            forall i :: 0 <= i < |placed| && Covers(SpanOf(placed[i]), g) && placed[i].fill.Measured? ==>
              placed[i].fill.data != []
  {
    LawfulApart(placed, memory);
    ImportedIff(placed, memory, g);
    AcceptByPage(placed, memory, accept, g);
    ClaimedIsListed(placed, g);
    assert g <= g < g + PAGE;
    if i :| 0 <= i < |placed| && Covers(SpanOf(placed[i]), g) {
      forall j | 0 <= j < |placed| && Covers(SpanOf(placed[j]), g)
        ensures j == i
      {
        ApartOwners(placed, i, j, g);
      }
    }
  }

  ghost predicate NoEmptyBelow(placed: seq<Placed>, memory: int) {
    forall i :: 0 <= i < |placed| && placed[i].base < memory && placed[i].fill.Measured? ==> placed[i].fill.data != []
  }

  /** Every page below `memory` has exactly one place if and only if no measured region there is empty. */
  lemma {:induction false} PartitionIffNoEmptyRegion(placed: seq<Placed>, memory: int, accept: seq<Range>)
    requires Lawful(placed, memory) && IsAcceptList(accept, placed, memory)
    ensures (forall g :: PageAligned(g) && 0 <= g < memory ==> OnePlace(placed, accept, g)) <==>
            NoEmptyBelow(placed, memory)
  {
    forall g | PageAligned(g) && 0 <= g < memory
      ensures OnePlace(placed, accept, g) <==>
              forall i :: 0 <= i < |placed| && Covers(SpanOf(placed[i]), g) && placed[i].fill.Measured? ==>
                placed[i].fill.data != []
    {
      PagePlace(placed, memory, accept, g);
    }
    forall i | 0 <= i < |placed| && placed[i].base < memory
      ensures PageAligned(placed[i].base) && Covers(SpanOf(placed[i]), placed[i].base)
    {
      SpanAligned(placed, i);
    }
  }

  lemma {:induction false} UnclaimedIsRam(spans: seq<Span>, a: int)
    requires !Claimed(spans, a)
    ensures FirstKind(spans, a) == RAM
  {
    FirstKindAt(spans, |spans|, a);
  }

  /** A claimed page has the type of the one region owning it. */
  lemma {:induction false} OwnerDecides(placed: seq<Placed>, memory: int, i: nat, g: int, a: int)
    requires Lawful(placed, memory) && PageAligned(g) && g <= a < g + PAGE
    requires i < |placed| && Covers(SpanOf(placed[i]), g)
    ensures FirstKind(Spans(placed), a) == placed[i].e820
    ensures Declared(placed, g) <==> placed[i].fill.Mmio?
  {
    LawfulApart(placed, memory);
    CoversByPage(placed, memory, i, g, a);
    KindOfListed(placed, i, a);
    if Declared(placed, g) {
      var j :| 0 <= j < |placed| && placed[j].fill.Mmio? && Covers(SpanOf(placed[j]), g);
      ApartOwners(placed, i, j, g);
    }
  }

  lemma {:induction false} WholePageBelow(memory: int, g: int)
    requires PageAligned(memory) && PageAligned(g) && g < memory
    ensures g + PAGE <= memory
  {
  }

  /** The E820 map leaves out a page exactly when it is MMIO, and types each page uniformly. */
  lemma {:induction false} AbsentIffMmio(placed: seq<Placed>, memory: int, e820: seq<Entry>, g: int, a: int)
    requires Lawful(placed, memory) && IsE820(e820, placed, memory)
    requires PageAligned(g) && 0 <= g < memory && g <= a < g + PAGE
    ensures Lookup(e820, a) == Lookup(e820, g)
    ensures Lookup(e820, a) == ABSENT <==> Declared(placed, g)
  {
    var spans := Spans(placed);
    WholePageBelow(memory, g);
    assert Lookup(e820, a) == FirstKind(spans, a) && Lookup(e820, g) == FirstKind(spans, g);
    KindByPage(placed, memory, g, a);
    KindByPage(placed, memory, g, g);
  }

  lemma {:induction false} KindByPage(placed: seq<Placed>, memory: int, g: int, a: int)
    requires Lawful(placed, memory) && PageAligned(g) && g <= a < g + PAGE
    ensures FirstKind(Spans(placed), a) == FirstKind(Spans(placed), g)
    ensures FirstKind(Spans(placed), a) == ABSENT <==> Declared(placed, g)
  {
    ClaimedIsListed(placed, g);
    ClaimedByPage(placed, memory, g, a);
    if i :| 0 <= i < |placed| && Covers(SpanOf(placed[i]), g) {
      OwnerDecides(placed, memory, i, g, a);
      OwnerDecides(placed, memory, i, g, g);
    } else {
      UnclaimedIsRam(Spans(placed), a);
      UnclaimedIsRam(Spans(placed), g);
    }
  }

  /** So every page Linux is told is RAM was imported or will be accepted. */
  lemma {:induction false} RamIsBacked(placed: seq<Placed>, memory: int, accept: seq<Range>, e820: seq<Entry>, g: int)
    requires Lawful(placed, memory) && NoEmptyRegion(placed)
    requires IsAcceptList(accept, placed, memory) && IsE820(e820, placed, memory)
    requires PageAligned(g) && 0 <= g < memory && Lookup(e820, g) != ABSENT
    ensures Imported(LaunchList(placed), g) || AcceptedWhole(accept, g)
  {
    PagePlace(placed, memory, accept, g);
    AbsentIffMmio(placed, memory, e820, g, g);
  }
}
