/** Where the bytes below `memory` go: none counted twice, none lost. */
module Conservation {
  import opened Layout
  import opened Bytes
  import opened Collections
  import opened Placement
  import opened MapTheorems
  import opened Pages
  import opened Partition
  import opened Params
  import opened Image
  import opened Coverage

  // ---------- the apertures of a listing ----------

  function OwnAperture(p: Placed): seq<Range> {
    if p.fill.Mmio? then [Range(p.base, p.base + p.fill.size)] else []
  }

  function Apertures(placed: seq<Placed>): seq<Range> {
    if placed == [] then [] else OwnAperture(placed[0]) + Apertures(placed[1..])
  }

  ghost predicate AperturesInside(placed: seq<Placed>, memory: int) {
    forall i :: 0 <= i < |placed| && placed[i].fill.Mmio? ==> placed[i].base + placed[i].fill.size <= memory
  }

  lemma {:induction false} ApertureSource(placed: seq<Placed>, k: nat) returns (i: nat)
    requires k < |Apertures(placed)|
    ensures i < |placed| && placed[i].fill.Mmio?
    ensures Apertures(placed)[k] == Range(placed[i].base, placed[i].base + placed[i].fill.size)
  {
    var own := OwnAperture(placed[0]);
    if k < |own| {
      i := 0;
    } else {
      var j := ApertureSource(placed[1..], k - |own|);
      i := j + 1;
    }
  }

  lemma {:induction false} ApertureListed(placed: seq<Placed>, i: nat) returns (k: nat)
    requires i < |placed| && placed[i].fill.Mmio?
    ensures k < |Apertures(placed)|
    ensures Apertures(placed)[k] == Range(placed[i].base, placed[i].base + placed[i].fill.size)
  {
    if i == 0 {
      k := 0;
    } else {
      var j := ApertureListed(placed[1..], i - 1);
      k := |OwnAperture(placed[0])| + j;
    }
  }

  lemma {:induction false} InAperturesIff(placed: seq<Placed>, memory: int, a: int)
    requires Lawful(placed, memory)
    ensures InRanges(Apertures(placed), a) <==> Declared(placed, PageBase(a))
  {
    var all, g := Apertures(placed), PageBase(a);
    if InRanges(all, a) {
      var k :| 0 <= k < |all| && all[k].lo <= a < all[k].hi;
      var i := ApertureSource(placed, k);
      SpanAligned(placed, i);
      CoversByPage(placed, memory, i, g, a);
    }
    if Declared(placed, g) {
      var i :| 0 <= i < |placed| && placed[i].fill.Mmio? && Covers(SpanOf(placed[i]), g);
      SpanAligned(placed, i);
      CoversByPage(placed, memory, i, g, a);
      var k := ApertureListed(placed, i);
    }
  }

  /** Disjointness needs only what survives dropping a region: no overlap and no wrap. */
  ghost predicate ApertureApart(placed: seq<Placed>) {
    forall i, j :: 0 <= i < j < |placed| && placed[i].fill.Mmio? && placed[j].fill.Mmio? ==>
      placed[i].base + placed[i].fill.size <= placed[j].base || placed[j].base + placed[j].fill.size <= placed[i].base
  }

  lemma {:induction false} LawfulApertures(placed: seq<Placed>, memory: int)
    requires Lawful(placed, memory)
    ensures ApertureApart(placed)
  {
    LawfulApart(placed, memory);
    forall i, j | 0 <= i < j < |placed| && placed[i].fill.Mmio? && placed[j].fill.Mmio?
      ensures placed[i].base + placed[i].fill.size <= placed[j].base ||
              placed[j].base + placed[j].fill.size <= placed[i].base
    {
      SpanAligned(placed, i);
      SpanAligned(placed, j);
      assert Apart(SpanList(placed)[i], SpanList(placed)[j]);
    }
  }

  lemma {:induction false} AperturesDisjoint(placed: seq<Placed>)
    requires ApertureApart(placed)
    ensures Disjoint(Apertures(placed))
  {
    if placed != [] {
      var own, rest := OwnAperture(placed[0]), Apertures(placed[1..]);
      AperturesDisjoint(placed[1..]);
      forall k | 0 <= k < |rest| && own != []
        ensures own[0].hi <= rest[k].lo || rest[k].hi <= own[0].lo
      {
        var i := ApertureSource(placed[1..], k);
        assert placed[1..][i] == placed[i + 1];
      }
    }
  }

  // ---------- memory is E820 and apertures ----------

  lemma {:induction false} EntriesDisjoint(e820: seq<Entry>)
    requires Canonical(e820)
    ensures Disjoint(EntryRanges(e820))
  {
    forall i, j | 0 <= i < j < |e820|
      ensures e820[i].base + e820[i].size <= e820[j].base
    {
      EntriesAscend(e820, i, j);
    }
  }

  lemma {:induction false} ByteIsListedOrMmio(placed: seq<Placed>, memory: int, e820: seq<Entry>, a: int)
    requires Lawful(placed, memory) && IsE820(e820, placed, memory) && AperturesInside(placed, memory)
    ensures InRanges(EntryRanges(e820), a) <==> 0 <= a < memory && !InRanges(Apertures(placed), a)
    ensures InRanges(Apertures(placed), a) ==> 0 <= a < memory
  {
    var all := Apertures(placed);
    ListedIffCovered(e820, a);
    InAperturesIff(placed, memory, a);
    if 0 <= a < memory {
      AbsentIffMmio(placed, memory, e820, PageBase(a), a);
    }
    if InRanges(all, a) {
      var k :| 0 <= k < |all| && all[k].lo <= a < all[k].hi;
      var i := ApertureSource(placed, k);
    }
  }

  /** The E820 map lists every byte of the address map but those of the apertures. */
  lemma {:induction false} E820IsMemoryLessMmio(placed: seq<Placed>, memory: nat, e820: seq<Entry>)
    requires Lawful(placed, memory) && IsE820(e820, placed, memory) && AperturesInside(placed, memory)
    ensures Total(EntryRanges(e820)) == memory - Total(Apertures(placed))
  {
    var whole := [Range(0, memory)];
    LawfulApertures(placed, memory);
    AperturesDisjoint(placed);
    EntriesDisjoint(e820);
    forall a
      ensures InRanges(whole, a) <==> InRanges(EntryRanges(e820), a) || InRanges(Apertures(placed), a)
      ensures !(InRanges(EntryRanges(e820), a) && InRanges(Apertures(placed), a))
    {
      ByteIsListedOrMmio(placed, memory, e820, a);
      assert InRanges(whole, a) <==> 0 <= a < memory by {
        assert whole[0] == Range(0, memory);
      }
    }
    TotalsAdd(EntryRanges(e820), Apertures(placed), whole);
    assert whole[..0] == [] && Total(whole) == Total(whole[..0]) + memory;
  }

  // ---------- E820 is imported and accepted ----------

  /** The imported pages below `memory`. */
  function PagesBelow(list: seq<LaunchPage>, memory: int): seq<Range> {
    if list == [] then []
    else
      var p := list[|list| - 1];
      PagesBelow(list[..|list| - 1], memory) + (if p.gpa < memory then [Range(p.gpa, p.gpa + PAGE)] else [])
  }

  lemma {:induction false} PagesBelowTotal(list: seq<LaunchPage>, memory: int)
    ensures Total(PagesBelow(list, memory)) == PAGE * |PagesBelow(list, memory)|
  {
    if list != [] {
      var init, p := PagesBelow(list[..|list| - 1], memory), list[|list| - 1];
      PagesBelowTotal(list[..|list| - 1], memory);
      if p.gpa < memory {
        assert (init + [Range(p.gpa, p.gpa + PAGE)])[..|init|] == init;
      } else {
        assert PagesBelow(list, memory) == init;
      }
    }
  }

  lemma {:induction false} PageBelowSource(list: seq<LaunchPage>, memory: int, r: Range) returns (k: nat)
    requires r in PagesBelow(list, memory)
    ensures k < |list| && list[k].gpa < memory && r == Range(list[k].gpa, list[k].gpa + PAGE)
  {
    var n := |list| - 1;
    if r in PagesBelow(list[..n], memory) {
      k := PageBelowSource(list[..n], memory, r);
    } else {
      k := n;
    }
  }

  lemma {:induction false} PageBelowListed(list: seq<LaunchPage>, memory: int, k: nat)
    requires k < |list| && list[k].gpa < memory
    ensures Range(list[k].gpa, list[k].gpa + PAGE) in PagesBelow(list, memory)
  {
    var n := |list| - 1;
    if k < n {
      PageBelowListed(list[..n], memory, k);
    }
  }

  lemma {:induction false} PagesBelowDisjoint(list: seq<LaunchPage>, memory: int)
    requires Ascending(list)
    ensures Disjoint(PagesBelow(list, memory))
  {
    if list != [] {
      var n := |list| - 1;
      var init := PagesBelow(list[..n], memory);
      PagesBelowDisjoint(list[..n], memory);
      forall i | 0 <= i < |init|
        ensures init[i].hi <= list[n].gpa
      {
        var k := PageBelowSource(list[..n], memory, init[i]);
        assert list[..n][k] == list[k];
      }
    }
  }

  lemma {:induction false} PagesAligned(placed: seq<Placed>, memory: int, k: nat)
    requires Lawful(placed, memory) && k < |LaunchList(placed)|
    ensures PageAligned(LaunchList(placed)[k].gpa)
  {
    var page := LaunchList(placed)[k];
    var i := LaunchSource(placed, page);
    PagesInside(placed[i], page);
  }

  lemma {:induction false} OnlyPageBase(g: int, a: int)
    requires PageAligned(g) && g <= a < g + PAGE
    ensures PageBase(a) == g
  {
  }

  lemma {:induction false} InPagesIff(placed: seq<Placed>, memory: int, a: int)
    requires Lawful(placed, memory)
    ensures InRanges(PagesBelow(LaunchList(placed), memory), a) <==>
            PageBase(a) < memory && Imported(LaunchList(placed), PageBase(a))
  {
    var list := LaunchList(placed);
    var all, g := PagesBelow(list, memory), PageBase(a);
    if InRanges(all, a) {
      var j :| 0 <= j < |all| && all[j].lo <= a < all[j].hi;
      var k := PageBelowSource(list, memory, all[j]);
      PagesAligned(placed, memory, k);
      OnlyPageBase(list[k].gpa, a);
    }
    if g < memory && Imported(list, g) {
      var k :| 0 <= k < |list| && list[k].gpa == g;
      PageBelowListed(list, memory, k);
      var r := Range(g, g + PAGE);
      var j :| 0 <= j < |all| && all[j] == r;
    }
  }

  lemma {:induction false} PagesWithin(placed: seq<Placed>, memory: int, a: int)
    requires Lawful(placed, memory) && InRanges(PagesBelow(LaunchList(placed), memory), a)
    ensures 0 <= a < memory
  {
    var list, g := LaunchList(placed), PageBase(a);
    InPagesIff(placed, memory, a);
    WholePageBelow(memory, g);
    var k :| 0 <= k < |list| && list[k].gpa == g;
    var i := LaunchSource(placed, list[k]);
    PagesInside(placed[i], list[k]);
  }

  lemma {:induction false} PageIsImportedOrAccepted(placed: seq<Placed>, memory: int, e820: seq<Entry>,
                                                    accept: seq<Range>, g: int, a: int)
    requires Lawful(placed, memory) && NoEmptyRegion(placed)
    requires IsE820(e820, placed, memory) && IsAcceptList(accept, placed, memory)
    requires PageAligned(g) && 0 <= g < memory && g <= a < g + PAGE
    ensures Lookup(e820, a) != ABSENT <==> InRanges(accept, a) || Imported(LaunchList(placed), g)
    ensures !(InRanges(accept, a) && Imported(LaunchList(placed), g))
  {
    PagePlace(placed, memory, accept, g);
    AbsentIffMmio(placed, memory, e820, g, a);
  }

  lemma {:induction false} OutsideIsUnlisted(placed: seq<Placed>, memory: int, e820: seq<Entry>, accept: seq<Range>,
                                             a: int)
    requires IsE820(e820, placed, memory) && IsAcceptList(accept, placed, memory) && !(0 <= a < memory)
    ensures Lookup(e820, a) == ABSENT && !InRanges(accept, a)
  {
  }

  /** A byte the E820 map lists is in one of the two lists, and any other byte in neither. */
  ghost predicate ListedOnce(placed: seq<Placed>, memory: int, e820: seq<Entry>, accept: seq<Range>, a: int) {
    var pages := PagesBelow(LaunchList(placed), memory);
    && (Lookup(e820, a) != ABSENT <==> InRanges(accept, a) || InRanges(pages, a))
    && !(InRanges(accept, a) && InRanges(pages, a))
  }

  lemma {:induction false} InsideByte(placed: seq<Placed>, memory: int, e820: seq<Entry>, accept: seq<Range>, a: int)
    requires Lawful(placed, memory) && NoEmptyRegion(placed) && 0 <= a < memory
    requires IsE820(e820, placed, memory) && IsAcceptList(accept, placed, memory)
    ensures ListedOnce(placed, memory, e820, accept, a)
  {
    InPagesIff(placed, memory, a);
    PageIsImportedOrAccepted(placed, memory, e820, accept, PageBase(a), a);
  }

  lemma {:induction false} OutsideByte(placed: seq<Placed>, memory: int, e820: seq<Entry>, accept: seq<Range>, a: int)
    requires Lawful(placed, memory) && !(0 <= a < memory)
    requires IsE820(e820, placed, memory) && IsAcceptList(accept, placed, memory)
    ensures ListedOnce(placed, memory, e820, accept, a)
  {
    OutsideIsUnlisted(placed, memory, e820, accept, a);
    if InRanges(PagesBelow(LaunchList(placed), memory), a) {
      PagesWithin(placed, memory, a);
    }
  }

  lemma {:induction false} ByteIsImportedOrAccepted(placed: seq<Placed>, memory: int, e820: seq<Entry>,
                                                    accept: seq<Range>, a: int)
    requires Lawful(placed, memory) && NoEmptyRegion(placed)
    requires IsE820(e820, placed, memory) && IsAcceptList(accept, placed, memory)
    ensures ListedOnce(placed, memory, e820, accept, a)
    ensures Lookup(e820, a) != ABSENT <==> InRanges(EntryRanges(e820), a)
  {
    ListedIffCovered(e820, a);
    if 0 <= a < memory {
      InsideByte(placed, memory, e820, accept, a);
    } else {
      OutsideByte(placed, memory, e820, accept, a);
    }
  }

  /** Every byte the E820 map lists was imported once or is accepted once. */
  lemma {:induction false} E820IsImportedPlusAccepted(placed: seq<Placed>, memory: int, e820: seq<Entry>,
                                                      accept: seq<Range>)
    requires Lawful(placed, memory) && NoEmptyRegion(placed) && SortedByBase(placed)
    requires IsE820(e820, placed, memory) && IsAcceptList(accept, placed, memory)
    ensures Total(EntryRanges(e820)) == Total(accept) + PAGE * |PagesBelow(LaunchList(placed), memory)|
  {
    var list := LaunchList(placed);
    var pages := PagesBelow(list, memory);
    LawfulOwnApart(placed, memory);
    LaunchAscending(placed);
    PagesBelowDisjoint(list, memory);
    EntriesDisjoint(e820);
    AcceptDisjoint(accept, memory);
    forall a
      ensures InRanges(EntryRanges(e820), a) <==> InRanges(accept, a) || InRanges(pages, a)
      ensures !(InRanges(accept, a) && InRanges(pages, a))
    {
      ByteIsImportedOrAccepted(placed, memory, e820, accept, a);
    }
    TotalsAdd(accept, pages, EntryRanges(e820));
    PagesBelowTotal(list, memory);
  }

  lemma {:induction false} AcceptDisjoint(accept: seq<Range>, memory: int)
    requires Separated(accept, memory)
    ensures Disjoint(accept)
  {
  }

  // ---------- what a build starts from ----------

  lemma {:induction false} TotalJoin(xs: seq<Range>, ys: seq<Range>)
    ensures Total(xs + ys) == Total(xs) + Total(ys)
  {
    if ys == [] {
      assert xs + ys == xs;
    } else {
      var n := |ys| - 1;
      TotalJoin(xs, ys[..n]);
      assert (xs + ys)[..|xs| + n] == xs + ys[..n];
    }
  }

  lemma {:induction false} InsertKeepsApertures(x: Placed, s: seq<Placed>)
    ensures Total(Apertures(InsertByBase(x, s))) == Total(OwnAperture(x)) + Total(Apertures(s))
  {
    if s == [] || x.base <= s[0].base {
      assert ([x] + s)[1..] == s;
      TotalJoin(OwnAperture(x), Apertures(s));
    } else {
      var t := InsertByBase(x, s[1..]);
      InsertKeepsApertures(x, s[1..]);
      assert ([s[0]] + t)[1..] == t;
      TotalJoin(OwnAperture(s[0]), Apertures(t));
      TotalJoin(OwnAperture(s[0]), Apertures(s[1..]));
    }
  }

  lemma {:induction false} SortKeepsApertures(s: seq<Placed>)
    ensures Total(Apertures(SortByBase(s))) == Total(Apertures(s))
  {
    if s != [] {
      SortKeepsApertures(s[1..]);
      InsertKeepsApertures(s[0], SortByBase(s[1..]));
      TotalJoin(OwnAperture(s[0]), Apertures(s[1..]));
    }
  }

  lemma {:induction false} AperturesJoin(xs: seq<Placed>, ys: seq<Placed>)
    ensures Apertures(xs + ys) == Apertures(xs) + Apertures(ys)
  {
    if xs == [] {
      assert xs + ys == ys;
    } else {
      AperturesJoin(xs[1..], ys);
      TailOfConcat(xs, ys);
      ConcatAssoc(OwnAperture(xs[0]), Apertures(xs[1..]), Apertures(ys));
    }
  }

  ghost predicate NoneMmio(xs: seq<Placed>) {
    forall k :: 0 <= k < |xs| ==> !xs[k].fill.Mmio?
  }

  lemma {:induction false} NoApertures(xs: seq<Placed>)
    requires NoneMmio(xs)
    ensures Apertures(xs) == []
  {
    if xs != [] {
      NoApertures(xs[1..]);
    }
  }

  function HoleBytes(holes: seq<Hole>): nat {
    if holes == [] then 0 else holes[0].size + HoleBytes(holes[1..])
  }

  lemma {:induction false} HoleApertures(holes: seq<Hole>)
    ensures Total(Apertures(MmioList(holes))) == HoleBytes(holes)
  {
    var list := MmioList(holes);
    if holes != [] {
      HoleApertures(holes[1..]);
      assert list[1..] == MmioList(holes[1..]);
      var own := OwnAperture(list[0]);
      TotalJoin(own, Apertures(list[1..]));
      assert own[..0] == [] && Total(own) == Total(own[..0]) + holes[0].size;
    }
  }

  lemma {:induction false} HoleBytesJoin(xs: seq<Hole>, ys: seq<Hole>)
    ensures HoleBytes(xs + ys) == HoleBytes(xs) + HoleBytes(ys)
  {
    if xs == [] {
      assert xs + ys == ys;
    } else {
      HoleBytesJoin(xs[1..], ys);
      TailOfConcat(xs, ys);
    }
  }

  lemma {:induction false} FilledJoin(regions: seq<Placed>, holes: seq<Placed>, i: nat, zero: Bytes, j: nat,
                                      shim: Bytes)
    requires i < |regions| && j < |regions|
    ensures BothFilled(regions + holes, i, zero, j, shim) == BothFilled(regions, i, zero, j, shim) + holes
  {
    var all := regions + holes;
    assert all[i] == regions[i];
    assert all[i := all[i].(fill := Measured(zero))] == regions[i := regions[i].(fill := Measured(zero))] + holes;
  }

  lemma {:induction false} JoinInside(head: seq<Placed>, holes: seq<Hole>, memory: int)
    requires NoneMmio(head) && HolesInside(holes, memory)
    ensures AperturesInside(head + MmioList(holes), memory)
  {
    var all, tail := head + MmioList(holes), MmioList(holes);
    forall m | 0 <= m < |all| && all[m].fill.Mmio?
      ensures all[m].base + all[m].fill.size <= memory
    {
      assert m >= |head| ==> all[m] == tail[m - |head|];
    }
  }

  lemma {:induction false} InsidePermutes(s: seq<Placed>, t: seq<Placed>, memory: int)
    requires multiset(s) == multiset(t) && AperturesInside(s, memory)
    ensures AperturesInside(t, memory)
  {
    forall k | 0 <= k < |t| && t[k].fill.Mmio?
      ensures t[k].base + t[k].fill.size <= memory
    {
      assert t[k] in multiset(s);
    }
  }

  lemma {:induction false} FilledNoneMmio(regions: seq<Placed>, i: nat, zero: Bytes, j: nat, shim: Bytes)
    requires NoneMmio(regions) && i < |regions| && j < |regions|
    ensures NoneMmio(BothFilled(regions, i, zero, j, shim))
  {
  }

  lemma {:induction false} SortedApertures(head: seq<Placed>, holes: seq<Hole>, memory: int)
    requires NoneMmio(head) && HolesInside(holes, memory)
    ensures var placed := SortByBase(head + MmioList(holes));
            Total(Apertures(placed)) == HoleBytes(holes) && AperturesInside(placed, memory)
  {
    var filled := head + MmioList(holes);
    JoinInside(head, holes, memory);
    InsidePermutes(filled, SortByBase(filled), memory);
    AperturesJoin(head, MmioList(holes));
    NoApertures(head);
    HoleApertures(holes);
    SortKeepsApertures(filled);
    assert Apertures(filled) == Apertures(MmioList(holes));
  }

  /** Filled and sorted, a listing has the apertures it was given. */
  lemma {:induction false} FilledApertures(regions: seq<Placed>, holes: seq<Hole>, i: nat, zero: Bytes, j: nat,
                                           shim: Bytes, memory: int)
    requires NoneMmio(regions) && i < |regions| && j < |regions| && HolesInside(holes, memory)
    ensures var placed := Filled(regions + MmioList(holes), i, zero, j, shim);
            Total(Apertures(placed)) == HoleBytes(holes) && AperturesInside(placed, memory)
  {
    FilledJoin(regions, MmioList(holes), i, zero, j, shim);
    FilledNoneMmio(regions, i, zero, j, shim);
    SortedApertures(BothFilled(regions, i, zero, j, shim), holes, memory);
  }

  /** What the machine itself leaves over: nothing, but for the page a split TDX guest's firmware runs from. */
  function OwnSlack(ram: int, holeEnd: int): int {
    if Split(ram) then FOUR_GIB - holeEnd else 0
  }

  /** Memory less the apertures is the RAM asked for, less what was taken out of it. */
  lemma {:induction false} MemoryLessHoles(ram: U64, vcpus: U32, cmdline: string, cbit: nat, mmio: seq<Hole>,
                                           holeEnd: U64)
    requires Q35_LOWMEM <= holeEnd <= FOUR_GIB
    requires New(ram, vcpus, cmdline, cbit, mmio, holeEnd).Ok?
    ensures var p := New(ram, vcpus, cmdline, cbit, mmio, holeEnd).value;
            p.memory - HoleBytes(p.mmio) == ram + OwnSlack(ram, holeEnd) - HoleBytes(mmio)
  {
    var own := if Split(ram) then [Hole(Q35_LOWMEM, holeEnd - Q35_LOWMEM)] else [];
    HoleBytesJoin(own, mmio);
    if Split(ram) {
      assert own[1..] == [] && HoleBytes(own) == own[0].size + HoleBytes(own[1..]);
    }
  }
}
