/** The types under which an image offers its memory to the kernel: each address's, from the request alone. */
module Offers {
  import opened Layout
  import opened Bytes
  import opened Placement
  import opened MapTheorems
  import opened Params
  import opened Image
  import opened Admission

  /** What the kernel must leave alone: the pages it was started with, and on SNP those it shares or was given. */
  predicate Reserved(snp: bool, a: int) {
    || 0x7000 <= a < 0x8000 || 0x2_0000 <= a < 0x2_1000
    || (if snp then
          || 0xf_0000 <= a < 0xf_2000 || 0x10_0000 <= a < 0x10_3000
          || 0x10_7000 <= a < 0x11_8000 || 0x12_0000 <= a < 0x15_0000
        else
          || 0xf_0000 <= a < 0xf_1000 || 0x10_0000 <= a < 0x10_2000
          || 0x10_7000 <= a < 0x11_7000 || 0x12_1000 <= a < 0x15_0000 || 0xffff_f000 <= a < 0x1_0000_0000)
  }

  predicate InAcpi(a: int) { 0xe_0000 <= a < 0xe_1000 }

  /** An aperture that does not run past the address space claims its bytes; one that does claims none. */
  predicate InHoles(holes: seq<Hole>, a: int) {
    exists k :: 0 <= k < |holes| && holes[k].base <= a < holes[k].base + holes[k].size < U64_MODULUS
  }

  /** What is placed in ordinary memory: the kernel, the initramfs and on SNP the CC blob. */
  predicate Given(snp: bool, kernel: Bytes, initramfs: Bytes, a: int) {
    || 0x100_0000 <= a < MeasuredEnd(0x100_0000, kernel)
    || 0x2000_0000 <= a < MeasuredEnd(0x2000_0000, initramfs)
    || (snp && 0xf_2000 <= a < 0xf_3000)
  }

  /** The E820 type of an address below `memory`. */
  function TypeAt(snp: bool, holes: seq<Hole>, a: int): int {
    if Reserved(snp, a) then 2 else if InAcpi(a) then 3 else if InHoles(holes, a) then 0 else 1
  }

  /** Every address is offered under its type, and of what the map claims only what is given to the kernel as RAM. */
  ghost predicate Offered(e820: seq<Entry>, placed: seq<Placed>, memory: int, snp: bool, kernel: Bytes,
                          initramfs: Bytes, holes: seq<Hole>)
  {
    forall a :: 0 <= a < memory ==>
      && Lookup(e820, a) == TypeAt(snp, holes, a)
      && (Claimed(Spans(placed), a) && Lookup(e820, a) == 1 ==> Given(snp, kernel, initramfs, a))
      && (Given(snp, kernel, initramfs, a) ==> Claimed(Spans(placed), a) && Lookup(e820, a) == 1)
  }

  // ---------- what a listing makes of an address ----------

  /** Where sorted neighbours take turns, whichever region covers an address gives it its type. */
  lemma {:induction false} KindOfTurn(placed: seq<Placed>, i: nat, a: int)
    requires AdjacentDisjoint(Spans(placed)) && i < |placed| && Covers(SpanOf(placed[i]), a)
    ensures FirstKind(Spans(placed), a) == placed[i].e820 && Claimed(Spans(placed), a)
  {
    var spans, list := Spans(placed), SpanList(placed);
    SpansMembers(placed);
    assert list[i] in spans;
    var k :| 0 <= k < |spans| && spans[k] == list[i];
    forall j | 0 <= j < k
      ensures !Covers(spans[j], a)
    {
      assert spans[j].hi <= spans[j + 1].lo && (j + 1 < k ==> SpanLe(spans[j + 1], spans[k]));
    }
    FirstKindAt(spans, k, a);
  }

  lemma {:induction false} KindOfGap(placed: seq<Placed>, a: int)
    requires !Claimed(Spans(placed), a)
    ensures FirstKind(Spans(placed), a) == RAM
  {
    FirstKindAt(Spans(placed), |Spans(placed)|, a);
  }

  /** A region's bytes have its type... */
  lemma {:induction false} RegionType(regions: seq<Placed>, taken: seq<Range>, holes: seq<Hole>, i: nat, a: int)
    requires Takes(regions, taken) && AdjacentDisjoint(Spans(regions + MmioList(holes)))
    requires i < |regions| && taken[i].lo <= a < taken[i].hi
    ensures var spans := Spans(regions + MmioList(holes));
            FirstKind(spans, a) == regions[i].e820 && Claimed(spans, a)
  {
    var all := regions + MmioList(holes);
    assert all[i] == regions[i];
    KindOfTurn(all, i, a);
  }

  /** ...an aperture's are in no entry... */
  lemma {:induction false} HoleType(regions: seq<Placed>, holes: seq<Hole>, a: int)
    requires AdjacentDisjoint(Spans(regions + MmioList(holes))) && InHoles(holes, a)
    ensures var spans := Spans(regions + MmioList(holes)); FirstKind(spans, a) == ABSENT && Claimed(spans, a)
  {
    var all := regions + MmioList(holes);
    var k :| 0 <= k < |holes| && holes[k].base <= a < holes[k].base + holes[k].size < U64_MODULUS;
    assert all[|regions| + k] == MmioList(holes)[k];
    KindOfTurn(all, |regions| + k, a);
  }

  lemma {:induction false} HoleCovers(h: Hole, a: int)
    requires HoleSpan(h).lo <= a < HoleSpan(h).hi
    ensures h.base <= a < h.base + h.size < U64_MODULUS
  {
  }

  /** ...and no others are claimed. */
  lemma {:induction false} ClaimedByListing(regions: seq<Placed>, taken: seq<Range>, holes: seq<Hole>, a: int)
    requires Takes(regions, taken) && Claimed(Spans(regions + MmioList(holes)), a)
    ensures InRanges(taken, a) || InHoles(holes, a)
  {
    var all, n := regions + MmioList(holes), |regions|;
    ClaimedIsListed(all, a);
    var i: nat :| i < |all| && Covers(SpanOf(all[i]), a);
    InitialSpans(regions, taken, holes, i);
    assert SpanOf(all[i]) == SpanList(all)[i];
    if i >= n {
      HoleCovers(holes[i - n], a);
    }
  }

  // ---------- the two platforms ----------

  const TDX_TYPES: seq<int> := [2, 2, 3, 2, 2, 2, 2, 1, 1, 2]
  const SNP_TYPES: seq<int> := [2, 2, 3, 2, 2, 1, 2, 2, 2, 2, 2, 1, 1]

  ghost predicate HasTypes(regions: seq<Placed>, types: seq<int>) {
    |regions| == |types| && forall i :: 0 <= i < |types| ==> regions[i].e820 == types[i]
  }

  /** What the two lists of a platform say of an address, one region after another. */
  ghost predicate TypedBy(taken: seq<Range>, types: seq<int>, a: int, kind: int) {
    |taken| == |types| && forall i :: 0 <= i < |taken| && taken[i].lo <= a < taken[i].hi ==> kind == types[i]
  }

  lemma {:induction false} TdxTypesRead(p: Prepared, holes: seq<Hole>, a: int, kind: int, claimed: bool)
    requires TypedBy(TdxTaken(p), TDX_TYPES, a, kind)
    requires InHoles(holes, a) ==> kind == 0
    requires claimed <==> InRanges(TdxTaken(p), a) || InHoles(holes, a)
    requires !claimed ==> kind == 1
    ensures kind == TypeAt(false, holes, a)
    ensures claimed && kind == 1 ==> Given(false, p.kernel, p.initramfs, a)
    ensures Given(false, p.kernel, p.initramfs, a) ==> claimed && kind == 1
  {
    var t := TdxTaken(p);
    assert InRanges(t, a) <==> Reserved(false, a) || InAcpi(a) || Given(false, p.kernel, p.initramfs, a) by {
      InTen(t, a);
    }
    TenTypes(t, TDX_TYPES, a, kind);
  }

  lemma {:induction false} InTen(t: seq<Range>, a: int)
    requires |t| == 10
    ensures InRanges(t, a) <==>
            || t[0].lo <= a < t[0].hi || t[1].lo <= a < t[1].hi || t[2].lo <= a < t[2].hi || t[3].lo <= a < t[3].hi
            || t[4].lo <= a < t[4].hi || t[5].lo <= a < t[5].hi || t[6].lo <= a < t[6].hi || t[7].lo <= a < t[7].hi
            || t[8].lo <= a < t[8].hi || t[9].lo <= a < t[9].hi
  {
  }

  lemma {:induction false} TenTypes(t: seq<Range>, types: seq<int>, a: int, kind: int)
    requires |t| >= 10 && TypedBy(t, types, a, kind)
    ensures t[0].lo <= a < t[0].hi ==> kind == types[0]
    ensures t[1].lo <= a < t[1].hi ==> kind == types[1]
    ensures t[2].lo <= a < t[2].hi ==> kind == types[2]
    ensures t[3].lo <= a < t[3].hi ==> kind == types[3]
    ensures t[4].lo <= a < t[4].hi ==> kind == types[4]
    ensures t[5].lo <= a < t[5].hi ==> kind == types[5]
    ensures t[6].lo <= a < t[6].hi ==> kind == types[6]
    ensures t[7].lo <= a < t[7].hi ==> kind == types[7]
    ensures t[8].lo <= a < t[8].hi ==> kind == types[8]
    ensures t[9].lo <= a < t[9].hi ==> kind == types[9]
  {
  }

  lemma {:induction false} SnpTypesRead(p: Prepared, holes: seq<Hole>, a: int, kind: int, claimed: bool)
    requires TypedBy(SnpTaken(p), SNP_TYPES, a, kind)
    requires InHoles(holes, a) ==> kind == 0
    requires claimed <==> InRanges(SnpTaken(p), a) || InHoles(holes, a)
    requires !claimed ==> kind == 1
    ensures kind == TypeAt(true, holes, a)
    ensures claimed && kind == 1 ==> Given(true, p.kernel, p.initramfs, a)
    ensures Given(true, p.kernel, p.initramfs, a) ==> claimed && kind == 1
  {
    var t := SnpTaken(p);
    assert InRanges(t, a) <==> Reserved(true, a) || InAcpi(a) || Given(true, p.kernel, p.initramfs, a) by {
      InTen(t[..10], a);
      assert InRanges(t, a) <==> InRanges(t[..10], a) || t[10].lo <= a < t[10].hi || t[11].lo <= a < t[11].hi
                                 || t[12].lo <= a < t[12].hi;
    }
    TenTypes(t, SNP_TYPES, a, kind);
    assert t[10].lo <= a < t[10].hi ==> kind == SNP_TYPES[10];
    assert t[11].lo <= a < t[11].hi ==> kind == SNP_TYPES[11];
    assert t[12].lo <= a < t[12].hi ==> kind == SNP_TYPES[12];
  }

  /** What a listing's own regions and apertures come to at an address. */
  lemma {:induction false} ListingReads(regions: seq<Placed>, taken: seq<Range>, types: seq<int>, holes: seq<Hole>,
                                        e820: seq<Entry>, memory: int, a: int)
    requires Takes(regions, taken) && HasTypes(regions, types)
    requires AdjacentDisjoint(Spans(regions + MmioList(holes))) && IsE820(e820, regions + MmioList(holes), memory)
    requires 0 <= a < memory
    ensures var claimed := Claimed(Spans(regions + MmioList(holes)), a);
            && TypedBy(taken, types, a, Lookup(e820, a)) && (InHoles(holes, a) ==> Lookup(e820, a) == 0)
            && (claimed <==> InRanges(taken, a) || InHoles(holes, a)) && (!claimed ==> Lookup(e820, a) == 1)
  {
    var all := regions + MmioList(holes);
    forall i | 0 <= i < |taken| && taken[i].lo <= a < taken[i].hi
      ensures Lookup(e820, a) == types[i] && Claimed(Spans(all), a)
    {
      RegionType(regions, taken, holes, i, a);
    }
    if InHoles(holes, a) {
      HoleType(regions, holes, a);
    }
    if Claimed(Spans(all), a) {
      ClaimedByListing(regions, taken, holes, a);
    } else {
      KindOfGap(all, a);
    }
  }

  /** Which lists a platform's regions go by. */
  ghost predicate GoesBy(snp: bool, p: Prepared, taken: seq<Range>, types: seq<int>) {
    if snp then taken == SnpTaken(p) && types == SNP_TYPES else taken == TdxTaken(p) && types == TDX_TYPES
  }

  /** A listing, and any map with the same spans, offers its memory as it should. */
  lemma {:induction false} ListingOffers(regions: seq<Placed>, taken: seq<Range>, types: seq<int>, snp: bool,
                                         p: Prepared, holes: seq<Hole>, e820: seq<Entry>, placed: seq<Placed>,
                                         memory: int)
    requires Takes(regions, taken) && HasTypes(regions, types) && GoesBy(snp, p, taken, types)
    requires Spans(placed) == Spans(regions + MmioList(holes))
    requires AdjacentDisjoint(Spans(placed)) && IsE820(e820, placed, memory)
    ensures Offered(e820, placed, memory, snp, p.kernel, p.initramfs, holes)
  {
    forall a | 0 <= a < memory
      ensures Lookup(e820, a) == TypeAt(snp, holes, a)
      ensures Claimed(Spans(placed), a) && Lookup(e820, a) == 1 ==> Given(snp, p.kernel, p.initramfs, a)
      ensures Given(snp, p.kernel, p.initramfs, a) ==> Claimed(Spans(placed), a) && Lookup(e820, a) == 1
    {
      ListingReads(regions, taken, types, holes, e820, memory, a);
      if snp {
        SnpTypesRead(p, holes, a, Lookup(e820, a), Claimed(Spans(placed), a));
      } else {
        TdxTypesRead(p, holes, a, Lookup(e820, a), Claimed(Spans(placed), a));
      }
    }
  }

  lemma {:induction false} TdxTyped(p: Prepared, acpi: Bytes, tables: Bytes, stack: Bytes)
    ensures HasTypes(TdxRegions(p, acpi, tables, stack), TDX_TYPES)
  {
  }

  lemma {:induction false} SnpTyped(p: Prepared, acpi: Bytes, ccBlob: Bytes, tables: Bytes, stack: Bytes)
    ensures HasTypes(SnpRegions(p, acpi, ccBlob, tables, stack), SNP_TYPES)
  {
  }
}
