/** Which apertures a build accepts: exactly those clear of its own regions and of each other. */
module Admission {
  import opened Layout
  import opened Bytes
  import opened Placement
  import opened MapTheorems
  import opened Params
  import opened Image
  import opened Regions
  import opened Wrapping
  import opened Trimming

  /** An aperture as validation sees it, its end taken modulo 2^64. */
  function HoleSpan(h: Hole): Span { Span(h.base, AddU64(h.base, h.size), ABSENT) }

  function TakenSpan(r: Range): Span { Span(r.lo, r.hi, ABSENT) }

  /** Every aperture takes turns with the regions and with the other apertures... */
  ghost predicate HolesClear(taken: seq<Range>, holes: seq<Hole>) {
    && (forall i, k :: 0 <= i < |taken| && 0 <= k < |holes| ==> InTurn(TakenSpan(taken[i]), HoleSpan(holes[k])))
    && (forall j, k :: 0 <= j < k < |holes| ==> InTurn(HoleSpan(holes[j]), HoleSpan(holes[k])))
  }

  /** ...and starts where a region may. */
  ghost predicate HolesPlaced(holes: seq<Hole>, memory: int) {
    forall k :: 0 <= k < |holes| ==> holes[k].base < memory || holes[k].base == RESET_ALIAS
  }

  /** Apertures that do not wrap start inside memory, and take turns where they lie apart. */
  lemma {:induction false} UnwrappedPlaced(holes: seq<Hole>, memory: int)
    requires NoHoleWraps(holes) && forall k :: 0 <= k < |holes| ==> Checked(holes[k], memory)
    ensures HolesPlaced(holes, memory)
    ensures forall k, r: Range :: 0 <= k < |holes| && r.lo < r.hi ==>
              (InTurn(TakenSpan(r), HoleSpan(holes[k])) <==>
                 holes[k].base + holes[k].size <= r.lo || r.hi <= holes[k].base)
  {
    forall k | 0 <= k < |holes|
      ensures holes[k].base < memory && HoleSpan(holes[k]).hi == holes[k].base + holes[k].size
    {
      assert holes[k].base + holes[k].size < U64_MODULUS && Checked(holes[k], memory);
    }
  }

  /** The regions lie one after another, as listed. */
  ghost predicate Stacked(taken: seq<Range>) {
    forall i :: 0 <= i < |taken| - 1 ==> taken[i].lo < taken[i].hi <= taken[i + 1].lo
  }

  lemma {:induction false} StackedApart(taken: seq<Range>, i: nat, j: nat)
    requires Stacked(taken) && i < j < |taken|
    ensures taken[i].lo < taken[i].hi <= taken[j].lo
    decreases j
  {
    if i + 1 < j {
      StackedApart(taken, i, j - 1);
      assert taken[j - 1].lo < taken[j - 1].hi <= taken[j - 1 + 1].lo;
    }
  }

  ghost predicate Takes(regions: seq<Placed>, taken: seq<Range>) {
    && |taken| == |regions|
    && forall i :: 0 <= i < |taken| ==> SpanOf(regions[i]).lo == taken[i].lo && SpanOf(regions[i]).hi == taken[i].hi
  }

  lemma {:induction false} InitialSpans(regions: seq<Placed>, taken: seq<Range>, holes: seq<Hole>, i: nat)
    requires Takes(regions, taken) && i < |regions| + |holes|
    ensures var s := SpanList(regions + MmioList(holes))[i];
            var t := if i < |regions| then TakenSpan(taken[i]) else HoleSpan(holes[i - |regions|]);
            s.lo == t.lo && s.hi == t.hi
  {
    var all := regions + MmioList(holes);
    assert all[i] == if i < |regions| then regions[i] else MmioList(holes)[i - |regions|];
  }

  lemma {:induction false} ClearIsInTurn(regions: seq<Placed>, taken: seq<Range>, holes: seq<Hole>)
    requires Takes(regions, taken) && Stacked(taken) && HolesClear(taken, holes)
    ensures PairwiseInTurn(SpanList(regions + MmioList(holes)))
  {
    var spans, n := SpanList(regions + MmioList(holes)), |regions|;
    forall i, j | 0 <= i < j < |spans|
      ensures InTurn(spans[i], spans[j])
    {
      InitialSpans(regions, taken, holes, i);
      InitialSpans(regions, taken, holes, j);
      if j < n {
        StackedApart(taken, i, j);
      } else if i < n {
        assert InTurn(TakenSpan(taken[i]), HoleSpan(holes[j - n]));
      } else {
        assert InTurn(HoleSpan(holes[i - n]), HoleSpan(holes[j - n]));
      }
    }
  }

  lemma {:induction false} InTurnIsClear(regions: seq<Placed>, taken: seq<Range>, holes: seq<Hole>)
    requires Takes(regions, taken) && PairwiseInTurn(SpanList(regions + MmioList(holes)))
    ensures HolesClear(taken, holes)
  {
    var spans, n := SpanList(regions + MmioList(holes)), |regions|;
    forall i, k | 0 <= i < |taken| && 0 <= k < |holes|
      ensures InTurn(TakenSpan(taken[i]), HoleSpan(holes[k]))
    {
      InitialSpans(regions, taken, holes, i);
      InitialSpans(regions, taken, holes, n + k);
      assert InTurn(spans[i], spans[n + k]);
    }
    forall j, k | 0 <= j < k < |holes|
      ensures InTurn(HoleSpan(holes[j]), HoleSpan(holes[k]))
    {
      InitialSpans(regions, taken, holes, n + j);
      InitialSpans(regions, taken, holes, n + k);
      assert InTurn(spans[n + j], spans[n + k]);
    }
  }

  ghost predicate BasesFit(regions: seq<Placed>, memory: int) {
    forall i :: 0 <= i < |regions| ==>
      PageAligned(regions[i].base) && (regions[i].base < memory || regions[i].base == RESET_ALIAS)
  }

  lemma {:induction false} InsideIffPlaced(regions: seq<Placed>, holes: seq<Hole>, memory: int)
    requires BasesFit(regions, memory) && forall k :: 0 <= k < |holes| ==> Checked(holes[k], memory)
    ensures AlignedAndInside(regions + MmioList(holes), memory) <==> HolesPlaced(holes, memory)
  {
    var all, list := regions + MmioList(holes), MmioList(holes);
    assert forall i :: 0 <= i < |regions| ==> all[i] == regions[i];
    assert forall k :: 0 <= k < |holes| ==> all[|regions| + k] == list[k];
    assert forall i :: |regions| <= i < |all| ==> all[i] == list[i - |regions|];
  }

  /** Validation passes exactly when every aperture takes its turn and starts where a region may. */
  lemma {:induction false} ValidIffClear(regions: seq<Placed>, taken: seq<Range>, holes: seq<Hole>, memory: int)
    requires Takes(regions, taken) && Stacked(taken) && BasesFit(regions, memory)
    requires forall k :: 0 <= k < |holes| ==> Checked(holes[k], memory)
    ensures var initial := regions + MmioList(holes);
            AdjacentDisjoint(Spans(initial)) && AlignedAndInside(initial, memory) <==>
            HolesClear(taken, holes) && HolesPlaced(holes, memory)
  {
    var initial := regions + MmioList(holes);
    AdjacentCheckIsPairwise(initial);
    InsideIffPlaced(regions, holes, memory);
    if HolesClear(taken, holes) {
      ClearIsInTurn(regions, taken, holes);
    }
    if PairwiseInTurn(SpanList(initial)) {
      InTurnIsClear(regions, taken, holes);
    }
  }

  // ---------- what each platform takes ----------

  function MeasuredEnd(base: nat, data: Bytes): nat {
    base + (if PageUp(|data|) < PAGE then PAGE else PageUp(|data|))
  }

  function TdxTaken(p: Prepared): seq<Range> {
    [ Range(ZERO_PAGE, ZERO_PAGE + PAGE), Range(CMDLINE, CMDLINE + PAGE), Range(ACPI_BASE, ACPI_BASE + PAGE),
      Range(MAILBOX, MAILBOX + PAGE), Range(PAGE_TABLES, PAGE_TABLES + 2 * PAGE),
      Range(BSP_STACK, BSP_STACK + BSP_STACK_SIZE),
      Range(KERNEL_SETUP_BASE, KERNEL_SETUP_BASE + KERNEL_SETUP_AREA_SIZE),
      Range(KERNEL_BASE, MeasuredEnd(KERNEL_BASE, p.kernel)),
      Range(INITRAMFS_BASE, MeasuredEnd(INITRAMFS_BASE, p.initramfs)),
      Range(RESET_ALIAS, RESET_ALIAS + PAGE) ]
  }

  function SnpTaken(p: Prepared): seq<Range> {
    [ Range(ZERO_PAGE, ZERO_PAGE + PAGE), Range(CMDLINE, CMDLINE + PAGE), Range(ACPI_BASE, ACPI_BASE + PAGE),
      Range(SNP_CPUID, SNP_CPUID + PAGE), Range(SNP_SECRETS, SNP_SECRETS + PAGE),
      Range(SNP_CC_BLOB, SNP_CC_BLOB + PAGE),
      Range(PAGE_TABLES, PAGE_TABLES + 3 * PAGE), Range(BSP_STACK, BSP_STACK + BSP_STACK_SIZE),
      Range(SNP_GHCB, SNP_GHCB + PAGE), Range(SHIM_BASE, SHIM_BASE + PAGE),
      Range(KERNEL_SETUP_BASE, KERNEL_SETUP_BASE + KERNEL_SETUP_AREA_SIZE),
      Range(KERNEL_BASE, MeasuredEnd(KERNEL_BASE, p.kernel)),
      Range(INITRAMFS_BASE, MeasuredEnd(INITRAMFS_BASE, p.initramfs)) ]
  }

  lemma {:induction false} MeasuredTakes(base: U64, name: string, e820: U32, data: Bytes)
    requires base < MAP_LIMIT && |data| <= MAP_LIMIT
    ensures SpanOf(MeasuredAt(base, name, e820, data)).lo == base
    ensures SpanOf(MeasuredAt(base, name, e820, data)).hi == MeasuredEnd(base, data)
  {
  }

  lemma {:induction false} PageUpShifts(base: nat, len: nat)
    requires PageAligned(base)
    ensures PageUp(base + len) == base + PageUp(len)
  {
  }

  lemma {:induction false} TdxStacked(p: Prepared, memory: int)
    requires FitsBelow(p, memory)
    ensures Stacked(TdxTaken(p))
  {
    PageUpShifts(KERNEL_BASE, |p.kernel|);
    PageUpShifts(INITRAMFS_BASE, |p.initramfs|);
  }

  lemma {:induction false} SnpStacked(p: Prepared, memory: int)
    requires FitsBelow(p, memory)
    ensures Stacked(SnpTaken(p))
  {
    PageUpShifts(KERNEL_BASE, |p.kernel|);
    PageUpShifts(INITRAMFS_BASE, |p.initramfs|);
  }

  lemma {:induction false} TdxTakes(p: Prepared, acpi: Bytes, tables: Bytes, stack: Bytes)
    requires Sized(p) && |acpi| == PAGE && |tables| == 2 * PAGE && |stack| == BSP_STACK_SIZE
    ensures Takes(TdxRegions(p, acpi, tables, stack), TdxTaken(p))
  {
    MeasuredTakes(KERNEL_BASE, "kernel", RAM, p.kernel);
    MeasuredTakes(INITRAMFS_BASE, "initramfs", RAM, p.initramfs);
  }

  lemma {:induction false} SnpTakes(p: Prepared, acpi: Bytes, ccBlob: Bytes, tables: Bytes, stack: Bytes)
    requires Sized(p) && |acpi| == PAGE && |ccBlob| == PAGE && |tables| == 3 * PAGE && |stack| == BSP_STACK_SIZE
    ensures Takes(SnpRegions(p, acpi, ccBlob, tables, stack), SnpTaken(p))
  {
    MeasuredTakes(KERNEL_BASE, "kernel", RAM, p.kernel);
    MeasuredTakes(INITRAMFS_BASE, "initramfs", RAM, p.initramfs);
  }

  lemma {:induction false} TdxBasesFit(p: Prepared, acpi: Bytes, tables: Bytes, stack: Bytes, memory: int)
    requires memory > INITRAMFS_BASE
    ensures BasesFit(TdxRegions(p, acpi, tables, stack), memory)
  {
  }

  lemma {:induction false} SnpBasesFit(p: Prepared, acpi: Bytes, ccBlob: Bytes, tables: Bytes, stack: Bytes,
                                       memory: int)
    requires memory > INITRAMFS_BASE
    ensures BasesFit(SnpRegions(p, acpi, ccBlob, tables, stack), memory)
  {
  }

  /** What a build accepts of the apertures asked of it. */
  ghost predicate Admits(taken: seq<Range>, params: Params) {
    HolesClear(taken, params.mmio) && HolesPlaced(params.mmio, params.memory)
  }

  lemma {:induction false} TdxAdmits(params: Params, p: Prepared, acpi: Bytes, tables: Bytes, stack: Bytes)
    requires Sized(p) && |acpi| == PAGE && |tables| == 2 * PAGE && |stack| == BSP_STACK_SIZE
    requires Checks(params) && FitsBelow(p, params.memory)
    ensures var initial := TdxRegions(p, acpi, tables, stack) + MmioList(params.mmio);
            AdjacentDisjoint(Spans(initial)) && AlignedAndInside(initial, params.memory) <==>
            Admits(TdxTaken(p), params)
  {
    TdxStacked(p, params.memory);
    TdxTakes(p, acpi, tables, stack);
    TdxBasesFit(p, acpi, tables, stack, params.memory);
    ValidIffClear(TdxRegions(p, acpi, tables, stack), TdxTaken(p), params.mmio, params.memory);
  }

  lemma {:induction false} SnpAdmits(params: Params, p: Prepared, acpi: Bytes, ccBlob: Bytes, tables: Bytes,
                                     stack: Bytes)
    requires Sized(p) && |acpi| == PAGE && |ccBlob| == PAGE && |tables| == 3 * PAGE && |stack| == BSP_STACK_SIZE
    requires Checks(params) && FitsBelow(p, params.memory)
    ensures var initial := SnpRegions(p, acpi, ccBlob, tables, stack) + MmioList(params.mmio);
            AdjacentDisjoint(Spans(initial)) && AlignedAndInside(initial, params.memory) <==>
            Admits(SnpTaken(p), params)
  {
    SnpStacked(p, params.memory);
    SnpTakes(p, acpi, ccBlob, tables, stack);
    SnpBasesFit(p, acpi, ccBlob, tables, stack, params.memory);
    ValidIffClear(SnpRegions(p, acpi, ccBlob, tables, stack), SnpTaken(p), params.mmio, params.memory);
  }

  /** One aperture against a stack of regions that it can meet in one place only. */
  lemma {:induction false} OneHoleClear(taken: seq<Range>, n: nat, h: Hole)
    requires n < |taken| && taken[n].lo < h.base < h.base + h.size < U64_MODULUS
    requires forall i :: 0 <= i < |taken| && i != n ==>
               taken[i].lo < taken[i].hi && (taken[i].hi <= h.base || h.base + h.size <= taken[i].lo)
    ensures HolesClear(taken, [h]) <==> taken[n].hi <= h.base
  {
    assert HolesClear(taken, [h]) ==> InTurn(TakenSpan(taken[n]), HoleSpan([h][0]));
  }

  /** With no apertures but the machine's own, a guest is refused only for an initramfs that runs into it. */
  lemma {:induction false} OwnHoleClear(p: Prepared, memory: int, ram: U64, holeEnd: U64)
    requires FitsBelow(p, memory) && (holeEnd == RESET_ALIAS || holeEnd == FOUR_GIB)
    ensures var taken := if holeEnd == RESET_ALIAS then TdxTaken(p) else SnpTaken(p);
            HolesClear(taken, HolesOf(ram, [], holeEnd)) <==>
            !Split(ram) || PageUp(INITRAMFS_BASE + |p.initramfs|) <= Q35_LOWMEM
  {
    var h := Hole(Q35_LOWMEM, holeEnd - Q35_LOWMEM);
    PageUpShifts(KERNEL_BASE, |p.kernel|);
    PageUpShifts(INITRAMFS_BASE, |p.initramfs|);
    assert HolesOf(ram, [], holeEnd) == if Split(ram) then [h] else [];
    if holeEnd == RESET_ALIAS {
      OneHoleClear(TdxTaken(p), 8, h);
    } else {
      OneHoleClear(SnpTaken(p), 12, h);
    }
  }

  // ---------- apertures that wrap ----------

  /** Everything a listing claims: its regions, then its apertures. */
  function ClaimList(taken: seq<Range>, holes: seq<Hole>): (r: seq<Span>)
    ensures |r| == |taken| + |holes|
    ensures forall i :: 0 <= i < |taken| ==> r[i] == TakenSpan(taken[i])
    ensures forall k :: 0 <= k < |holes| ==> r[|taken| + k] == HoleSpan(holes[k])
  {
    seq(|taken|, i requires 0 <= i < |taken| => TakenSpan(taken[i])) +
    seq(|holes|, k requires 0 <= k < |holes| => HoleSpan(holes[k]))
  }

  /**
   * Each aperture that wraps is met by something that starts before it and reaches its start, or memory; or itself
   * ends at memory. This holds where none wraps.
   */
  ghost predicate Settles(taken: seq<Range>, params: Params) {
    Harmless(ClaimList(taken, params.mmio), params.memory)
  }

  /** Each that starts below memory is met at its start. */
  ghost predicate MapSettles(taken: seq<Range>, params: Params) {
    MapHarmless(ClaimList(taken, params.mmio), params.memory)
  }

  lemma {:induction false} ClaimOf(taken: seq<Range>, holes: seq<Hole>, i: nat)
    requires i < |taken| + |holes|
    ensures ClaimList(taken, holes)[i] == if i < |taken| then TakenSpan(taken[i]) else HoleSpan(holes[i - |taken|])
  {
    assert i >= |taken| ==> ClaimList(taken, holes)[|taken| + (i - |taken|)] == HoleSpan(holes[i - |taken|]);
  }

  lemma {:induction false} InitialClaim(regions: seq<Placed>, taken: seq<Range>, holes: seq<Hole>, i: nat)
    requires Takes(regions, taken) && i < |regions| + |holes|
    ensures var s, c := SpanList(regions + MmioList(holes))[i], ClaimList(taken, holes)[i]; s.lo == c.lo && s.hi == c.hi
  {
    InitialSpans(regions, taken, holes, i);
    ClaimOf(taken, holes, i);
  }

  lemma {:induction false} InitialClaims(regions: seq<Placed>, taken: seq<Range>, holes: seq<Hole>)
    requires Takes(regions, taken)
    ensures SameEnds(SpanList(regions + MmioList(holes)), ClaimList(taken, holes))
  {
    forall i | 0 <= i < |regions| + |holes|
      ensures var s, c := SpanList(regions + MmioList(holes))[i], ClaimList(taken, holes)[i];
              s.lo == c.lo && s.hi == c.hi
    {
      InitialClaim(regions, taken, holes, i);
    }
  }

  lemma {:induction false} SettlesIsHarmless(regions: seq<Placed>, taken: seq<Range>, params: Params)
    requires Takes(regions, taken)
    ensures var list := SpanList(regions + MmioList(params.mmio));
            && (Harmless(list, params.memory) <==> Settles(taken, params))
            && (MapHarmless(list, params.memory) <==> MapSettles(taken, params))
  {
    InitialClaims(regions, taken, params.mmio);
    HarmlessBySame(SpanList(regions + MmioList(params.mmio)), ClaimList(taken, params.mmio), params.memory);
  }

  /** So both sweeps over a listing are right exactly then. */
  lemma {:induction false} ViewsIffSettled(regions: seq<Placed>, taken: seq<Range>, params: Params)
    requires Takes(regions, taken) && NoFullTurn(regions + MmioList(params.mmio))
    ensures var initial, memory := regions + MmioList(params.mmio), params.memory;
            && (IsAcceptList(AcceptList(Spans(initial), memory), initial, memory) <==> Settles(taken, params))
            && (IsE820(E820List(Spans(initial), memory), initial, memory) <==> MapSettles(taken, params))
  {
    SettlesIsHarmless(regions, taken, params);
    AcceptListIff(regions + MmioList(params.mmio), params.memory);
    E820ListIff(regions + MmioList(params.mmio), params.memory);
  }

  lemma {:induction false} UnwrappedSettles(taken: seq<Range>, params: Params)
    requires NoHoleWraps(params.mmio) && forall i :: 0 <= i < |taken| ==> taken[i].lo <= taken[i].hi
    ensures Settles(taken, params)
  {
    var claims := ClaimList(taken, params.mmio);
    forall k | 0 <= k < |claims|
      ensures HarmlessAt(claims, k, params.memory)
    {
      if k >= |taken| {
        var h := params.mmio[k - |taken|];
        ClaimOf(taken, params.mmio, k);
        assert h.base + h.size < U64_MODULUS;
      }
    }
  }

  /** Parameters without the apertures that wrap. */
  function Plain(params: Params): Params { params.(mmio := Unwrapped(params.mmio)) }

  lemma {:induction false} PlainUsable(params: Params)
    requires Checks(params)
    ensures Usable(Plain(params))
  {
    UnwrappedChecked(params.mmio, params.memory);
  }

  lemma {:induction false} MmioSnoc(init: seq<Hole>, last: Hole)
    ensures MmioList(init + [last]) == MmioList(init) + [MmioAt(last.base, last.size)]
  {
  }

  lemma {:induction false} TrimHoles(holes: seq<Hole>)
    ensures Trim(MmioList(holes)) == MmioList(Unwrapped(holes))
  {
    if holes != [] {
      var init, last := holes[..|holes| - 1], holes[|holes| - 1];
      TrimHoles(init);
      assert holes == init + [last];
      MmioSnoc(init, last);
      MmioSnoc(Unwrapped(init), last);
      TrimSnoc(MmioList(init), MmioAt(last.base, last.size));
      UnwrappedSnoc(init, last);
    }
  }

  lemma {:induction false} TrimListing(regions: seq<Placed>, holes: seq<Hole>)
    requires forall p :: p in regions ==> !Wraps(p)
    ensures Trim(regions + MmioList(holes)) == regions + MmioList(Unwrapped(holes))
  {
    TrimJoin(regions, MmioList(holes));
    TrimAll(regions);
    TrimHoles(holes);
  }

  // ---------- an aperture over all memory but its first page ----------

  /** Beside regions past its start it is admitted exactly where no aperture that starts before it reaches past that. */
  lemma {:induction false} WrappingHoleIsAdmitted(taken: seq<Range>, params: Params)
    requires Checks(params) && forall i :: 0 <= i < |taken| ==> taken[i].lo > WRAPPING.base
    ensures Admits(taken, params.(mmio := params.mmio + [WRAPPING])) <==>
            && Admits(taken, params)
            && forall k :: 0 <= k < |params.mmio| ==>
                 WRAPPING.base <= params.mmio[k].base || HoleSpan(params.mmio[k]).hi <= WRAPPING.base
  {
    var all, n := params.mmio + [WRAPPING], |params.mmio|;
    assert HoleSpan(WRAPPING) == Span(WRAPPING.base, 0, ABSENT);
    assert all[n] == WRAPPING && forall k :: 0 <= k < n ==> all[k] == params.mmio[k];
    if HolesClear(taken, all) {
      forall k | 0 <= k < n
        ensures WRAPPING.base <= params.mmio[k].base || HoleSpan(params.mmio[k]).hi <= WRAPPING.base
      {
        assert InTurn(HoleSpan(all[k]), HoleSpan(all[n]));
      }
    }
  }

  /** And then, if no aperture starts before it, nothing meets it. */
  lemma {:induction false} WrappingHoleBreaks(taken: seq<Range>, params: Params)
    requires params.memory > WRAPPING.base && forall i :: 0 <= i < |taken| ==> taken[i].lo > WRAPPING.base
    requires forall k :: 0 <= k < |params.mmio| ==> WRAPPING.base <= params.mmio[k].base
    ensures var more := params.(mmio := params.mmio + [WRAPPING]);
            !Settles(taken, more) && !MapSettles(taken, more)
  {
    var more := params.(mmio := params.mmio + [WRAPPING]);
    var claims, n := ClaimList(taken, more.mmio), |taken| + |params.mmio|;
    assert claims[n] == HoleSpan(more.mmio[|params.mmio|]) == Span(WRAPPING.base, 0, ABSENT);
    forall j | 0 <= j < |claims|
      ensures WRAPPING.base <= claims[j].lo
    {
      ClaimOf(taken, more.mmio, j);
    }
    assert !HarmlessAt(claims, n, params.memory) && !MapHarmlessAt(claims, n, params.memory);
  }
}
