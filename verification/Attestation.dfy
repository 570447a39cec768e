/** What a verifier learns from a digest: the guest that was loaded, and so the map its kernel is told of. */
module Attestation {
  import opened Layout
  import opened Bytes
  import opened Physical
  import opened Placement
  import opened Pages
  import opened Partition
  import opened ShimBlock
  import opened Params
  import opened Guest
  import opened Image
  import opened Launch
  import opened Loader
  import opened Admission
  import opened Requests
  import opened Build
  import opened Wrapping
  import opened EndToEnd
  import Measure = SnpMeasure
  import Mrtd

  /** Two lists a loader makes one guest of. */
  ghost predicate LoadAlike(x: seq<LaunchPage>, y: seq<LaunchPage>, blank: Memory) {
    && (forall q :: LoadedPages(x)(q) == LoadedPages(y)(q))
    && (forall a :: LoadedMemory(x, blank)(a) == LoadedMemory(y, blank)(a))
  }

  /** The part of two pages that is loaded is the same. */
  predicate SameLoad(p: LaunchPage, r: LaunchPage) {
    p.gpa == r.gpa && (p.kind == Normal <==> r.kind == Normal) && (p.kind == Normal ==> p.data == r.data)
  }

  lemma {:induction false} SameLoadsAlike(x: seq<LaunchPage>, y: seq<LaunchPage>, blank: Memory)
    requires |x| == |y| && forall i :: 0 <= i < |x| ==> SameLoad(x[i], y[i])
    ensures forall g :: Listed(x, g) <==> Listed(y, g)
    ensures forall a :: LoadedMemory(x, blank)(a) == LoadedMemory(y, blank)(a)
  {
    if x != [] {
      var n := |x| - 1;
      assert SameLoad(x[n], y[n]);
      SameLoadsAlike(x[..n], y[..n], blank);
    }
  }

  /** A launch list's pages are measured contents, or one of the two the firmware fills. */
  lemma {:induction false} KindsListed(placed: seq<Placed>)
    ensures forall p :: p in LaunchList(placed) ==> p.kind == Normal || p.kind == Secrets || p.kind == CpuidData
  {
    if placed != [] {
      var last := placed[|placed| - 1];
      KindsListed(placed[..|placed| - 1]);
      if last.fill.Measured? {
        DataIsNormal(last.base, last.fill.data);
      }
    }
  }

  lemma {:induction false} DataIsNormal(base: int, data: Bytes)
    ensures forall p :: p in PagesOfData(base, data) ==> p.kind == Normal
    decreases |data|
  {
    if |data| > PAGE {
      DataIsNormal(base + PAGE, data[PAGE..]);
    }
  }

  lemma {:induction false} SamePagesLoadAlike(s: seq<Placed>, t: seq<Placed>, blank: Memory)
    requires Measure.SamePages(LaunchList(s), LaunchList(t))
    ensures LoadAlike(LaunchList(s), LaunchList(t), blank)
  {
    var x, y := LaunchList(s), LaunchList(t);
    KindsListed(s);
    KindsListed(t);
    forall i | 0 <= i < |x|
      ensures SameLoad(x[i], y[i])
    {
      assert x[i] in x && y[i] in y && Measure.SamePage(x[i], y[i]);
    }
    SameLoadsAlike(x, y, blank);
  }

  lemma {:induction false} SameMeasuredLoadAlike(s: seq<Placed>, t: seq<Placed>, blank: Memory)
    requires Measure.Addressable(LaunchList(s)) && Measure.Addressable(LaunchList(t))
    requires AsMeasured(LaunchList(s)) == AsMeasured(LaunchList(t)) && NoHost(s) && NoHost(t)
    ensures LoadAlike(LaunchList(s), LaunchList(t), blank)
  {
    var x, y := LaunchList(s), LaunchList(t);
    NoHostIsNormal(s);
    NoHostIsNormal(t);
    forall i | 0 <= i < |x|
      ensures SameLoad(x[i], y[i])
    {
      assert x[i] in x && y[i] in y && AsMeasured(x)[i] == AsMeasured(y)[i];
    }
    SameLoadsAlike(x, y, blank);
  }

  lemma {:induction false} NoHostIsNormal(placed: seq<Placed>)
    requires NoHost(placed)
    ensures forall p :: p in LaunchList(placed) ==> p.kind == Normal
  {
    if placed != [] {
      var n := |placed| - 1;
      assert placed[n] in placed;
      NoHostIsNormal(placed[..n]);
      if placed[n].fill.Measured? {
        DataIsNormal(placed[n].base, placed[n].fill.data);
      }
    }
  }

  /** Regions two maps hold at one address have the same contents in guests loaded alike. */
  lemma {:induction false} SameContents(s: seq<Placed>, t: seq<Placed>, blank: Memory, base: int, data: Bytes,
                                        other: Bytes)
    requires Ascending(LaunchList(s)) && Ascending(LaunchList(t)) && LoadAlike(LaunchList(s), LaunchList(t), blank)
    requires HoldsAt(s, base, data) && HoldsAt(t, base, other) && |data| == |other|
    ensures data == other
  {
    LoaderLoadsMap(s, blank);
    LoaderLoadsMap(t, blank);
    var i: nat :| Holds(s, i, base, data);
    var j: nat :| Holds(t, j, base, other);
    var x, y := LaunchList(s), LaunchList(t);
    MeasuredLies(s, LoadedPages(x), LoadedMemory(x, blank), i, base, data);
    MeasuredLies(t, LoadedPages(y), LoadedMemory(y, blank), j, base, other);
    forall k | 0 <= k < |data|
      ensures data[k] == other[k]
    {
      assert LoadedMemory(x, blank)(base + k) == data[k] && LoadedMemory(y, blank)(base + k) == other[k];
    }
  }

  /** What two images have in common when their guests are loaded alike: both views their shim and kernel read. */
  ghost predicate TellTheSame(a: Assembled, c: Assembled) { a.e820 == c.e820 && a.ranges == c.ranges }

  lemma {:induction false} AlikeTellTheSame(a: Assembled, plan: Plan, blob: Bytes, c: Assembled, plan': Plan,
                                            blob': Bytes,
                                            blank: Memory)
    requires Decodes(a, plan, blob) && Decodes(c, plan', blob')
    requires Ascending(LaunchList(a.placed)) && Ascending(LaunchList(c.placed))
    requires HoldsAt(a.placed, ZERO_PAGE, a.zero) && HoldsAt(c.placed, ZERO_PAGE, c.zero)
    requires HoldsAt(a.placed, plan.shimBase, a.shim) && HoldsAt(c.placed, plan'.shimBase, c.shim)
    requires plan.shimBase == plan'.shimBase && LoadAlike(LaunchList(a.placed), LaunchList(c.placed), blank)
    ensures TellTheSame(a, c)
  {
    ShimRoundTrip(a.shim, blob, plan.entry, a.ranges);
    ShimRoundTrip(c.shim, blob', plan'.entry, c.ranges);
    SameContents(a.placed, c.placed, blank, ZERO_PAGE, a.zero, c.zero);
    SameContents(a.placed, c.placed, blank, plan.shimBase, a.shim, c.shim);
  }

  /**
   * Two SNP images with one digest, whatever their apertures, are loaded as one guest, with as many processors, whose
   * kernel is told of one E820 map and whose shim of one accept list; or here is what breaks the hash.
   */
  lemma {:induction false} SnpDigestFixesTheGuest(H: Measure.Hash, b: Built, q: Request, cbit: nat, k: Kit,
                                                  params: Params,
                                                  p: Prepared, c: Built, q': Request, cbit': nat, k': Kit,
                                                  params': Params, p': Prepared, blank: Memory)
    returns (e: Measure.Evidence)
    requires IsSnpImage(H, b, q, cbit, k, params, p) && IsSnpImage(H, c, q', cbit', k', params', p')
    requires b.digest == c.digest
    ensures if e.Same? then q.vcpus == q'.vcpus && LoadAlike(b.pages, c.pages, blank) && TellTheSame(b.a, c.a)
            else Measure.Breaks(H, e)
  {
    var v := Measure.VmsaPages(k.vmsas.bsp, k.vmsas.ap, params.vcpus);
    var w := Measure.VmsaPages(k'.vmsas.bsp, k'.vmsas.ap, params'.vcpus);
    e := Measure.DigestBinds(H, b.pages, v, c.pages, w);
    if e.Same? {
      SamePagesLoadAlike(b.a.placed, c.a.placed, blank);
      AlikeTellTheSame(b.a, SnpPlan(p), k.blob, c.a, SnpPlan(p'), k'.blob, blank);
    }
  }

  /** Two TDX images with one MRTD likewise; or their record streams collide. */
  lemma {:induction false} MrtdFixesTheGuest(H: Mrtd.Hash, b: Built, q: Request, k: Kit, params: Params, p: Prepared,
                                             c: Built, q': Request, k': Kit, params': Params, p': Prepared,
                                             blank: Memory)
    requires IsTdxImage(H, b, q, k, params, p) && IsTdxImage(H, c, q', k', params', p')
    requires b.digest == c.digest
    ensures var x, y := Mrtd.Stream(AsMeasured(b.pages)), Mrtd.Stream(AsMeasured(c.pages));
            (LoadAlike(b.pages, c.pages, blank) && TellTheSame(b.a, c.a)) || (x != y && H(x) == H(y))
  {
    var x, y := AsMeasured(b.pages), AsMeasured(c.pages);
    Mrtd.MrtdBinds(H, x, y);
    if x == y {
      SameMeasuredLoadAlike(b.a.placed, c.a.placed, blank);
      AlikeTellTheSame(b.a, TdxPlan(p), k.blob, c.a, TdxPlan(p'), k'.blob, blank);
    }
  }

  // ---------- images made with apertures that wrap ----------

  /** What an image tells its shim and its kernel is its map exactly where the apertures that wrap do no harm. */
  lemma {:induction false} TdxImageRightIff(H: Mrtd.Hash, b: Built, q: Request, k: Kit, params: Params, p: Prepared)
    requires MadeTdx(H, b, q, k, params, p)
    ensures IsAcceptList(b.a.ranges, b.a.placed, params.memory) <==> WrapsSettled(TdxGuest, q)
    ensures WrapsSettled(TdxGuest, q) ==> IsE820(b.a.e820, b.a.placed, params.memory)
  {
    SettledIffMade(TdxGuest, q, params, p);
    if WrapsSettled(TdxGuest, q) {
      HarmlessForBoth(ClaimList(TdxTaken(p), params.mmio), params.memory);
    }
  }

  lemma {:induction false} SnpImageRightIff(H: Measure.Hash, b: Built, q: Request, cbit: nat, k: Kit, params: Params,
                                            p: Prepared)
    requires MadeSnp(H, b, q, cbit, k, params, p)
    ensures IsAcceptList(b.a.ranges, b.a.placed, params.memory) <==> WrapsSettled(SnpGuest(cbit), q)
    ensures WrapsSettled(SnpGuest(cbit), q) ==> IsE820(b.a.e820, b.a.placed, params.memory)
  {
    SettledIffMade(SnpGuest(cbit), q, params, p);
    if WrapsSettled(SnpGuest(cbit), q) {
      HarmlessForBoth(ClaimList(SnpTaken(p), params.mmio), params.memory);
    }
  }
}
