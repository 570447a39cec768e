/** The pages a loader imports, in the order it imports them. */
module Pages {
  import opened Wrappers
  import opened Layout
  import opened Bytes
  import opened Placement

  datatype PageKind = Normal | Secrets | CpuidData | Other(code: U32)
  datatype LaunchPage = LaunchPage(gpa: int, data: Bytes, kind: PageKind)

  function Padded(chunk: Bytes): (r: Bytes)
    requires |chunk| <= PAGE
    ensures |r| == PAGE && r[..|chunk|] == chunk
    ensures forall i :: |chunk| <= i < PAGE ==> r[i] == 0
  {
    chunk + Zeros(PAGE - |chunk|)
  }

  /** Some contents cut into page-sized chunks, with zeroes filling out a short last one. */
  function PagesOfData(base: int, data: Bytes): (r: seq<LaunchPage>)
    ensures |r| == PageUp(|data|) / PAGE
    decreases |data|
  {
    if data == [] then []
    else if |data| <= PAGE then [LaunchPage(base, Padded(data), Normal)]
    else [LaunchPage(base, data[..PAGE], Normal)] + PagesOfData(base + PAGE, data[PAGE..])
  }

  function HostKind(base: int): PageKind {
    if base == SNP_CPUID then CpuidData else Secrets
  }

  function PagesOf(p: Placed): seq<LaunchPage> {
    match p.fill
    case Measured(data) => PagesOfData(p.base, data)
    case Host => [LaunchPage(p.base, Zeros(PAGE), HostKind(p.base))]
    case Mmio(_) => []
  }

  function LaunchList(placed: seq<Placed>): seq<LaunchPage> {
    if placed == [] then [] else LaunchList(placed[..|placed| - 1]) + PagesOf(placed[|placed| - 1])
  }

  lemma {:induction false} LaunchSnoc(placed: seq<Placed>, i: nat)
    requires i < |placed|
    ensures LaunchList(placed[..i + 1]) == LaunchList(placed[..i]) + PagesOf(placed[i])
  {
    assert placed[..i + 1][..i] == placed[..i];
  }

  ghost predicate NoHost(placed: seq<Placed>) {
    forall p :: p in placed ==> !p.fill.Host?
  }

  lemma {:induction false} NoHostSnoc(placed: seq<Placed>, i: nat)
    requires i < |placed|
    ensures NoHost(placed[..i + 1]) <==> NoHost(placed[..i]) && !placed[i].fill.Host?
    ensures NoHost(placed) ==> !placed[i].fill.Host?
  {
    assert placed[..i + 1] == placed[..i] + [placed[i]];
  }

  /** The TDX list, which refuses a page only firmware could fill. */
  method TdxLaunchPages(placed: seq<Placed>) returns (r: Result<seq<LaunchPage>, int>)
    ensures r.Ok? <==> NoHost(placed)
    ensures r.Ok? ==> r.value == LaunchList(placed)
  {
    var out: seq<LaunchPage> := [];
    for i := 0 to |placed|
      invariant out == LaunchList(placed[..i]) && NoHost(placed[..i])
    {
      NoHostSnoc(placed, i);
      if placed[i].fill.Host? {
        return Err(placed[i].base);
      }
      LaunchSnoc(placed, i);
      out := AddMeasured(out, placed[i]);
    }
    assert placed[..|placed|] == placed;
    return Ok(out);
  }

  method AddMeasured(out: seq<LaunchPage>, p: Placed) returns (r: seq<LaunchPage>)
    requires !p.fill.Host?
    ensures r == out + PagesOf(p)
  {
    match p.fill
    case Measured(data) => r := out + PagesOfData(p.base, data);
    case Mmio(_) => r := out;
  }

  /** The SNP list, with the two firmware-filled pages in address order among the rest. */
  method SnpLaunchPages(placed: seq<Placed>) returns (out: seq<LaunchPage>)
    ensures out == LaunchList(placed)
  {
    out := [];
    for i := 0 to |placed|
      invariant out == LaunchList(placed[..i])
    {
      LaunchSnoc(placed, i);
      if placed[i].fill.Host? {
        out := AddSpecial(out, placed[i].base, if placed[i].base == SNP_CPUID then CpuidData else Secrets);
      } else {
        out := AddMeasured(out, placed[i]);
      }
    }
    assert placed[..|placed|] == placed;
  }

  method AddSpecial(out: seq<LaunchPage>, gpa: int, kind: PageKind) returns (r: seq<LaunchPage>)
    ensures r == out + [LaunchPage(gpa, Zeros(PAGE), kind)]
  {
    r := out + [LaunchPage(gpa, Zeros(PAGE), kind)];
  }

  lemma {:induction false} DataPagesWhole(base: int, data: Bytes)
    ensures forall p :: p in PagesOfData(base, data) ==> |p.data| == PAGE
    decreases |data|
  {
    if |data| > PAGE {
      DataPagesWhole(base + PAGE, data[PAGE..]);
    }
  }

  lemma {:induction false} PagesWhole(placed: seq<Placed>)
    ensures forall p :: p in LaunchList(placed) ==> |p.data| == PAGE
  {
    if placed != [] {
      var last := placed[|placed| - 1];
      PagesWhole(placed[..|placed| - 1]);
      if last.fill.Measured? {
        DataPagesWhole(last.base, last.fill.data);
      }
    }
  }

  // ---------- sorting by base ----------

  predicate SortedByBase(s: seq<Placed>) {
    forall i, j :: 0 <= i < j < |s| ==> s[i].base <= s[j].base
  }

  function InsertByBase(x: Placed, s: seq<Placed>): (r: seq<Placed>)
    ensures multiset(r) == multiset{x} + multiset(s)
  {
    if s == [] || x.base <= s[0].base then [x] + s
    else
      assert s == [s[0]] + s[1..];
      [s[0]] + InsertByBase(x, s[1..])
  }

  function SortByBase(s: seq<Placed>): (r: seq<Placed>)
    ensures multiset(r) == multiset(s)
  {
    if s == [] then []
    else
      assert s == [s[0]] + s[1..];
      InsertByBase(s[0], SortByBase(s[1..]))
  }

  lemma {:induction false} ConsSorted(x: Placed, t: seq<Placed>)
    requires SortedByBase(t) && forall y :: y in t ==> x.base <= y.base
    ensures SortedByBase([x] + t)
  {
  }

  lemma {:induction false} InsertMembers(x: Placed, s: seq<Placed>)
    ensures forall y :: y in InsertByBase(x, s) ==> y == x || y in s
  {
    forall y | y in InsertByBase(x, s)
      ensures y == x || y in s
    {
      assert y in multiset(InsertByBase(x, s));
      assert y != x ==> y in multiset(s);
    }
  }

  lemma {:induction false} InsertByBaseSorted(x: Placed, s: seq<Placed>)
    requires SortedByBase(s)
    ensures SortedByBase(InsertByBase(x, s))
  {
    if s != [] && x.base > s[0].base {
      var rest := s[1..];
      InsertByBaseSorted(x, rest);
      InsertMembers(x, rest);
      ConsSorted(s[0], InsertByBase(x, rest));
    } else {
      ConsSorted(x, s);
    }
  }

  lemma {:induction false} SortByBaseSorted(s: seq<Placed>)
    ensures SortedByBase(SortByBase(s)) && |SortByBase(s)| == |s|
  {
    assert |multiset(SortByBase(s))| == |multiset(s)|;
    if s != [] {
      SortByBaseSorted(s[1..]);
      InsertByBaseSorted(s[0], SortByBase(s[1..]));
    }
  }

  lemma {:induction false} SpanListCons(x: Placed, s: seq<Placed>)
    ensures multiset(SpanList([x] + s)) == multiset{SpanOf(x)} + multiset(SpanList(s))
  {
    assert SpanList([x] + s) == [SpanOf(x)] + SpanList(s);
  }

  lemma {:induction false} InsertByBaseSpans(x: Placed, s: seq<Placed>)
    ensures multiset(SpanList(InsertByBase(x, s))) == multiset{SpanOf(x)} + multiset(SpanList(s))
  {
    SpanListCons(x, s);
    if s != [] && x.base > s[0].base {
      InsertByBaseSpans(x, s[1..]);
      SpanListCons(s[0], InsertByBase(x, s[1..]));
      SpanListCons(s[0], s[1..]);
      assert s == [s[0]] + s[1..];
    }
  }

  /** Sorting the map moves regions without changing which spans it claims. */
  lemma {:induction false} SortByBaseSpans(s: seq<Placed>)
    ensures multiset(SpanList(SortByBase(s))) == multiset(SpanList(s))
  {
    if s != [] {
      SortByBaseSpans(s[1..]);
      InsertByBaseSpans(s[0], SortByBase(s[1..]));
      SpanListCons(s[0], s[1..]);
      assert s == [s[0]] + s[1..];
    }
  }
}
