/** The SNP launch digest, over an arbitrary hash: what a chain of page updates binds. */
module SnpMeasure {
  import opened Wrappers
  import opened Layout
  import opened Bytes
  import opened Collections
  import opened Pages
  import opened Partition

  const DIGEST_LEN := 48
  const PAGE_INFO_LEN := 112
  const PAGE_INFO_CONTENTS := 48
  const PAGE_INFO_LENGTH := 96
  const PAGE_INFO_TYPE := 98
  const PAGE_INFO_GPA := 104

  const PAGE_NORMAL: Byte := 1
  const PAGE_VMSA: Byte := 2
  const PAGE_SECRETS: Byte := 5
  const PAGE_CPUID: Byte := 6

  type Digest = d: Bytes | |d| == DIGEST_LEN witness Zeros(DIGEST_LEN)
  type Hash = Bytes -> Digest

  /** One SNP_LAUNCH_UPDATE: a page, the type the firmware stamps on it, and its contents. */
  datatype Update = Update(gpa: U64, kind: Byte, data: Bytes)

  function MeasureKind(kind: PageKind): (r: Byte)
    ensures r != PAGE_VMSA
  {
    match kind
    case Secrets => PAGE_SECRETS
    case CpuidData => PAGE_CPUID
    case _ => PAGE_NORMAL
  }

  predicate Hashed(kind: Byte) { kind == PAGE_NORMAL || kind == PAGE_VMSA }

  function Content(H: Hash, u: Update): Digest {
    if Hashed(u.kind) then H(u.data) else Zeros(DIGEST_LEN)
  }

  /** The PAGE_INFO structure one update digests. */
  function Info(before: Digest, content: Digest, kind: Byte, gpa: U64): (r: Bytes)
    ensures |r| == PAGE_INFO_LEN
  {
    before + content + Le(PAGE_INFO_LEN, 2) + [kind] + Zeros(5) + Le(gpa, 8)
  }

  /**
   * How the firmware reads a PAGE_INFO, byte by byte: the digest so far, that of the contents, the structure's own
   * length, the page's type, three permission masks and a flag byte that are zero, and the page's address.
   */
  ghost predicate IsPageInfo(m: Bytes, before: Digest, content: Digest, kind: Byte, gpa: U64) {
    && |m| == 112
    && m[0..48] == before
    && m[48..96] == content
    && m[96] == 112 && m[97] == 0
    && m[98] == kind
    && (forall i :: 99 <= i < 104 ==> m[i] == 0)
    && FromLe(m[104..112]) == gpa
  }

  lemma {:induction false} InfoParts(before: Digest, content: Digest, kind: Byte, gpa: U64)
    ensures var r := Info(before, content, kind, gpa);
            && r[0..48] == before && r[48..96] == content && r[96..98] == Le(PAGE_INFO_LEN, 2)
            && r[98..99] == [kind] && r[99..104] == Zeros(5) && r[104..112] == Le(gpa, 8)
  {
    var r, a, b := Info(before, content, kind, gpa), before + content, Le(PAGE_INFO_LEN, 2) + [kind] + Zeros(5);
    var c := Le(gpa, 8);
    assert r == a + b + c;
    MiddleOfThree(a, b, c);
    assert a[0..48] == before && a[48..96] == content;
    assert b[0..2] == Le(PAGE_INFO_LEN, 2) && b[2..3] == [kind] && b[3..8] == Zeros(5);
    SliceOfSlice(r, 96, 104, 0, 2);
    SliceOfSlice(r, 96, 104, 2, 3);
    SliceOfSlice(r, 96, 104, 3, 8);
  }

  lemma {:induction false} InfoReads(before: Digest, content: Digest, kind: Byte, gpa: U64)
    ensures IsPageInfo(Info(before, content, kind, gpa), before, content, kind, gpa)
  {
    var r := Info(before, content, kind, gpa);
    InfoParts(before, content, kind, gpa);
    LengthBytes();
    assert r[96] == r[96..98][0] && r[97] == r[96..98][1] && r[98] == r[98..99][0];
    assert forall i :: 99 <= i < 104 ==> r[i] == r[99..104][i - 99];
    LeRoundTrip64(gpa);
  }

  lemma {:induction false} LengthBytes()
    ensures Le(PAGE_INFO_LEN, 2) == [112, 0]
  {
  }

  /** No other message reads so. */
  lemma {:induction false} PageInfoUnique(m: Bytes, n: Bytes, before: Digest, content: Digest, kind: Byte, gpa: U64)
    requires IsPageInfo(m, before, content, kind, gpa) && IsPageInfo(n, before, content, kind, gpa)
    ensures m == n
  {
    LeOfFromLe(m[104..112]);
    LeOfFromLe(n[104..112]);
    forall i | 0 <= i < 112
      ensures m[i] == n[i]
    {
      assert i < 48 ==> m[i] == m[0..48][i] && n[i] == n[0..48][i];
      assert 48 <= i < 96 ==> m[i] == m[48..96][i - 48] && n[i] == n[48..96][i - 48];
      assert 104 <= i ==> m[i] == m[104..112][i - 104] && n[i] == n[104..112][i - 104];
    }
  }

  /** The digest after a list of updates. */
  function Chain(H: Hash, items: seq<Update>): Digest {
    if items == [] then Zeros(DIGEST_LEN)
    else
      var last := items[|items| - 1];
      H(Info(Chain(H, items[..|items| - 1]), Content(H, last), last.kind, last.gpa))
  }

  // ---------- the loops that compute it ----------

  /** A digest moved on by one update: the hash of a PAGE_INFO whose contents count for types 1 and 2 only. */
  ghost predicate Extends(H: Hash, before: Digest, after: Digest, kind: Byte, gpa: U64, page: Bytes) {
    exists m :: IsPageInfo(m, before, if kind == 1 || kind == 2 then H(page) else Zeros(48), kind, gpa) && after == H(m)
  }

  /** Five fields written front to back into a blank structure. */
  lemma {:induction false} InfoSpliced(before: Digest, content: Digest, kind: Byte, gpa: U64)
    ensures var s1 := Splice(Zeros(PAGE_INFO_LEN), 0, before);
            var s2 := Splice(s1, PAGE_INFO_CONTENTS, content);
            var s3 := Splice(s2, PAGE_INFO_LENGTH, Le(PAGE_INFO_LEN, 2));
            var s4 := Splice(s3, PAGE_INFO_TYPE, [kind]);
            Splice(s4, PAGE_INFO_GPA, Le(gpa, 8)) == Info(before, content, kind, gpa)
  {
    var a, b, c := before, before + content, before + content + Le(PAGE_INFO_LEN, 2);
    var d := c + [kind];
    NextField([], 112, a);
    NextField(a, 64, content);
    NextField(b, 16, Le(PAGE_INFO_LEN, 2));
    NextField(c, 14, [kind]);
    NextField(d + Zeros(5), 8, Le(gpa, 8));
    assert [] + Zeros(112) == Zeros(112) && [] + a + Zeros(64) == a + Zeros(64);
    assert d + Zeros(13) == d + Zeros(5) + Zeros(8);
    assert d + Zeros(5) + Le(gpa, 8) + Zeros(0) == Info(before, content, kind, gpa);
  }

  lemma {:induction false} NextField(head: Bytes, room: nat, x: Bytes)
    requires |x| <= room
    ensures Splice(head + Zeros(room), |head|, x) == head + x + Zeros(room - |x|)
  {
  }

  method Extend(H: Hash, before: Digest, gpa: U64, kind: Byte, page: Bytes) returns (r: Digest)
    ensures r == H(Info(before, Content(H, Update(gpa, kind, page)), kind, gpa))
    ensures Extends(H, before, r, kind, gpa, page)
  {
    var content: Digest := if kind == PAGE_NORMAL || kind == PAGE_VMSA then H(page) else Zeros(DIGEST_LEN);
    var info := new Byte[PAGE_INFO_LEN](_ => 0);
    assert info[..] == Zeros(PAGE_INFO_LEN);
    Put(info, 0, before);
    Put(info, PAGE_INFO_CONTENTS, content);
    Put(info, PAGE_INFO_LENGTH, Le(PAGE_INFO_LEN, 2));
    Put(info, PAGE_INFO_TYPE, [kind]);
    Put64(info, PAGE_INFO_GPA, gpa);
    InfoSpliced(before, content, kind, gpa);
    InfoReads(before, content, kind, gpa);
    r := H(info[..]);
  }

  predicate Addressable(pages: seq<LaunchPage>) {
    forall p :: p in pages ==> 0 <= p.gpa < U64_MODULUS
  }

  function PageUpdates(pages: seq<LaunchPage>): (r: seq<Update>)
    requires Addressable(pages)
    ensures |r| == |pages|
    ensures forall i :: 0 <= i < |r| ==> r[i] == Update(pages[i].gpa, MeasureKind(pages[i].kind), pages[i].data)
  {
    seq(|pages|, i requires 0 <= i < |pages| =>
      assert pages[i] in pages; Update(pages[i].gpa, MeasureKind(pages[i].kind), pages[i].data))
  }

  function VmsaUpdates(vmsas: seq<Bytes>): (r: seq<Update>)
    ensures |r| == |vmsas| && forall i :: 0 <= i < |r| ==> r[i] == Update(SNP_VMSA, PAGE_VMSA, vmsas[i])
  {
    seq(|vmsas|, i requires 0 <= i < |vmsas| => Update(SNP_VMSA, PAGE_VMSA, vmsas[i]))
  }

  /** The pages first, then one VMSA for each processor by index. */
  function Updates(pages: seq<LaunchPage>, vmsas: seq<Bytes>): seq<Update>
    requires Addressable(pages)
  {
    PageUpdates(pages) + VmsaUpdates(vmsas)
  }

  lemma {:induction false} ChainSnoc(H: Hash, items: seq<Update>, i: nat)
    requires i < |items|
    ensures Chain(H, items[..i + 1]) == H(Info(Chain(H, items[..i]), Content(H, items[i]), items[i].kind, items[i].gpa))
  {
    assert items[..i + 1][..i] == items[..i];
  }

  method MeasurePages(H: Hash, pages: seq<LaunchPage>) returns (digest: Digest)
    requires Addressable(pages)
    ensures digest == Chain(H, PageUpdates(pages))
  {
    ghost var items := PageUpdates(pages);
    digest := Zeros(DIGEST_LEN);
    for i := 0 to |pages|
      invariant digest == Chain(H, items[..i])
    {
      assert pages[i] in pages;
      ChainSnoc(H, items, i);
      digest := Extend(H, digest, pages[i].gpa, MeasureKind(pages[i].kind), pages[i].data);
    }
    assert items[..|items|] == items;
  }

  method MeasureVmsa(H: Hash, before: Digest, vmsa: Bytes, ghost items: seq<Update>, ghost k: nat)
    returns (digest: Digest)
    requires k < |items| && before == Chain(H, items[..k]) && items[k] == Update(SNP_VMSA, PAGE_VMSA, vmsa)
    ensures digest == Chain(H, items[..k + 1])
  {
    ChainSnoc(H, items, k);
    digest := Extend(H, before, SNP_VMSA, PAGE_VMSA, vmsa);
  }

  /** Updates whose last ones, from the `n`-th, are of these VMSAs. */
  ghost predicate EndsIn(items: seq<Update>, n: nat, vmsas: seq<Bytes>) {
    && n + |vmsas| == |items|
    && forall i :: 0 <= i < |vmsas| ==> items[n + i] == Update(SNP_VMSA, PAGE_VMSA, vmsas[i])
  }

  method MeasureVmsas(H: Hash, before: Digest, vmsas: seq<Bytes>, ghost items: seq<Update>, ghost n: nat)
    returns (digest: Digest)
    requires EndsIn(items, n, vmsas) && before == Chain(H, items[..n])
    ensures digest == Chain(H, items)
  {
    digest := before;
    ghost var k := n;
    for i := 0 to |vmsas|
      invariant k == n + i && digest == Chain(H, items[..k])
    {
      assert items[n + i] == Update(SNP_VMSA, PAGE_VMSA, vmsas[i]);
      digest := MeasureVmsa(H, digest, vmsas[i], items, k);
      k := k + 1;
    }
    assert items[..|items|] == items;
  }

  lemma {:induction false} UpdatesSplit(pages: seq<LaunchPage>, vmsas: seq<Bytes>)
    requires Addressable(pages)
    ensures EndsIn(Updates(pages, vmsas), |pages|, vmsas)
    ensures Updates(pages, vmsas)[..|pages|] == PageUpdates(pages)
  {
    JoinedEndsIn(PageUpdates(pages), vmsas);
  }

  lemma {:induction false} JoinedEndsIn(head: seq<Update>, vmsas: seq<Bytes>)
    ensures EndsIn(head + VmsaUpdates(vmsas), |head|, vmsas)
  {
    forall i | 0 <= i < |vmsas|
      ensures (head + VmsaUpdates(vmsas))[|head| + i] == Update(SNP_VMSA, PAGE_VMSA, vmsas[i])
    {
      TailMember(head, VmsaUpdates(vmsas), i);
    }
  }

  /** The type the firmware stamps on a page a loader imports. */
  ghost predicate Stamps(kind: PageKind, t: Byte) {
    t == if kind == Secrets then 5 else if kind == CpuidData then 6 else 1
  }

  /**
   * A launch as the firmware goes through it: from the blank digest, each page in turn under its type and address,
   * then each VMSA as type 2 at the one address VMSAs have.
   */
  ghost predicate Measures(H: Hash, chain: seq<Digest>, pages: seq<LaunchPage>, vmsas: seq<Bytes>) {
    && |chain| == |pages| + |vmsas| + 1 && chain[0] == Zeros(48)
    && forall i :: 0 <= i < |pages| + |vmsas| ==> MeasureStep(H, chain[i], chain[i + 1], pages, vmsas, i)
  }

  ghost predicate MeasureStep(H: Hash, before: Digest, after: Digest, pages: seq<LaunchPage>, vmsas: seq<Bytes>, i: nat)
    requires i < |pages| + |vmsas|
  {
    if i < |pages| then ExtendsByPage(H, before, after, pages[i])
    else ExtendsByVmsa(H, before, after, vmsas[i - |pages|])
  }

  ghost predicate ExtendsByPage(H: Hash, before: Digest, after: Digest, p: LaunchPage) {
    0 <= p.gpa < U64_MODULUS && exists t :: Stamps(p.kind, t) && Extends(H, before, after, t, p.gpa, p.data)
  }

  ghost predicate ExtendsByVmsa(H: Hash, before: Digest, after: Digest, vmsa: Bytes) {
    Extends(H, before, after, 2, 0xffff_ffff_f000, vmsa)
  }

  ghost predicate IsLaunchOf(H: Hash, digest: Digest, pages: seq<LaunchPage>, vmsas: seq<Bytes>) {
    exists chain :: Measures(H, chain, pages, vmsas) && digest == chain[|chain| - 1]
  }

  /** One update's step is the hash of its PAGE_INFO and nothing else. */
  lemma {:induction false} ExtendsIff(H: Hash, before: Digest, after: Digest, u: Update)
    ensures Extends(H, before, after, u.kind, u.gpa, u.data) <==> after == H(Info(before, Content(H, u), u.kind, u.gpa))
  {
    var content := Content(H, u);
    InfoReads(before, content, u.kind, u.gpa);
    if Extends(H, before, after, u.kind, u.gpa, u.data) {
      var m :| IsPageInfo(m, before, content, u.kind, u.gpa) && after == H(m);
      PageInfoUnique(m, Info(before, content, u.kind, u.gpa), before, content, u.kind, u.gpa);
    }
  }

  /** Whichever list the `i`-th update is from. */
  lemma {:induction false} StepIs(H: Hash, before: Digest, after: Digest, pages: seq<LaunchPage>, vmsas: seq<Bytes>,
                                  i: nat)
    requires Addressable(pages) && i < |pages| + |vmsas|
    ensures var u := Updates(pages, vmsas)[i];
            MeasureStep(H, before, after, pages, vmsas, i) <==>
            after == H(Info(before, Content(H, u), u.kind, u.gpa))
  {
    var u := Updates(pages, vmsas)[i];
    ExtendsIff(H, before, after, u);
    if i < |pages| {
      assert u == PageUpdates(pages)[i] && pages[i] in pages && Stamps(pages[i].kind, u.kind);
    } else {
      assert u == VmsaUpdates(vmsas)[i - |pages|];
    }
  }

  /** The digest after each prefix of a list. */
  function Prefixes(H: Hash, items: seq<Update>): (r: seq<Digest>)
    ensures |r| == |items| + 1 && forall i :: 0 <= i <= |items| ==> r[i] == Chain(H, items[..i])
  {
    seq(|items| + 1, i requires 0 <= i <= |items| => Chain(H, items[..i]))
  }

  lemma {:induction false} PrefixStep(H: Hash, pages: seq<LaunchPage>, vmsas: seq<Bytes>, i: nat)
    requires Addressable(pages) && i < |pages| + |vmsas|
    ensures var chain := Prefixes(H, Updates(pages, vmsas)); MeasureStep(H, chain[i], chain[i + 1], pages, vmsas, i)
  {
    var items := Updates(pages, vmsas);
    ChainSnoc(H, items, i);
    StepIs(H, Prefixes(H, items)[i], Prefixes(H, items)[i + 1], pages, vmsas, i);
  }

  lemma {:induction false} EndsOfPrefixes(H: Hash, items: seq<Update>)
    ensures Prefixes(H, items)[0] == Zeros(48) && Prefixes(H, items)[|items|] == Chain(H, items)
  {
    assert items[..0] == [] && items[..|items|] == items;
  }

  /** The digest computed is that of a launch... */
  lemma {:induction false} ChainMeasures(H: Hash, pages: seq<LaunchPage>, vmsas: seq<Bytes>)
    requires Addressable(pages)
    ensures IsLaunchOf(H, Chain(H, Updates(pages, vmsas)), pages, vmsas)
  {
    var chain := Prefixes(H, Updates(pages, vmsas));
    EndsOfPrefixes(H, Updates(pages, vmsas));
    forall i | 0 <= i < |pages| + |vmsas|
      ensures MeasureStep(H, chain[i], chain[i + 1], pages, vmsas, i)
    {
      PrefixStep(H, pages, vmsas, i);
    }
    assert Measures(H, chain, pages, vmsas);
  }

  lemma {:induction false} MeasuredSoFar(H: Hash, chain: seq<Digest>, pages: seq<LaunchPage>, vmsas: seq<Bytes>, i: nat)
    requires Addressable(pages) && Measures(H, chain, pages, vmsas) && i < |chain|
    ensures chain[i] == Chain(H, Updates(pages, vmsas)[..i])
  {
    if i > 0 {
      MeasuredSoFar(H, chain, pages, vmsas, i - 1);
      ChainSnoc(H, Updates(pages, vmsas), i - 1);
      StepIs(H, chain[i - 1], chain[i - 1 + 1], pages, vmsas, i - 1);
    }
  }

  lemma {:induction false} LastMeasured(H: Hash, chain: seq<Digest>, pages: seq<LaunchPage>, vmsas: seq<Bytes>)
    requires Addressable(pages) && Measures(H, chain, pages, vmsas)
    ensures chain[|chain| - 1] == Chain(H, Updates(pages, vmsas))
  {
    MeasuredSoFar(H, chain, pages, vmsas, |chain| - 1);
    assert Updates(pages, vmsas)[..|chain| - 1] == Updates(pages, vmsas);
  }

  /** ...and no launch of these pages and VMSAs has another. */
  lemma {:induction false} LaunchDigestIff(H: Hash, digest: Digest, pages: seq<LaunchPage>, vmsas: seq<Bytes>)
    requires Addressable(pages)
    ensures IsLaunchOf(H, digest, pages, vmsas) <==> digest == Chain(H, Updates(pages, vmsas))
  {
    ChainMeasures(H, pages, vmsas);
    if IsLaunchOf(H, digest, pages, vmsas) {
      var chain :| Measures(H, chain, pages, vmsas) && digest == chain[|chain| - 1];
      LastMeasured(H, chain, pages, vmsas);
    }
  }

  method LaunchMeasurement(H: Hash, pages: seq<LaunchPage>, vmsas: seq<Bytes>) returns (digest: Digest)
    requires Addressable(pages)
    ensures digest == Chain(H, Updates(pages, vmsas)) && IsLaunchOf(H, digest, pages, vmsas)
  {
    digest := MeasurePages(H, pages);
    UpdatesSplit(pages, vmsas);
    digest := MeasureVmsas(H, digest, vmsas, Updates(pages, vmsas), |pages|);
    ChainMeasures(H, pages, vmsas);
  }

  // ---------- what a digest binds ----------

  /** Either two lists agree where they are measured, or the hash has been broken, and how. */
  datatype Evidence = Same | Collision(a: Bytes, b: Bytes) | ZeroPreimage(m: Bytes)

  predicate Breaks(H: Hash, e: Evidence)
    requires !e.Same?
  {
    match e
    case Collision(a, b) => a != b && H(a) == H(b)
    case ZeroPreimage(m) => H(m) == Zeros(DIGEST_LEN)
  }

  predicate Alike(u: Update, v: Update) {
    u.gpa == v.gpa && u.kind == v.kind && (Hashed(u.kind) ==> u.data == v.data)
  }

  ghost predicate AlikeLists(x: seq<Update>, y: seq<Update>) {
    |x| == |y| && forall i :: 0 <= i < |x| ==> Alike(x[i], y[i])
  }

  lemma {:induction false} InfoInjective(b: Digest, c: Digest, k: Byte, g: U64, b': Digest, c': Digest, k': Byte,
                                         g': U64)
    requires Info(b, c, k, g) == Info(b', c', k', g')
    ensures b == b' && c == c' && k == k' && g == g'
  {
    var s, t := Info(b, c, k, g), Info(b', c', k', g');
    assert b == s[..48] && b' == t[..48];
    assert c == s[48..96] && c' == t[48..96];
    assert k == s[98] && k' == t[98];
    assert Le(g, 8) == s[104..] && Le(g', 8) == t[104..];
    LeInjective64(g, g');
  }

  lemma {:induction false} AlikeSnoc(x: seq<Update>, y: seq<Update>)
    requires x != [] && y != []
    requires AlikeLists(x[..|x| - 1], y[..|y| - 1]) && Alike(x[|x| - 1], y[|y| - 1])
    ensures AlikeLists(x, y)
  {
    forall i | 0 <= i < |x|
      ensures Alike(x[i], y[i])
    {
      if i < |x| - 1 {
        assert x[i] == x[..|x| - 1][i] && y[i] == y[..|y| - 1][i];
      }
    }
  }

  /** Two last updates with one PAGE_INFO agree, or their contents collide. */
  lemma {:induction false} LastBinds(H: Hash, u: Update, v: Update) returns (e: Evidence)
    requires u.kind == v.kind && u.gpa == v.gpa && Content(H, u) == Content(H, v)
    ensures if e.Same? then Alike(u, v) else Breaks(H, e)
  {
    e := if Hashed(u.kind) && u.data != v.data then Collision(u.data, v.data) else Same;
  }

  /** Equal digests mean updates that agree one by one, or an attack on the hash. */
  lemma {:induction false} ChainBinds(H: Hash, x: seq<Update>, y: seq<Update>) returns (e: Evidence)
    requires Chain(H, x) == Chain(H, y)
    ensures if e.Same? then AlikeLists(x, y) else Breaks(H, e)
    decreases |x|
  {
    if x == [] && y == [] {
      return Same;
    }
    if x == [] || y == [] {
      var z := if x == [] then y else x;
      var w := z[|z| - 1];
      return ZeroPreimage(Info(Chain(H, z[..|z| - 1]), Content(H, w), w.kind, w.gpa));
    }
    var x', y', u, v := x[..|x| - 1], y[..|y| - 1], x[|x| - 1], y[|y| - 1];
    var s := Info(Chain(H, x'), Content(H, u), u.kind, u.gpa);
    var t := Info(Chain(H, y'), Content(H, v), v.kind, v.gpa);
    if s != t {
      return Collision(s, t);
    }
    InfoInjective(Chain(H, x'), Content(H, u), u.kind, u.gpa, Chain(H, y'), Content(H, v), v.kind, v.gpa);
    e := ChainBinds(H, x', y');
    if e.Same? {
      e := LastBinds(H, u, v);
      if e.Same? {
        AlikeSnoc(x, y);
      }
    }
  }

  /** And nothing else is bound: lists that agree where they are measured have one digest. */
  lemma {:induction false} AlikeChains(H: Hash, x: seq<Update>, y: seq<Update>)
    requires AlikeLists(x, y)
    ensures Chain(H, x) == Chain(H, y)
    decreases |x|
  {
    if x != [] {
      var n := |x| - 1;
      assert Alike(x[n], y[n]);
      forall i | 0 <= i < n
        ensures Alike(x[..n][i], y[..n][i])
      {
        assert Alike(x[i], y[i]);
      }
      AlikeChains(H, x[..n], y[..n]);
    }
  }

  // ---------- pages and VMSAs ----------

  /** The measured part of a page: all of it, but for the contents of pages the firmware fills. */
  predicate SamePage(p: LaunchPage, q: LaunchPage) {
    && p.gpa == q.gpa && MeasureKind(p.kind) == MeasureKind(q.kind)
    && (MeasureKind(p.kind) == PAGE_NORMAL ==> p.data == q.data)
  }

  ghost predicate SamePages(x: seq<LaunchPage>, y: seq<LaunchPage>) {
    |x| == |y| && forall i :: 0 <= i < |x| ==> SamePage(x[i], y[i])
  }

  /** The first VMSA ends the pages, so lists with different numbers of pages differ there. */
  lemma {:induction false} MorePagesDiffer(x: seq<LaunchPage>, v: seq<Bytes>, y: seq<LaunchPage>, w: seq<Bytes>)
    requires Addressable(x) && Addressable(y) && |x| < |y|
    ensures !AlikeLists(Updates(x, v), Updates(y, w)) && !AlikeLists(Updates(y, w), Updates(x, v))
  {
    var a, b, n := Updates(x, v), Updates(y, w), |x|;
    assert b[n] == PageUpdates(y)[n] && b[n].kind != PAGE_VMSA;
    if v != [] {
      assert a[n] == VmsaUpdates(v)[0] && !Alike(a[n], b[n]) && !Alike(b[n], a[n]);
    }
  }

  lemma {:induction false} AlikeIsSame(x: seq<LaunchPage>, v: seq<Bytes>, y: seq<LaunchPage>, w: seq<Bytes>)
    requires Addressable(x) && Addressable(y)
    ensures AlikeLists(Updates(x, v), Updates(y, w)) <==> SamePages(x, y) && v == w
  {
    var a, b := Updates(x, v), Updates(y, w);
    if AlikeLists(a, b) {
      if |x| < |y| {
        MorePagesDiffer(x, v, y, w);
      } else if |y| < |x| {
        MorePagesDiffer(y, w, x, v);
      }
      forall i | 0 <= i < |x|
        ensures SamePage(x[i], y[i])
      {
        assert Alike(a[i], b[i]);
      }
      forall i | 0 <= i < |v|
        ensures v[i] == w[i]
      {
        assert Alike(a[|x| + i], b[|x| + i]);
      }
    }
    if SamePages(x, y) && v == w {
      forall i | 0 <= i < |a|
        ensures Alike(a[i], b[i])
      {
        if i < |x| {
          assert SamePage(x[i], y[i]);
        }
      }
    }
  }

  /** Equal launch digests mean the same pages, up to what the firmware fills, and the same VMSAs. */
  lemma {:induction false} DigestBinds(H: Hash, x: seq<LaunchPage>, v: seq<Bytes>, y: seq<LaunchPage>, w: seq<Bytes>)
    returns (e: Evidence)
    requires Addressable(x) && Addressable(y)
    ensures Chain(H, Updates(x, v)) == Chain(H, Updates(y, w)) ==>
              if e.Same? then SamePages(x, y) && v == w else Breaks(H, e)
  {
    e := Same;
    if Chain(H, Updates(x, v)) == Chain(H, Updates(y, w)) {
      e := ChainBinds(H, Updates(x, v), Updates(y, w));
      AlikeIsSame(x, v, y, w);
    }
  }

  /** The contents of SECRETS and CPUID pages are all the digest leaves open. */
  lemma {:induction false} DigestIgnoresFirmwarePages(H: Hash, x: seq<LaunchPage>, y: seq<LaunchPage>, v: seq<Bytes>)
    requires Addressable(x) && Addressable(y) && SamePages(x, y)
    ensures Chain(H, Updates(x, v)) == Chain(H, Updates(y, v))
  {
    AlikeIsSame(x, v, y, v);
    AlikeChains(H, Updates(x, v), Updates(y, v));
  }

  /** The VMSAs of a guest: one processor that boots, the others alike. */
  function VmsaPages(bsp: Bytes, ap: Bytes, vcpus: nat): (r: seq<Bytes>)
    requires vcpus > 0
    ensures |r| == vcpus && r[0] == bsp && forall i :: 1 <= i < vcpus ==> r[i] == ap
  {
    [bsp] + seq(vcpus - 1, _ => ap)
  }

  /** So a digest fixes how many processors were launched. */
  lemma {:induction false} DigestBindsVcpus(H: Hash, x: seq<LaunchPage>, y: seq<LaunchPage>, bsp: Bytes, ap: Bytes,
                                            m: nat, n: nat)
    returns (e: Evidence)
    requires Addressable(x) && Addressable(y) && m > 0 && n > 0
    requires Chain(H, Updates(x, VmsaPages(bsp, ap, m))) == Chain(H, Updates(y, VmsaPages(bsp, ap, n)))
    ensures if e.Same? then m == n && SamePages(x, y) else Breaks(H, e)
  {
    e := DigestBinds(H, x, VmsaPages(bsp, ap, m), y, VmsaPages(bsp, ap, n));
  }

  // ---------- the check before it ----------

  /** The first page that runs into the next one. */
  ghost predicate FirstMeeting(pages: seq<LaunchPage>, i: nat)
    requires i < |pages| - 1 && Addressable(pages)
  {
    && AddU64(pages[i].gpa, PAGE) > pages[i + 1].gpa
    && forall j :: 0 <= j < i ==> AddU64(pages[j].gpa, PAGE) <= pages[j + 1].gpa
  }

  /** `validate_pages`: neighbours at least a page apart, the sum taken as the release build does. */
  method ValidatePages(pages: seq<LaunchPage>) returns (r: Result<(), int>)
    requires Addressable(pages)
    ensures r.Ok? <==> forall i :: 0 <= i < |pages| - 1 ==> AddU64(pages[i].gpa, PAGE) <= pages[i + 1].gpa
    ensures Ascending(pages) ==> r.Ok?
    ensures r.Err? ==>
              exists i :: 0 <= i < |pages| - 1 && FirstMeeting(pages, i) && r.error == pages[i + 1].gpa
  {
    for i := 0 to |pages| - (if |pages| == 0 then 0 else 1)
      invariant forall j :: 0 <= j < i ==> AddU64(pages[j].gpa, PAGE) <= pages[j + 1].gpa
    {
      assert pages[i] in pages && pages[i + 1] in pages;
      if AddU64(pages[i].gpa, PAGE) > pages[i + 1].gpa {
        assert FirstMeeting(pages, i);
        return Err(pages[i + 1].gpa);
      }
    }
    return Ok(());
  }
}
