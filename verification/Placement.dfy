/** The placement map and its derived views: spans, validation, E820 and the accept list. */
module Placement {
  import opened Wrappers
  import opened Layout
  import opened Bytes
  import opened Collections

  const RAM: U32 := 1
  const RESERVED: U32 := 2
  const ACPI: U32 := 3
  const ABSENT: U32 := 0

  /** Contents that are measured, a page the firmware fills, or an aperture of some size. */
  datatype Fill = Measured(data: Bytes) | Host | Mmio(size: U64)

  datatype Placed = Placed(base: U64, name: string, e820: U32, fill: Fill) {
    function Span(): (n: nat) {
      match fill
      case Measured(d) => if PageUp(|d|) < PAGE then PAGE else PageUp(|d|)
      case Host => PAGE
      case Mmio(n) => n
    }
  }

  function MeasuredAt(base: U64, name: string, e820: U32, data: Bytes): Placed {
    Placed(base, name, e820, Measured(data))
  }

  function HostAt(base: U64): Placed {
    Placed(base, "", RESERVED, Host)
  }

  function MmioAt(base: U64, size: U64): Placed {
    Placed(base, "", ABSENT, Mmio(size))
  }

  /** The addresses [lo, hi) a placed region claims, under its E820 type. */
  datatype Span = Span(lo: int, hi: int, kind: int)
  datatype Entry = Entry(base: int, size: int, kind: int)
  datatype Range = Range(lo: int, hi: int)

  datatype MapError =
    | Overlap(at: int)
    | Misaligned(base: int)
    | OutsideMemory(base: int)
    | NothingPlaced(base: int)
    | DoesNotFit(base: int)

  // ---------- spans: one per region, sorted as tuples ----------

  function SpanOf(p: Placed): Span {
    Span(p.base, AddU64(p.base, p.Span()), p.e820)
  }

  function SpanList(placed: seq<Placed>): (r: seq<Span>)
    ensures |r| == |placed| && forall i :: 0 <= i < |placed| ==> r[i] == SpanOf(placed[i])
  {
    seq(|placed|, i requires 0 <= i < |placed| => SpanOf(placed[i]))
  }

  predicate SpanLe(a: Span, b: Span) {
    a.lo < b.lo || (a.lo == b.lo && (a.hi < b.hi || (a.hi == b.hi && a.kind <= b.kind)))
  }

  predicate SortedSpans(s: seq<Span>) {
    forall i, j :: 0 <= i < j < |s| ==> SpanLe(s[i], s[j])
  }

  function InsertSpan(x: Span, s: seq<Span>): (r: seq<Span>)
    ensures multiset(r) == multiset{x} + multiset(s)
  {
    if s == [] || SpanLe(x, s[0]) then [x] + s
    else
      assert s == [s[0]] + s[1..];
      [s[0]] + InsertSpan(x, s[1..])
  }

  lemma {:induction false} InsertSorted(x: Span, s: seq<Span>)
    requires SortedSpans(s)
    ensures SortedSpans(InsertSpan(x, s))
  {
    if s != [] && !SpanLe(x, s[0]) {
      var t := InsertSpan(x, s[1..]);
      InsertSorted(x, s[1..]);
      forall j | 0 <= j < |t|
        ensures SpanLe(s[0], t[j])
      {
        assert t[j] in multiset(t);
        if t[j] != x {
          assert t[j] in multiset(s[1..]);
        }
      }
    }
  }

  function SortSpans(s: seq<Span>): (r: seq<Span>)
    ensures multiset(r) == multiset(s)
  {
    if s == [] then []
    else
      assert s == [s[0]] + s[1..];
      InsertSpan(s[0], SortSpans(s[1..]))
  }

  lemma {:induction false} SortSorted(s: seq<Span>)
    ensures SortedSpans(SortSpans(s)) && |SortSpans(s)| == |s|
  {
    assert |multiset(SortSpans(s))| == |multiset(s)|;
    if s != [] {
      SortSorted(s[1..]);
      InsertSorted(s[0], SortSpans(s[1..]));
    }
  }

  function Spans(placed: seq<Placed>): (r: seq<Span>)
    ensures SortedSpans(r) && |r| == |placed|
  {
    SortSorted(SpanList(placed));
    SortSpans(SpanList(placed))
  }

  lemma {:induction false} HeadIn(s: seq<Span>, t: seq<Span>)
    requires SortedSpans(t) && multiset(s) == multiset(t) && s != []
    ensures t != [] && SpanLe(t[0], s[0])
    ensures multiset(s[1..]) == multiset(s) - multiset{s[0]}
  {
    assert s[0] in multiset(t);
    assert s == [s[0]] + s[1..];
  }

  /** A sorted list is determined by what it holds, so the views ignore listing order. */
  lemma {:induction false} SortedUnique(s: seq<Span>, t: seq<Span>)
    requires SortedSpans(s) && SortedSpans(t)
    requires multiset(s) == multiset(t)
    ensures s == t
  {
    if s == [] {
      assert |multiset(t)| == 0;
    } else {
      HeadIn(s, t);
      HeadIn(t, s);
      SortedUnique(s[1..], t[1..]);
      assert s == [s[0]] + s[1..] && t == [t[0]] + t[1..];
    }
  }

  /** No region's end wraps past 2^64. */
  ghost predicate NoWrap(placed: seq<Placed>) {
    forall i :: 0 <= i < |placed| ==> placed[i].base + placed[i].Span() < U64_MODULUS
  }

  ghost predicate Ordered(spans: seq<Span>) {
    forall i :: 0 <= i < |spans| ==> 0 <= spans[i].lo <= spans[i].hi
  }

  lemma {:induction false} NoWrapOrdered(placed: seq<Placed>)
    requires NoWrap(placed)
    ensures Ordered(Spans(placed))
  {
    var list, spans := SpanList(placed), Spans(placed);
    forall i | 0 <= i < |spans|
      ensures 0 <= spans[i].lo <= spans[i].hi
    {
      assert spans[i] in multiset(list);
      var j :| 0 <= j < |list| && list[j] == spans[i];
      assert placed[j].base + placed[j].Span() < U64_MODULUS;
    }
  }

  predicate Covers(s: Span, a: int) { s.lo <= a < s.hi }

  // ---------- validation ----------

  ghost predicate AdjacentDisjoint(spans: seq<Span>) {
    forall i :: 0 <= i < |spans| - 1 ==> spans[i].hi <= spans[i + 1].lo
  }

  ghost predicate AlignedAndInside(placed: seq<Placed>, memory: int) {
    forall i :: 0 <= i < |placed| ==>
      PageAligned(placed[i].base) && (placed[i].base < memory || placed[i].base == RESET_ALIAS)
  }

  /** The first thing wrong: an overlapping neighbour, else a misaligned region or one outside memory. */
  ghost predicate Offends(e: MapError, placed: seq<Placed>, memory: int) {
    var spans := Spans(placed);
    match e
    case Overlap(at) =>
      exists i :: 0 <= i < |spans| - 1 && spans[i].hi > spans[i + 1].lo == at && AdjacentDisjoint(spans[..i + 1])
    case Misaligned(base) =>
      exists i :: 0 <= i < |placed| && placed[i].base == base && !PageAligned(base)
                  && AlignedAndInside(placed[..i], memory)
    case OutsideMemory(base) =>
      exists i :: 0 <= i < |placed| && placed[i].base == base >= memory && base != RESET_ALIAS && PageAligned(base)
                  && AlignedAndInside(placed[..i], memory)
    case _ => false
  }

  /** Its first loop: neighbours in sorted order. */
  method CheckNeighbours(spans: seq<Span>) returns (bad: Option<nat>)
    ensures bad.None? <==> AdjacentDisjoint(spans)
    ensures bad.Some? ==>
              && bad.value < |spans| - 1 && spans[bad.value].hi > spans[bad.value + 1].lo
              && AdjacentDisjoint(spans[..bad.value + 1])
  {
    for i := 0 to |spans| - (if |spans| == 0 then 0 else 1)
      invariant forall j :: 0 <= j < i ==> spans[j].hi <= spans[j + 1].lo
    {
      if spans[i].hi > spans[i + 1].lo {
        return Some(i);
      }
    }
    return None;
  }

  /** Its second: each base. */
  method CheckBases(placed: seq<Placed>, memory: U64) returns (r: Result<(), MapError>)
    ensures r.Ok? <==> AlignedAndInside(placed, memory)
    ensures r.Err? ==> !r.error.Overlap? && Offends(r.error, placed, memory)
  {
    for i := 0 to |placed|
      invariant AlignedAndInside(placed[..i], memory)
    {
      var p := placed[i];
      if !PageAligned(p.base) {
        return Err(Misaligned(p.base));
      }
      if p.base >= memory && p.base != RESET_ALIAS {
        return Err(OutsideMemory(p.base));
      }
    }
    assert placed[..|placed|] == placed;
    return Ok(());
  }

  method Validate(placed: seq<Placed>, memory: U64) returns (r: Result<(), MapError>)
    ensures r.Ok? <==> AdjacentDisjoint(Spans(placed)) && AlignedAndInside(placed, memory)
    ensures r.Err? && r.error.Overlap? <==> !AdjacentDisjoint(Spans(placed))
    ensures r.Err? ==> Offends(r.error, placed, memory)
  {
    var spans := Spans(placed);
    var bad := CheckNeighbours(spans);
    if bad.Some? {
      return Err(Overlap(spans[bad.value + 1].lo));
    }
    r := CheckBases(placed, memory);
  }

  // ---------- the E820 map ----------

  /** The type of the first span, in sorted order, that covers `a`; RAM where none does. */
  function FirstKind(spans: seq<Span>, a: int): int {
    if spans == [] then RAM
    else if Covers(spans[0], a) then spans[0].kind
    else FirstKind(spans[1..], a)
  }

  function E820Meaning(spans: seq<Span>, memory: int, a: int): int {
    if 0 <= a < memory then FirstKind(spans, a) else ABSENT
  }

  /** The type an E820 list gives an address, ABSENT where it has no entry. */
  function Lookup(out: seq<Entry>, a: int): int {
    if out == [] then ABSENT
    else
      var last := out[|out| - 1];
      if last.base <= a < last.base + last.size then last.kind else Lookup(out[..|out| - 1], a)
  }

  function EndOf(out: seq<Entry>): int {
    if out == [] then 0 else out[|out| - 1].base + out[|out| - 1].size
  }

  /** Ascending, non-empty, and with no two touching entries of one type. */
  ghost predicate Canonical(out: seq<Entry>) {
    && (forall i :: 0 <= i < |out| ==> out[i].base >= 0 && out[i].size > 0 && out[i].kind != ABSENT)
    && (forall i :: 0 <= i < |out| - 1 ==> Before(out[i], out[i + 1]))
  }

  predicate Before(e: Entry, f: Entry) {
    e.base + e.size < f.base || (e.base + e.size == f.base && e.kind != f.kind)
  }

  ghost predicate IsE820(out: seq<Entry>, placed: seq<Placed>, memory: int) {
    Canonical(out) && forall a :: Lookup(out, a) == E820Meaning(Spans(placed), memory, a)
  }

  /** Entries inside [0, memory), whatever the map. */
  ghost predicate InBounds(out: seq<Entry>, memory: int) {
    forall e :: e in out ==> 0 <= e.base && 0 < e.size && e.base + e.size <= memory && 0 <= e.kind < 0x1_0000_0000
  }

  lemma {:induction false} SpansBounded(placed: seq<Placed>)
    ensures SpansFit(Spans(placed))
  {
    forall s | s in Spans(placed)
      ensures 0 <= s.lo && 0 <= s.hi && 0 <= s.kind < 0x1_0000_0000
    {
      assert s in multiset(SpanList(placed));
    }
  }

  lemma {:induction false} LookupPastEnd(out: seq<Entry>, a: int)
    requires Canonical(out) && a >= EndOf(out)
    ensures Lookup(out, a) == ABSENT
  {
    if out != [] {
      LookupPastEnd(out[..|out| - 1], a);
    }
  }

  /** What `push` makes of a canonical list it extends. */
  ghost predicate Pushed(out: seq<Entry>, r: seq<Entry>, base: int, end: int, kind: int) {
    && Canonical(r)
    && EndOf(r) == (if base < end then end else EndOf(out))
    && forall a :: Lookup(r, a) == if base <= a < end then kind else Lookup(out, a)
  }

  lemma {:induction false} LastGrows(out: seq<Entry>, end: int)
    requires Canonical(out) && out != [] && EndOf(out) < end
    ensures var n := |out| - 1;
            var e := out[n];
            Pushed(out, out[n := Entry(e.base, end - e.base, e.kind)], EndOf(out), end, e.kind)
  {
    var n := |out| - 1;
    var e, base := out[n], EndOf(out);
    var r := out[n := Entry(e.base, end - e.base, e.kind)];
    assert r[..n] == out[..n];
    forall a | base <= a < end
      ensures Lookup(out, a) == ABSENT
    {
      LookupPastEnd(out, a);
    }
    if n > 0 {
      assert Before(out[n - 1], out[n]);
    }
  }

  lemma {:induction false} EntryAppends(out: seq<Entry>, base: int, end: int, kind: int)
    requires Canonical(out) && EndOf(out) <= base && 0 <= base < end && kind != ABSENT
    requires out != [] && EndOf(out) == base ==> out[|out| - 1].kind != kind
    ensures Pushed(out, out + [Entry(base, end - base, kind)], base, end, kind)
  {
    var r := out + [Entry(base, end - base, kind)];
    assert r[..|out|] == out;
    if out != [] {
      assert Before(out[|out| - 1], r[|out|]);
    }
  }

  /** `push`: nothing for an empty extent, the last entry grown where it continues in kind, else one more. */
  function PushOn(out: seq<Entry>, base: int, end: int, kind: int): (r: seq<Entry>)
    ensures |out| <= |r| <= |out| + 1
  {
    var n := |out|;
    if base >= end then out
    else if n > 0 && out[n - 1].base + out[n - 1].size == base && out[n - 1].kind == kind
    then out[n - 1 := Entry(out[n - 1].base, out[n - 1].size + (end - base), kind)]
    else out + [Entry(base, end - base, kind)]
  }

  lemma {:induction false} PushKeepsBounds(out: seq<Entry>, base: int, end: int, kind: int, memory: int)
    requires InBounds(out, memory) && 0 <= base && end <= memory && 0 <= kind < 0x1_0000_0000
    ensures InBounds(PushOn(out, base, end, kind), memory)
  {
    if out != [] {
      assert out[|out| - 1] in out;
    }
  }

  lemma {:induction false} PushIsPushed(out: seq<Entry>, base: int, end: int, kind: int)
    requires Canonical(out) && EndOf(out) <= base && 0 <= base && kind != ABSENT
    ensures Pushed(out, PushOn(out, base, end, kind), base, end, kind)
  {
    var n := |out|;
    if base < end {
      if n > 0 && EndOf(out) == base && out[n - 1].kind == kind {
        LastGrows(out, end);
      } else {
        EntryAppends(out, base, end, kind);
      }
    }
  }

  lemma {:induction false} FirstKindAt(spans: seq<Span>, i: nat, a: int)
    requires i <= |spans|
    requires forall j :: 0 <= j < i ==> !Covers(spans[j], a)
    requires i < |spans| ==> Covers(spans[i], a)
    ensures FirstKind(spans, a) == if i < |spans| then spans[i].kind else RAM
  {
    if i > 0 {
      FirstKindAt(spans[1..], i - 1, a);
    }
  }

  /** A gap of the sweep, before every span still to come, is RAM. */
  lemma {:induction false} GapIsRam(spans: seq<Span>, i: nat, at: int, a: int)
    requires SortedSpans(spans) && i <= |spans|
    requires forall j :: 0 <= j < i ==> spans[j].hi <= at
    requires at <= a && (i < |spans| ==> a < spans[i].lo)
    ensures FirstKind(spans, a) == RAM
  {
    forall j | 0 <= j < |spans|
      ensures !Covers(spans[j], a)
    {
      if j > i {
        assert SpanLe(spans[i], spans[j]);
      }
    }
    FirstKindAt(spans, |spans|, a);
  }

  /** Everything below the cursor `at` is settled, nothing at or past it is listed. */
  ghost predicate Swept(out: seq<Entry>, spans: seq<Span>, memory: int, at: int) {
    && Canonical(out)
    && EndOf(out) <= at
    && (forall a :: a < at && a < memory ==> Lookup(out, a) == E820Meaning(spans, memory, a))
    && (forall a :: a >= at || a >= memory ==> Lookup(out, a) == ABSENT)
  }

  /** The two pushes one span gives rise to. */
  function SweepSpan(out: seq<Entry>, s: Span, at: int, memory: int): (r: seq<Entry>)
    ensures |r| <= |out| + 2
  {
    var mid := PushOn(out, at, s.lo, RAM);
    if s.kind == ABSENT then mid
    else PushOn(mid, if s.lo > at then s.lo else at, if s.hi < memory then s.hi else memory, s.kind)
  }

  /** The sweep from a cursor, for any spans at all: it stops at the first that starts past `memory`. */
  function SweepFrom(out: seq<Entry>, spans: seq<Span>, at: int, memory: int): (r: seq<Entry>)
    ensures |r| <= |out| + 2 * |spans| + 1
    decreases |spans|
  {
    if spans == [] || spans[0].lo >= memory then PushOn(out, at, memory, RAM)
    else SweepFrom(SweepSpan(out, spans[0], at, memory), spans[1..], Cursor(spans[0], at), memory)
  }

  function E820List(spans: seq<Span>, memory: int): seq<Entry> { SweepFrom([], spans, 0, memory) }

  predicate SpansFit(spans: seq<Span>) {
    forall s :: s in spans ==> 0 <= s.lo && 0 <= s.hi && 0 <= s.kind < 0x1_0000_0000
  }

  lemma {:induction false} SpanKeepsBounds(out: seq<Entry>, s: Span, at: int, memory: int)
    requires InBounds(out, memory) && 0 <= at && 0 <= s.lo < memory && 0 <= s.kind < 0x1_0000_0000
    ensures InBounds(SweepSpan(out, s, at, memory), memory)
  {
    PushKeepsBounds(out, at, s.lo, RAM, memory);
    if s.kind != ABSENT {
      PushKeepsBounds(PushOn(out, at, s.lo, RAM), if s.lo > at then s.lo else at,
                      if s.hi < memory then s.hi else memory, s.kind, memory);
    }
  }

  lemma {:induction false} SweepKeepsBounds(out: seq<Entry>, spans: seq<Span>, at: int, memory: int)
    requires SpansFit(spans) && InBounds(out, memory) && 0 <= at
    ensures InBounds(SweepFrom(out, spans, at, memory), memory)
    decreases |spans|
  {
    if spans == [] || spans[0].lo >= memory {
      PushKeepsBounds(out, at, memory, RAM, memory);
    } else {
      assert spans[0] in spans && forall s :: s in spans[1..] ==> s in spans;
      SpanKeepsBounds(out, spans[0], at, memory);
      SweepKeepsBounds(SweepSpan(out, spans[0], at, memory), spans[1..], Cursor(spans[0], at), memory);
    }
  }

  /** The sweep has settled everything before its `i`-th span. */
  ghost predicate SweptTo(out: seq<Entry>, spans: seq<Span>, i: nat, at: int, memory: int) {
    && i <= |spans| && 0 <= at && EndOf(out) <= memory && Swept(out, spans, memory, at)
    && forall j :: 0 <= j < i ==> spans[j].hi <= at
  }

  lemma {:induction false} SpanSwept(out: seq<Entry>, spans: seq<Span>, i: nat, at: int, memory: int)
    requires SortedSpans(spans) && Ordered(spans) && i < |spans| && spans[i].lo < memory
    requires SweptTo(out, spans, i, at, memory)
    ensures SweptTo(SweepSpan(out, spans[i], at, memory), spans, i + 1, Cursor(spans[i], at), memory)
  {
    var s := spans[i];
    var mid := PushOn(out, at, s.lo, RAM);
    PushIsPushed(out, at, s.lo, RAM);
    if s.kind != ABSENT {
      PushIsPushed(mid, if s.lo > at then s.lo else at, if s.hi < memory then s.hi else memory, s.kind);
    }
    SweepStep(out, mid, SweepSpan(out, s, at, memory), spans, i, memory, at);
  }

  lemma {:induction false} SweepIsE820(out: seq<Entry>, spans: seq<Span>, i: nat, at: int, memory: int)
    requires SortedSpans(spans) && Ordered(spans) && SweptTo(out, spans, i, at, memory)
    ensures var r := SweepFrom(out, spans[i..], at, memory);
            Canonical(r) && forall a :: Lookup(r, a) == E820Meaning(spans, memory, a)
    decreases |spans| - i
  {
    if i == |spans| || spans[i].lo >= memory {
      PushIsPushed(out, at, memory, RAM);
      SweepEnd(out, PushOn(out, at, memory, RAM), spans, i, memory, at);
    } else {
      SpanSwept(out, spans, i, at, memory);
      assert spans[i..][1..] == spans[i + 1..];
      SweepIsE820(SweepSpan(out, spans[i], at, memory), spans, i + 1, Cursor(spans[i], at), memory);
    }
  }

  /** For spans that do not wrap the sweep is the map: canonical, and meaning what the spans do. */
  lemma {:induction false} E820ListIs(spans: seq<Span>, memory: int)
    requires SortedSpans(spans) && Ordered(spans) && memory >= 0
    ensures var r := E820List(spans, memory);
            Canonical(r) && forall a :: Lookup(r, a) == E820Meaning(spans, memory, a)
  {
    assert spans[0..] == spans;
    SweepIsE820([], spans, 0, 0, memory);
  }

  /** After the last span below `memory`, the rest is RAM and the map is complete. */
  lemma {:induction false} SweepEnd(swept: seq<Entry>, out: seq<Entry>, spans: seq<Span>, i: nat, memory: int, at: int)
    requires SortedSpans(spans) && i <= |spans| && (i < |spans| ==> spans[i].lo >= memory)
    requires 0 <= at && Swept(swept, spans, memory, at)
    requires forall j :: 0 <= j < i ==> spans[j].hi <= at
    requires forall a :: Lookup(out, a) == if at <= a < memory then RAM else Lookup(swept, a)
    ensures forall a :: Lookup(out, a) == E820Meaning(spans, memory, a)
  {
    forall a
      ensures Lookup(out, a) == E820Meaning(spans, memory, a)
    {
      if at <= a < memory {
        GapIsRam(spans, i, at, a);
      }
    }
  }

  /** One turn of the sweep: the gap before span `i` becomes RAM, the rest of it `kind`. */
  lemma {:induction false} SweepStep(before: seq<Entry>, mid: seq<Entry>, after: seq<Entry>,
                  spans: seq<Span>, i: nat, memory: int, at: int)
    requires SortedSpans(spans) && Ordered(spans) && i < |spans| && spans[i].lo < memory
    requires 0 <= at && EndOf(before) <= memory && Swept(before, spans, memory, at)
    requires forall j :: 0 <= j < i ==> spans[j].hi <= at
    requires Canonical(mid) && EndOf(mid) == if at < spans[i].lo then spans[i].lo else EndOf(before)
    requires forall a :: Lookup(mid, a) == if at <= a < spans[i].lo then RAM else Lookup(before, a)
    requires spans[i].kind == ABSENT ==> after == mid
    requires spans[i].kind != ABSENT ==>
               var lo := if spans[i].lo > at then spans[i].lo else at;
               var hi := if spans[i].hi < memory then spans[i].hi else memory;
               && Canonical(after)
               && EndOf(after) == (if lo < hi then hi else EndOf(mid))
               && forall a :: Lookup(after, a) == if lo <= a < hi then spans[i].kind else Lookup(mid, a)
    ensures var at' := if spans[i].hi > at then spans[i].hi else at;
            EndOf(after) <= memory && Swept(after, spans, memory, at')
  {
    var s := spans[i];
    var at' := if s.hi > at then s.hi else at;
    forall a | a < at' && a < memory
      ensures Lookup(after, a) == E820Meaning(spans, memory, a)
    {
      if a >= at {
        if a < s.lo {
          GapIsRam(spans, i, at, a);
        } else {
          FirstKindAt(spans, i, a);
        }
      }
    }
  }

  // ---------- the accept list ----------

  predicate InRanges(out: seq<Range>, a: int) {
    exists i :: 0 <= i < |out| && out[i].lo <= a < out[i].hi
  }

  predicate Claimed(spans: seq<Span>, a: int) {
    exists i :: 0 <= i < |spans| && Covers(spans[i], a)
  }

  /** Ascending non-empty ranges inside [0, memory), none touching the next. */
  ghost predicate Separated(out: seq<Range>, memory: int) {
    && (forall i :: 0 <= i < |out| ==> 0 <= out[i].lo < out[i].hi <= memory)
    && (forall i, j :: 0 <= i < j < |out| ==> out[i].hi < out[j].lo)
  }

  ghost predicate NonEmptySpans(spans: seq<Span>) {
    forall i :: 0 <= i < |spans| ==> 0 <= spans[i].lo < spans[i].hi
  }

  ghost predicate IsAcceptList(out: seq<Range>, placed: seq<Placed>, memory: int) {
    && Separated(out, memory)
    && forall a :: InRanges(out, a) <==> 0 <= a < memory && !Claimed(Spans(placed), a)
  }

  function Retain(out: seq<Range>): (r: seq<Range>)
    ensures |r| <= |out|
  {
    if out == [] then []
    else
      var rest := Retain(out[..|out| - 1]);
      var last := out[|out| - 1];
      if last.lo < last.hi then rest + [last] else rest
  }

  lemma {:induction false} RetainKeeps(out: seq<Range>)
    ensures forall r :: r in Retain(out) ==> r in out && r.lo < r.hi
    ensures forall a :: InRanges(Retain(out), a) <==> InRanges(out, a)
  {
    if out != [] {
      var n := |out| - 1;
      RetainKeeps(out[..n]);
      forall a
        ensures InRanges(Retain(out), a) <==> InRanges(out, a)
      {
        InRangesSnoc(out[..n], out[n], a);
        InRangesSnoc(Retain(out[..n]), out[n], a);
        assert out == out[..n] + [out[n]];
      }
    }
  }

  lemma {:induction false} InRangesSnoc(out: seq<Range>, last: Range, a: int)
    ensures InRanges(out + [last], a) <==> InRanges(out, a) || last.lo <= a < last.hi
  {
    var ext := out + [last];
    if InRanges(out, a) {
      var i :| 0 <= i < |out| && out[i].lo <= a < out[i].hi;
      assert ext[i] == out[i];
    }
    if last.lo <= a < last.hi {
      assert ext[|out|] == last;
    }
  }

  ghost predicate Spaced(out: seq<Range>) {
    forall i, j :: 0 <= i < j < |out| ==> out[i].hi < out[j].lo
  }

  lemma {:induction false} RetainSpaced(out: seq<Range>)
    requires Spaced(out)
    ensures Spaced(Retain(out))
  {
    if out != [] {
      var n := |out| - 1;
      RetainSpaced(out[..n]);
      RetainKeeps(out[..n]);
      forall i | 0 <= i < |Retain(out[..n])|
        ensures Retain(out[..n])[i].hi < out[n].lo
      {
        assert Retain(out[..n])[i] in out[..n];
      }
    }
  }

  /** The ranges collected once every span before `i` is passed: all the free bytes below the cursor. */
  ghost predicate Collected(raw: seq<Range>, spans: seq<Span>, memory: int, at: int, i: nat)
    requires i <= |spans|
  {
    && 0 <= at
    && (forall j :: 0 <= j < i ==> spans[j].hi <= at)
    && (forall r :: r in raw ==> 0 <= r.lo && r.hi <= memory)
    && (forall a :: 0 <= a < at && a < memory && !Claimed(spans, a) ==> InRanges(raw, a))
    && (forall a :: InRanges(raw, a) ==> a < memory && !Claimed(spans, a))
    && (NonEmptySpans(spans) ==> Spaced(raw) && forall j :: 0 <= j < |raw| ==> raw[j].hi < at)
  }

  /** One turn: the gap before span `i` is collected and the cursor moves past the span. */
  lemma {:induction false} CollectStep(before: seq<Range>, raw: seq<Range>, spans: seq<Span>, memory: int, at: int,
                                       i: nat)
    requires SortedSpans(spans) && i < |spans| && memory >= 0 && Collected(before, spans, memory, at, i)
    requires var lo := spans[i].lo;
             raw == if lo > at then before + [Range(at, if lo < memory then lo else memory)] else before
    ensures Collected(raw, spans, memory, if spans[i].hi > at then spans[i].hi else at, i + 1)
  {
    var lo, hi := spans[i].lo, spans[i].hi;
    forall a
      ensures InRanges(raw, a) <==> InRanges(before, a) || (at <= a < lo && a < memory)
      ensures at <= a < lo ==> !Claimed(spans, a)
      ensures lo <= a < hi ==> Claimed(spans, a)
    {
      if lo > at {
        InRangesSnoc(before, raw[|raw| - 1], a);
      }
      if at <= a < lo {
        GapIsFree(spans, i, at, a);
      }
      assert lo <= a < hi ==> Covers(spans[i], a);
    }
  }

  lemma {:induction false} CollectLast(swept: seq<Range>, spans: seq<Span>, memory: int, at: int)
    requires SortedSpans(spans) && memory >= 0 && Collected(swept, spans, memory, at, |spans|)
    ensures var raw := swept + [Range(at, memory)];
            && (forall r :: r in raw ==> 0 <= r.lo && r.hi <= memory)
            && (forall a :: 0 <= a < memory && !Claimed(spans, a) ==> InRanges(raw, a))
            && (forall a :: InRanges(raw, a) ==> a < memory && !Claimed(spans, a))
            && (NonEmptySpans(spans) ==> Spaced(raw))
  {
    forall a
      ensures InRanges(swept + [Range(at, memory)], a) <==> InRanges(swept, a) || at <= a < memory
      ensures at <= a ==> !Claimed(spans, a)
    {
      InRangesSnoc(swept, Range(at, memory), a);
      if at <= a {
        GapIsFree(spans, |spans|, at, a);
      }
    }
  }

  /** The gap a sweep leaves before a span, and where its cursor goes. */
  function Gap(s: Span, at: int, memory: int): seq<Range> {
    if s.lo > at then [Range(at, if s.lo < memory then s.lo else memory)] else []
  }

  function Cursor(s: Span, at: int): int { if s.hi > at then s.hi else at }

  /** Everything the sweep collects, for any spans at all. */
  function Gaps(spans: seq<Span>, at: int, memory: int): seq<Range> {
    if spans == [] then [Range(at, memory)]
    else Gap(spans[0], at, memory) + Gaps(spans[1..], Cursor(spans[0], at), memory)
  }

  lemma {:induction false} GapsTurn(raw: seq<Range>, spans: seq<Span>, i: nat, at: int, memory: int)
    requires i < |spans|
    ensures raw + Gaps(spans[i..], at, memory) ==
            (raw + Gap(spans[i], at, memory)) + Gaps(spans[i + 1..], Cursor(spans[i], at), memory)
  {
    assert spans[i..][1..] == spans[i + 1..];
    ConcatAssoc(raw, Gap(spans[i], at, memory), Gaps(spans[i + 1..], Cursor(spans[i], at), memory));
  }

  /** Exactly the free bytes, whatever the spans; none of them twice, where no span is empty or has wrapped. */
  ghost predicate IsFree(out: seq<Range>, spans: seq<Span>, memory: int) {
    && (forall a :: InRanges(out, a) <==> 0 <= a < memory && !Claimed(spans, a))
    && (NonEmptySpans(spans) ==> Separated(out, memory))
    && (forall r :: r in out ==> 0 <= r.lo < r.hi <= memory)
  }

  /** The last gap, and the empty ranges dropped. */
  lemma {:induction false} RetainAll(swept: seq<Range>, spans: seq<Span>, memory: int, at: int)
    requires SortedSpans(spans) && memory >= 0 && Collected(swept, spans, memory, at, |spans|)
    ensures IsFree(Retain(swept + [Range(at, memory)]), spans, memory)
  {
    var raw := swept + [Range(at, memory)];
    var out := Retain(raw);
    CollectLast(swept, spans, memory, at);
    RetainKeeps(raw);
    InRangesBounded(out, memory);
    if NonEmptySpans(spans) {
      RetainSpaced(raw);
    }
  }

  lemma {:induction false} GapsAreFree(raw: seq<Range>, spans: seq<Span>, i: nat, at: int, memory: int)
    requires SortedSpans(spans) && memory >= 0 && i <= |spans| && Collected(raw, spans, memory, at, i)
    ensures IsFree(Retain(raw + Gaps(spans[i..], at, memory)), spans, memory)
    decreases |spans| - i
  {
    if i == |spans| {
      RetainAll(raw, spans, memory, at);
    } else {
      CollectStep(raw, raw + Gap(spans[i], at, memory), spans, memory, at, i);
      GapsTurn(raw, spans, i, at, memory);
      GapsAreFree(raw + Gap(spans[i], at, memory), spans, i + 1, Cursor(spans[i], at), memory);
    }
  }

  function AcceptList(spans: seq<Span>, memory: int): seq<Range> { Retain(Gaps(spans, 0, memory)) }

  lemma {:induction false} AcceptListIsFree(spans: seq<Span>, memory: int)
    requires SortedSpans(spans) && memory >= 0
    ensures IsFree(AcceptList(spans, memory), spans, memory)
  {
    GapsAreFree([], spans, 0, 0, memory);
    assert spans[0..] == spans && [] + Gaps(spans, 0, memory) == Gaps(spans, 0, memory);
  }

  lemma {:induction false} InRangesBounded(out: seq<Range>, memory: int)
    requires forall r :: r in out ==> 0 <= r.lo && r.hi <= memory
    ensures forall a :: InRanges(out, a) ==> 0 <= a < memory
  {
    forall a | InRanges(out, a)
      ensures 0 <= a < memory
    {
      var i :| 0 <= i < |out| && out[i].lo <= a < out[i].hi;
      assert out[i] in out;
    }
  }

  lemma {:induction false} GapIsFree(spans: seq<Span>, i: nat, at: int, a: int)
    requires SortedSpans(spans) && i <= |spans|
    requires forall j :: 0 <= j < i ==> spans[j].hi <= at
    requires at <= a && (i < |spans| ==> a < spans[i].lo)
    ensures !Claimed(spans, a)
  {
    forall j | 0 <= j < |spans|
      ensures !Covers(spans[j], a)
    {
      if j > i {
        assert SpanLe(spans[i], spans[j]);
      }
    }
  }

  // ---------- filling a placed region ----------

  /** The index of the first region at `base`, or the length when there is none. */
  function FirstAt(placed: seq<Placed>, base: int): (i: nat)
    ensures i <= |placed|
    ensures forall j :: 0 <= j < i ==> placed[j].base != base
    ensures i < |placed| ==> placed[i].base == base
  {
    if placed == [] || placed[0].base == base then 0 else 1 + FirstAt(placed[1..], base)
  }

  method FillRegion(placed: array<Placed>, base: U64, data: Bytes) returns (r: Result<(), MapError>)
    modifies placed
    ensures var was, i := old(placed[..]), FirstAt(old(placed[..]), base);
            if i == |was| then r == Err(NothingPlaced(base)) && placed[..] == was
            else
              && placed[..] == was[i := was[i].(fill := Measured(data))]
              && r == if placed[i].Span() == was[i].Span() then Ok(()) else Err(DoesNotFit(base))
  {
    var i := 0;
    while i < placed.Length && placed[i].base != base
      invariant 0 <= i <= placed.Length
      invariant forall j :: 0 <= j < i ==> placed[j].base != base
    {
      i := i + 1;
    }
    FirstAtIs(placed[..], base, i);
    if i == placed.Length {
      return Err(NothingPlaced(base));
    }
    var span := placed[i].Span();
    placed[i] := placed[i].(fill := Measured(data));
    if placed[i].Span() != span {
      return Err(DoesNotFit(base));
    }
    return Ok(());
  }

  lemma {:induction false} FirstAtIs(placed: seq<Placed>, base: int, i: nat)
    requires i <= |placed|
    requires forall j :: 0 <= j < i ==> placed[j].base != base
    requires i < |placed| ==> placed[i].base == base
    ensures FirstAt(placed, base) == i
  {
    var k := FirstAt(placed, base);
    if k < i {
      assert false;
    }
    if i < k {
      assert false;
    }
  }
}
