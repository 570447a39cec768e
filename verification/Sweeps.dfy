/** The two loops over the sorted spans: the E820 map and the accept list, for any map at all. */
module Sweeps {
  import opened Layout
  import opened Placement
  import opened Wrapping

  method Push(out: seq<Entry>, base: int, end: int, kind: int) returns (r: seq<Entry>)
    ensures r == PushOn(out, base, end, kind)
  {
    if base >= end {
      return out;
    }
    var n := |out|;
    if n > 0 && out[n - 1].base + out[n - 1].size == base && out[n - 1].kind == kind {
      var last := out[n - 1];
      r := out[n - 1 := Entry(last.base, last.size + (end - base), kind)];
    } else {
      r := out + [Entry(base, end - base, kind)];
    }
  }

  /** The gap before a span as RAM, then the span, unless it is to be absent. */
  method PushSpan(out: seq<Entry>, s: Span, at: int, memory: int) returns (r: seq<Entry>)
    ensures r == SweepSpan(out, s, at, memory)
  {
    r := Push(out, at, s.lo, RAM);
    if s.kind != ABSENT {
      r := Push(r, if s.lo > at then s.lo else at, if s.hi < memory then s.hi else memory, s.kind);
    }
  }

  lemma {:induction false} SweepTurn(out: seq<Entry>, spans: seq<Span>, i: nat, at: int, memory: int)
    requires i < |spans| && spans[i].lo < memory
    ensures SweepFrom(out, spans[i..], at, memory) ==
            SweepFrom(SweepSpan(out, spans[i], at, memory), spans[i + 1..], Cursor(spans[i], at), memory)
  {
    assert spans[i..][1..] == spans[i + 1..];
  }

  method E820(placed: seq<Placed>, memory: U64) returns (out: seq<Entry>)
    ensures out == E820List(Spans(placed), memory)
    ensures NoFullTurn(placed) ==> (IsE820(out, placed, memory) <==> MapHarmless(SpanList(placed), memory))
    ensures NoWrap(placed) ==> IsE820(out, placed, memory)
    ensures |out| <= 2 * |placed| + 1
    ensures InBounds(out, memory)
  {
    var spans := Spans(placed);
    out := [];
    var at, i := 0, 0;
    assert spans[0..] == spans;
    while i < |spans| && spans[i].lo < memory
      invariant 0 <= i <= |spans|
      invariant SweepFrom(out, spans[i..], at, memory) == E820List(spans, memory)
    {
      SweepTurn(out, spans, i, at, memory);
      out := PushSpan(out, spans[i], at, memory);
      at := if spans[i].hi > at then spans[i].hi else at;
      i := i + 1;
    }
    out := Push(out, at, memory, RAM);
    E820Facts(placed, memory);
  }

  lemma {:induction false} E820Facts(placed: seq<Placed>, memory: U64)
    ensures var out := E820List(Spans(placed), memory);
            && (NoFullTurn(placed) ==> (IsE820(out, placed, memory) <==> MapHarmless(SpanList(placed), memory)))
            && (NoWrap(placed) ==> IsE820(out, placed, memory))
            && |out| <= 2 * |placed| + 1 && InBounds(out, memory)
  {
    SpansBounded(placed);
    SweepKeepsBounds([], Spans(placed), 0, memory);
    if NoFullTurn(placed) {
      E820ListIff(placed, memory);
    }
    if NoWrap(placed) {
      NoWrapOrdered(placed);
      E820ListIs(Spans(placed), memory);
    }
  }

  method AcceptRanges(placed: seq<Placed>, memory: U64) returns (out: seq<Range>)
    ensures out == AcceptList(Spans(placed), memory)
    ensures forall a :: InRanges(out, a) <==> 0 <= a < memory && !Claimed(Spans(placed), a)
    ensures NoFullTurn(placed) ==> (IsAcceptList(out, placed, memory) <==> Harmless(SpanList(placed), memory))
    ensures NonEmptySpans(Spans(placed)) ==> IsAcceptList(out, placed, memory)
    ensures |out| <= |placed| + 1
    ensures forall r :: r in out ==> 0 <= r.lo < r.hi <= memory
  {
    var raw := CollectGaps(Spans(placed), memory);
    out := Retain(raw);
    AcceptListIsFree(Spans(placed), memory);
    if NoFullTurn(placed) {
      AcceptListIff(placed, memory);
    }
  }

  /** The loop: each gap pushed, the cursor moved past each span. */
  method CollectGaps(spans: seq<Span>, memory: int) returns (raw: seq<Range>)
    ensures raw == Gaps(spans, 0, memory) && |raw| <= |spans| + 1
  {
    raw := [];
    var at := 0;
    assert spans[0..] == spans;
    for i := 0 to |spans|
      invariant |raw| <= i && raw + Gaps(spans[i..], at, memory) == Gaps(spans, 0, memory)
    {
      GapsTurn(raw, spans, i, at, memory);
      var lo, hi := spans[i].lo, spans[i].hi;
      if lo > at {
        raw := raw + [Range(at, if lo < memory then lo else memory)];
      }
      at := if hi > at then hi else at;
    }
    raw := raw + [Range(at, memory)];
  }
}
