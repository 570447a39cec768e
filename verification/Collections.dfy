/** Joining sequences, and counting the members of finite sets. */
module Collections {
  lemma {:induction false} ConcatAssoc<T>(a: seq<T>, b: seq<T>, c: seq<T>)
    ensures (a + b) + c == a + (b + c)
  {
  }

  lemma {:induction false} SplitLast<T>(s: seq<T>)
    requires s != []
    ensures s == s[..|s| - 1] + [s[|s| - 1]] && s[|s| - 1] in s
  {
  }

  lemma {:induction false} TailOfConcat<T>(a: seq<T>, b: seq<T>)
    requires a != []
    ensures (a + b)[0] == a[0] && (a + b)[1..] == a[1..] + b
  {
  }

  lemma {:induction false} SliceOfSlice<T>(s: seq<T>, a: nat, b: nat, lo: nat, hi: nat)
    requires a <= b <= |s| && lo <= hi <= b - a
    ensures s[a..b][lo..hi] == s[a + lo..a + hi]
  {
    var x, y := s[a..b][lo..hi], s[a + lo..a + hi];
    assert |x| == |y| && forall i :: 0 <= i < |x| ==> x[i] == s[a..b][lo + i] == s[a + lo + i] == y[i];
  }

  lemma {:induction false} SliceOfConcat<T>(a: seq<T>, b: seq<T>, lo: nat, hi: nat)
    requires lo <= hi <= |a|
    ensures (a + b)[lo..hi] == a[lo..hi] && (a + b)[|a|..|a| + |b|] == b
  {
  }

  lemma {:induction false} SliceOfTail<T>(a: seq<T>, b: seq<T>, lo: nat, hi: nat)
    requires lo <= hi <= |b|
    ensures (a + b)[|a| + lo..|a| + hi] == b[lo..hi]
  {
    var x, y := (a + b)[|a| + lo..|a| + hi], b[lo..hi];
    assert |x| == |y| && forall i :: 0 <= i < |x| ==> x[i] == (a + b)[|a| + lo + i] == y[i];
  }

  lemma {:induction false} TailMember<T>(a: seq<T>, b: seq<T>, i: nat)
    requires i < |b|
    ensures (a + b)[|a| + i] == b[i]
  {
  }

  lemma {:induction false} MiddleOfThree<T>(a: seq<T>, b: seq<T>, c: seq<T>)
    ensures (a + b + c)[|a|..|a| + |b|] == b && (a + b + c)[|a| + |b|..] == c
  {
    var all := a + b + c;
    assert all[|a| + |b|..] == c;
    assert all[|a|..|a| + |b|] == b;
  }

  ghost predicate Distinct<T>(s: seq<T>) {
    forall j, k :: 0 <= j < k < |s| ==> s[j] != s[k]
  }

  /** A sequence without repeats is no longer than one that has all its members. */
  lemma {:induction false} DistinctFits<T>(s: seq<T>, t: seq<T>)
    requires Distinct(s) && forall x :: x in s ==> x in t
    ensures |s| <= |t|
    decreases |s|
  {
    if s != [] {
      var n := |s| - 1;
      assert s[n] in t;
      var i :| 0 <= i < |t| && t[i] == s[n];
      var rest := t[..i] + t[i + 1..];
      forall x | x in s[..n]
        ensures x in rest
      {
        assert x in s && x in t;
        var k :| 0 <= k < |t| && t[k] == x;
        assert rest[if k < i then k else k - 1] == x;
      }
      DistinctFits(s[..n], rest);
    }
  }

  lemma {:induction false} SizesAdd<T>(x: set<T>, y: set<T>)
    requires forall a :: a in x ==> a !in y
    ensures |x + y| == |x| + |y|
  {
    assert x !! y;
  }

  lemma {:induction false} SizesAddUp<T>(x: set<T>, y: set<T>, z: set<T>)
    requires forall a :: a in z <==> a in x || a in y
    requires forall a :: a in x ==> a !in y
    ensures |z| == |x| + |y|
  {
    assert z == x + y;
    SizesAdd(x, y);
  }

  function Interval(lo: int, hi: int): (s: set<int>)
    ensures forall a :: a in s <==> lo <= a < hi
    decreases hi - lo
  {
    if lo >= hi then {} else Interval(lo, hi - 1) + {hi - 1}
  }

  lemma {:induction false} IntervalSize(lo: int, hi: int)
    requires lo <= hi
    ensures |Interval(lo, hi)| == hi - lo
    decreases hi - lo
  {
    if lo < hi {
      IntervalSize(lo, hi - 1);
      assert hi - 1 !in Interval(lo, hi - 1);
    }
  }
}
