/** Several fields written into one buffer, none over another. */
module Writes {
  import opened Layout
  import opened Bytes
  import opened Collections

  datatype Write = Write(at: nat, data: Bytes) {
    function End(): nat { at + |data| }
  }

  ghost predicate Writable(ws: seq<Write>, len: nat) {
    forall i :: 0 <= i < |ws| ==> ws[i].End() <= len
  }

  ghost predicate Disjoint(ws: seq<Write>) {
    forall i, j :: 0 <= i < j < |ws| ==> ws[i].End() <= ws[j].at || ws[j].End() <= ws[i].at
  }

  /** No write of one list meets a write of the other. */
  ghost predicate Clear(xs: seq<Write>, ys: seq<Write>) {
    forall i, j :: 0 <= i < |xs| && 0 <= j < |ys| ==> xs[i].End() <= ys[j].at || ys[j].End() <= xs[i].at
  }

  lemma {:induction false} DisjointConcat(xs: seq<Write>, ys: seq<Write>)
    requires Disjoint(xs) && Disjoint(ys) && Clear(xs, ys)
    ensures Disjoint(xs + ys)
  {
    var all := xs + ys;
    forall i, j | 0 <= i < j < |all|
      ensures all[i].End() <= all[j].at || all[j].End() <= all[i].at
    {
      if i >= |xs| {
        assert all[i] == ys[i - |xs|] && all[j] == ys[j - |xs|];
      } else if j >= |xs| {
        assert all[i] == xs[i] && all[j] == ys[j - |xs|];
      } else {
        assert all[i] == xs[i] && all[j] == xs[j];
      }
    }
  }

  ghost function Apply(s: Bytes, ws: seq<Write>): (r: Bytes)
    requires Writable(ws, |s|)
    ensures |r| == |s|
  {
    if ws == [] then s
    else
      var n := |ws| - 1;
      assert Writable(ws[..n], |s|);
      Splice(Apply(s, ws[..n]), ws[n].at, ws[n].data)
  }

  /** Each field reads back what was written to it. */
  lemma {:induction false} FieldReads(s: Bytes, ws: seq<Write>, i: nat)
    requires Writable(ws, |s|) && Disjoint(ws) && i < |ws|
    ensures Apply(s, ws)[ws[i].at..ws[i].End()] == ws[i].data
  {
    var n := |ws| - 1;
    if i < n {
      assert ws[..n][i] == ws[i];
      FieldReads(s, ws[..n], i);
      SpliceKeeps(Apply(s, ws[..n]), ws[n].at, ws[n].data, ws[i].at, ws[i].End());
    } else {
      SpliceWhole(Apply(s, ws[..n]), ws[n].at, ws[n].data);
    }
  }

  /** Every other byte is left as it was. */
  lemma {:induction false} ByteKeeps(s: Bytes, ws: seq<Write>, k: nat)
    requires Writable(ws, |s|) && k < |s|
    requires forall i :: 0 <= i < |ws| ==> !(ws[i].at <= k < ws[i].End())
    ensures Apply(s, ws)[k] == s[k]
  {
    if ws != [] {
      ByteKeeps(s, ws[..|ws| - 1], k);
    }
  }

  lemma {:induction false} AppendOne(s: Bytes, ws: seq<Write>, w: Write)
    requires Writable(ws, |s|) && w.End() <= |s|
    ensures Writable(ws + [w], |s|)
    ensures Apply(s, ws + [w]) == Splice(Apply(s, ws), w.at, w.data)
  {
    assert (ws + [w])[..|ws|] == ws;
  }

  lemma {:induction false} AppendLast(s: Bytes, ws: seq<Write>, init: seq<Write>, w: Write)
    requires Writable(ws, |s|) && Writable(init, |s|) && Writable(ws + init, |s|) && w.End() <= |s|
    requires Apply(Apply(s, ws), init) == Apply(s, ws + init)
    ensures Writable(init + [w], |s|) && Writable(ws + (init + [w]), |s|)
    ensures Apply(Apply(s, ws), init + [w]) == Apply(s, ws + (init + [w]))
  {
    AppendOne(Apply(s, ws), init, w);
    AppendOne(s, ws + init, w);
    ConcatAssoc(ws, init, [w]);
  }

  lemma {:induction false} AppendAll(s: Bytes, ws: seq<Write>, more: seq<Write>)
    requires Writable(ws, |s|) && Writable(more, |s|)
    ensures Writable(ws + more, |s|)
    ensures Apply(Apply(s, ws), more) == Apply(s, ws + more)
  {
    if more == [] {
      assert ws + more == ws;
    } else {
      var n := |more| - 1;
      AppendAll(s, ws, more[..n]);
      AppendLast(s, ws, more[..n], more[n]);
      assert more == more[..n] + [more[n]];
    }
  }

  /** Writes one more field into a buffer that holds `ws` written over `base`. */
  method PutField(v: array<Byte>, ghost base: Bytes, ghost ws: seq<Write>, at: nat, data: Bytes)
    returns (ghost r: seq<Write>)
    requires |base| == v.Length && Writable(ws, |base|) && v[..] == Apply(base, ws)
    requires at + |data| <= v.Length
    modifies v
    ensures r == ws + [Write(at, data)]
    ensures Writable(r, |base|) && v[..] == Apply(base, r)
  {
    AppendOne(base, ws, Write(at, data));
    Put(v, at, data);
    r := ws + [Write(at, data)];
  }
}
