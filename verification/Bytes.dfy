/** Little-endian fields inside byte buffers: written in place, read back as numbers. */
module Bytes {
  import opened Layout

  type Bytes = seq<Byte>

  function Zeros(n: nat): (r: Bytes)
    ensures |r| == n && forall i :: 0 <= i < n ==> r[i] == 0
  {
    seq(n, _ => 0)
  }

  /** The bytes of an ASCII string. */
  function Ascii(s: string): (r: Bytes)
    ensures |r| == |s|
  {
    seq(|s|, i requires 0 <= i < |s| => s[i] as int % 256)
  }

  function Pow256(k: nat): (p: nat)
    ensures p > 0
  {
    if k == 0 then 1 else 256 * Pow256(k - 1)
  }

  /** The low `k` bytes of `n`, least significant first. */
  function Le(n: nat, k: nat): (r: Bytes)
    ensures |r| == k
  {
    if k == 0 then [] else [n % 256] + Le(n / 256, k - 1)
  }

  function FromLe(s: Bytes): nat {
    if s == [] then 0 else s[0] + 256 * FromLe(s[1..])
  }

  lemma {:induction false} FromLeBound(s: Bytes)
    ensures FromLe(s) < Pow256(|s|)
  {
    if s != [] {
      FromLeBound(s[1..]);
    }
  }

  lemma {:induction false} LeRoundTrip(n: nat, k: nat)
    requires n < Pow256(k)
    ensures FromLe(Le(n, k)) == n
  {
    if k > 0 {
      assert n / 256 < Pow256(k - 1);
      LeRoundTrip(n / 256, k - 1);
      assert Le(n, k)[1..] == Le(n / 256, k - 1);
    }
  }

  /** Every string of bytes is the encoding of the number it reads as. */
  lemma {:induction false} LeOfFromLe(s: Bytes)
    ensures Le(FromLe(s), |s|) == s
  {
    if s != [] {
      LeOfFromLe(s[1..]);
      LowByte(s[0], FromLe(s[1..]));
      assert s == [s[0]] + s[1..];
    }
  }

  lemma {:induction false} LowByte(b: Byte, high: nat)
    ensures (b + 256 * high) % 256 == b && (b + 256 * high) / 256 == high
  {
  }

  /** Least significant first: the `i`-th byte is the number's `i`-th digit in base 256. */
  lemma {:induction false} LeDigit(n: nat, k: nat, i: nat)
    requires i < k
    ensures Le(n, k)[i] == n / Pow256(i) % 256
  {
    if i > 0 {
      LeDigit(n / 256, k - 1, i - 1);
      DivTwice(n, Pow256(i - 1));
    }
  }

  lemma {:induction false} DivTwice(n: nat, d: nat)
    requires d > 0
    ensures n / 256 / d == n / (256 * d)
  {
    var q, r := n / 256, n % 256;
    var a, b := q / d, q % d;
    assert n == 256 * (a * d + b) + r;
    assert n == a * (256 * d) + (256 * b + r);
    assert 0 <= 256 * b + r < 256 * d;
    Quotient(n, 256 * d, a, 256 * b + r);
  }

  lemma {:induction false} Times(d: int, x: int, y: int)
    requires d > 0 && x <= y
    ensures d * x <= d * y
  {
  }

  lemma {:induction false} Quotient(n: int, d: int, q: int, r: int)
    requires d > 0 && 0 <= r < d && n == q * d + r
    ensures n / d == q && n % d == r
  {
    var e := n / d - q;
    assert n == d * (n / d) + n % d;
    assert d * e == r - n % d;
    assert -d < d * e < d;
    assert e == 0 by {
      if e >= 1 {
        Times(d, 1, e);
      } else if e <= -1 {
        Times(d, e, -1);
      }
    }
  }

  lemma {:induction false} Pow256Values()
    ensures Pow256(2) == 0x1_0000
    ensures Pow256(4) == 0x1_0000_0000
    ensures Pow256(8) == U64_MODULUS
  {
    assert Pow256(2) == 0x1_0000;
    assert Pow256(4) == 0x1_0000_0000;
    assert Pow256(6) == 0x1_0000_0000_0000;
  }

  lemma {:induction false} LeRoundTrip64(n: U64)
    ensures FromLe(Le(n, 8)) == n
  {
    Pow256Values();
    LeRoundTrip(n, 8);
  }

  lemma {:induction false} LeRoundTrip32(n: U32)
    ensures FromLe(Le(n, 4)) == n
  {
    Pow256Values();
    LeRoundTrip(n, 4);
  }

  lemma {:induction false} LeInjective64(m: U64, n: U64)
    requires Le(m, 8) == Le(n, 8)
    ensures m == n
  {
    LeRoundTrip64(m);
    LeRoundTrip64(n);
  }

  predicate Fits(s: Bytes, at: int, len: int) { 0 <= at && 0 <= len && at + len <= |s| }

  function Get64(s: Bytes, at: nat): nat
    requires Fits(s, at, 8)
  {
    FromLe(s[at..at + 8])
  }

  function Get32(s: Bytes, at: nat): nat
    requires Fits(s, at, 4)
  {
    FromLe(s[at..at + 4])
  }

  /** The buffer after `data` has been copied over it at `at`. */
  function Splice(s: Bytes, at: nat, data: Bytes): (r: Bytes)
    requires Fits(s, at, |data|)
    ensures |r| == |s|
    ensures forall i :: 0 <= i < |s| ==> r[i] == if at <= i < at + |data| then data[i - at] else s[i]
  {
    seq(|s|, i requires 0 <= i < |s| => if at <= i < at + |data| then data[i - at] else s[i])
  }

  /** A field that does not meet the spliced bytes reads as before. */
  lemma {:induction false} SpliceKeeps(s: Bytes, at: nat, data: Bytes, lo: nat, hi: nat)
    requires Fits(s, at, |data|)
    requires lo <= hi <= |s|
    requires hi <= at || at + |data| <= lo
    ensures Splice(s, at, data)[lo..hi] == s[lo..hi]
  {
  }

  /** A field inside the spliced bytes reads as those bytes. */
  lemma {:induction false} SpliceReads(s: Bytes, at: nat, data: Bytes, lo: nat, hi: nat)
    requires Fits(s, at, |data|)
    requires lo <= hi <= |data|
    ensures Splice(s, at, data)[at + lo..at + hi] == data[lo..hi]
  {
  }

  lemma {:induction false} SpliceWhole(s: Bytes, at: nat, d: Bytes)
    requires Fits(s, at, |d|)
    ensures Splice(s, at, d)[at..at + |d|] == d
  {
  }

  /** `copy_from_slice` into the middle of a buffer. */
  method Put(v: array<Byte>, at: nat, data: Bytes)
    requires Fits(v[..], at, |data|)
    modifies v
    ensures v[..] == Splice(old(v[..]), at, data)
  {
    for i := 0 to |data|
      invariant v[..] == Splice(old(v[..]), at, data[..i])
    {
      v[at + i] := data[i];
    }
    assert data[..|data|] == data;
  }

  method Put32(v: array<Byte>, at: nat, n: nat)
    requires Fits(v[..], at, 4)
    modifies v
    ensures v[..] == Splice(old(v[..]), at, Le(n, 4))
  {
    Put(v, at, Le(n, 4));
  }

  method Put64(v: array<Byte>, at: nat, n: nat)
    requires Fits(v[..], at, 8)
    modifies v
    ensures v[..] == Splice(old(v[..]), at, Le(n, 8))
  {
    Put(v, at, Le(n, 8));
  }

  lemma {:induction false} SliceShift(s: Bytes, k: nat, lo: nat, hi: nat)
    requires k <= lo <= hi <= |s|
    ensures s[k..][lo - k..hi - k] == s[lo..hi]
  {
  }

  /** Writing one aligned word changes that word and no other. */
  lemma {:induction false} WordAfter(s: Bytes, w: nat, n: U64, x: nat)
    requires 8 * w + 8 <= |s| && 8 * x + 8 <= |s|
    ensures Get64(Splice(s, 8 * w, Le(n, 8)), 8 * x) == if x == w then n else Get64(s, 8 * x)
  {
    if x == w {
      SpliceReads(s, 8 * w, Le(n, 8), 0, 8);
      assert Le(n, 8)[0..8] == Le(n, 8);
      LeRoundTrip64(n);
    } else {
      SpliceKeeps(s, 8 * w, Le(n, 8), 8 * x, 8 * x + 8);
    }
  }

  lemma {:induction false} ZeroLe(k: nat)
    ensures Le(0, k) == Zeros(k)
  {
    if k > 0 {
      ZeroLe(k - 1);
    }
  }

  lemma {:induction false} ZeroWord()
    ensures Le(0, 8) == Zeros(8) && FromLe(Zeros(8)) == 0
  {
    ZeroLe(8);
    LeRoundTrip64(0);
  }
}
