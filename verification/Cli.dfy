/** Sizes and apertures as text: the command line's parser and the manifest's printer. */
module Cli {
  import opened Wrappers
  import opened Layout
  import opened Collections

  datatype ParseError = Empty | InvalidDigit | PosOverflow | SizeOverflows | ExpectedColon

  // ---------- what the standard library does ----------

  /** `char::is_whitespace`, the White_Space property. */
  predicate IsWhitespace(c: char) {
    var n := c as int;
    || 0x9 <= n <= 0xd || n == 0x20 || n == 0x85 || n == 0xa0 || n == 0x1680
    || 0x2000 <= n <= 0x200a || n == 0x2028 || n == 0x2029 || n == 0x202f || n == 0x205f || n == 0x3000
  }

  function TrimLeft(s: string): string {
    if s != "" && IsWhitespace(s[0]) then TrimLeft(s[1..]) else s
  }

  function TrimRight(s: string): string {
    if s != "" && IsWhitespace(s[|s| - 1]) then TrimRight(s[..|s| - 1]) else s
  }

  function Trim(s: string): string { TrimRight(TrimLeft(s)) }

  /** `char::to_digit`. */
  function DigitOf(c: char, radix: nat): Option<nat>
    requires radix == 10 || radix == 16
  {
    if '0' <= c <= '9' then Some(c as int - '0' as int)
    else if radix == 16 && 'a' <= c <= 'f' then Some(10 + (c as int - 'a' as int))
    else if radix == 16 && 'A' <= c <= 'F' then Some(10 + (c as int - 'A' as int))
    else None
  }

  /** The checked multiply and add of one digit after another. */
  function Accumulate(s: string, radix: nat, acc: U64): Result<U64, ParseError>
    requires radix == 10 || radix == 16
    decreases |s|
  {
    if s == "" then Ok(acc)
    else
      match DigitOf(s[0], radix)
      case None => Err(InvalidDigit)
      case Some(d) =>
        if acc * radix + d >= U64_MODULUS then Err(PosOverflow) else Accumulate(s[1..], radix, acc * radix + d)
  }

  /** `u64::from_str_radix`: an optional plus sign, then at least one digit. */
  function FromStrRadix(s: string, radix: nat): Result<U64, ParseError>
    requires radix == 10 || radix == 16
  {
    if s == "" then Err(Empty)
    else if s == "+" then Err(InvalidDigit)
    else if s[0] == '+' then Accumulate(s[1..], radix, 0)
    else Accumulate(s, radix, 0)
  }

  /** `split_once(':')`. */
  function SplitOnce(s: string): Option<(string, string)> {
    if s == "" then None
    else if s[0] == ':' then Some(("", s[1..]))
    else
      match SplitOnce(s[1..])
      case None => None
      case Some(p) => Some(([s[0]] + p.0, p.1))
  }

  // ---------- parsing ----------

  function Scale(c: char): U64 {
    if c == 'K' || c == 'k' then 0x400
    else if c == 'M' || c == 'm' then 0x10_0000
    else if c == 'G' || c == 'g' then 0x4000_0000
    else 1
  }

  predicate IsSuffix(c: char) { c in "KkMmGg" }

  /** What the digits of a size come to. */
  function Magnitude(digits: string): Result<U64, ParseError> {
    if "0x" <= digits then FromStrRadix(digits[2..], 16) else FromStrRadix(digits, 10)
  }

  function ParseSize(text: string): Result<U64, ParseError> {
    var t := Trim(text);
    var suffixed := t != "" && IsSuffix(t[|t| - 1]);
    var digits := if suffixed then t[..|t| - 1] else t;
    var scale := if suffixed then Scale(t[|t| - 1]) else 1;
    match Magnitude(digits)
    case Err(e) => Err(e)
    case Ok(n) => if n * scale < U64_MODULUS then Ok(n * scale) else Err(SizeOverflows)
  }

  function ParseHole(text: string): Result<(U64, U64), ParseError> {
    match SplitOnce(text)
    case None => Err(ExpectedColon)
    case Some(p) =>
      var base := ParseSize(p.0);
      if base.Err? then Err(base.error)
      else
        var size := ParseSize(p.1);
        if size.Err? then Err(size.error) else Ok((base.value, size.value))
  }

  // ---------- printing ----------

  function DigitChar(d: nat): (c: char)
    requires d < 16
    ensures DigitOf(c, 16) == Some(d)
    ensures d < 10 ==> DigitOf(c, 10) == Some(d)
    ensures !IsWhitespace(c) && !IsSuffix(c) && c != ':' && c != '+' && c != 'x'
  {
    if d < 10 then '0' + d as char else 'a' + (d - 10) as char
  }

  /** A number in lower-case digits, with no leading zero. */
  function Digits(n: nat, radix: nat): (s: string)
    requires radix == 10 || radix == 16
    ensures s != ""
    ensures forall c :: c in s ==> IsDigit(c)
  {
    if n < radix then [DigitChar(n)] else Digits(n / radix, radix) + [DigitChar(n % radix)]
  }

  predicate IsDigit(c: char) {
    !IsWhitespace(c) && !IsSuffix(c) && c != ':' && c != '+' && c != 'x'
  }

  function Zeroes(n: nat): (s: string)
    ensures |s| == n && forall c :: c in s ==> c == '0'
  {
    seq(n, _ => '0')
  }

  /** `{:08x}`. */
  function Hex8(n: nat): string {
    var s := Digits(n, 16);
    if |s| < 8 then Zeroes(8 - |s|) + s else s
  }

  /** One aperture as the manifest prints it. */
  function PrintHole(base: U64, size: U64): string {
    "0x" + Hex8(base) + ":" + ("0x" + Digits(size, 16))
  }

  function PrintHoles(holes: seq<(U64, U64)>): (r: seq<string>)
    ensures |r| == |holes|
  {
    seq(|holes|, k requires 0 <= k < |holes| => PrintHole(holes[k].0, holes[k].1))
  }

  // ---------- reading digits back ----------

  lemma {:induction false} AccumulateJoin(s: string, t: string, radix: nat, acc: U64, mid: U64)
    requires radix == 10 || radix == 16
    requires Accumulate(s, radix, acc) == Ok(mid)
    ensures Accumulate(s + t, radix, acc) == Accumulate(t, radix, mid)
    decreases |s|
  {
    if s == "" {
      assert s + t == t;
    } else {
      var d := DigitOf(s[0], radix).value;
      AccumulateJoin(s[1..], t, radix, acc * radix + d, mid);
      TailOfConcat(s, t);
    }
  }

  lemma {:induction false} DivMod(n: nat, radix: nat)
    requires radix == 10 || radix == 16
    ensures n / radix * radix + n % radix == n && n / radix <= n && n % radix < radix
    ensures n >= radix ==> n / radix < n
  {
  }

  lemma {:induction false} OneDigit(d: nat, radix: nat, acc: U64)
    requires radix == 10 || radix == 16
    requires d < radix && acc * radix + d < U64_MODULUS
    ensures Accumulate([DigitChar(d)], radix, acc) == Ok(acc * radix + d)
  {
    assert Accumulate("", radix, acc * radix + d) == Ok(acc * radix + d);
    assert [DigitChar(d)][1..] == "";
  }

  lemma {:induction false} DigitsRead(n: U64, radix: nat)
    requires radix == 10 || radix == 16
    ensures Accumulate(Digits(n, radix), radix, 0) == Ok(n)
  {
    if n < radix {
      OneDigit(n, radix, 0);
    } else {
      DivMod(n, radix);
      DigitsRead(n / radix, radix);
      AccumulateJoin(Digits(n / radix, radix), [DigitChar(n % radix)], radix, 0, n / radix);
      OneDigit(n % radix, radix, n / radix);
    }
  }

  lemma {:induction false} AccumulateStops(s: string, t: string, radix: nat, acc: U64)
    requires radix == 10 || radix == 16
    requires Accumulate(s, radix, acc).Err?
    ensures Accumulate(s + t, radix, acc) == Accumulate(s, radix, acc)
    decreases |s|
  {
    TailOfConcat(s, t);
    if DigitOf(s[0], radix).Some? && acc * radix + DigitOf(s[0], radix).value < U64_MODULUS {
      AccumulateStops(s[1..], t, radix, acc * radix + DigitOf(s[0], radix).value);
    }
  }

  /** A number of more than 64 bits is refused as one, at whichever digit that is clear. */
  lemma {:induction false} DigitsOverflow(n: nat, radix: nat)
    requires (radix == 10 || radix == 16) && n >= U64_MODULUS
    ensures Accumulate(Digits(n, radix), radix, 0) == Err(PosOverflow)
  {
    var s, d := Digits(n / radix, radix), [DigitChar(n % radix)];
    DivMod(n, radix);
    if n / radix >= U64_MODULUS {
      DigitsOverflow(n / radix, radix);
      AccumulateStops(s, d, radix, 0);
    } else {
      DigitsRead(n / radix, radix);
      AccumulateJoin(s, d, radix, 0, n / radix);
    }
  }

  lemma {:induction false} ZeroesRead(k: nat)
    ensures Accumulate(Zeroes(k), 16, 0) == Ok(0)
  {
    if k > 0 {
      ZeroesRead(k - 1);
      assert Zeroes(k)[0] in Zeroes(k);
      assert Zeroes(k)[1..] == Zeroes(k - 1);
    }
  }

  lemma {:induction false} Hex8Reads(n: U64)
    ensures Accumulate(Hex8(n), 16, 0) == Ok(n)
    ensures Hex8(n) != "" && forall c :: c in Hex8(n) ==> IsDigit(c)
  {
    var s := Digits(n, 16);
    DigitsRead(n, 16);
    if |s| < 8 {
      ZeroesRead(8 - |s|);
      AccumulateJoin(Zeroes(8 - |s|), s, 16, 0, 0);
    }
  }

  // ---------- and sizes ----------

  predicate AllDigits(s: string) {
    s != "" && forall c :: c in s ==> IsDigit(c)
  }

  lemma {:induction false} TrimNothing(s: string)
    requires s != "" && !IsWhitespace(s[0]) && !IsWhitespace(s[|s| - 1])
    ensures Trim(s) == s
  {
  }

  lemma {:induction false} NoSign(s: string, radix: nat)
    requires radix == 10 || radix == 16
    requires AllDigits(s)
    ensures FromStrRadix(s, radix) == Accumulate(s, radix, 0)
  {
    assert s[0] in s;
  }

  /** A prefixed string of hex digits is read as they are: none of them is taken for a suffix or a sign. */
  lemma {:induction false} HexSize(s: string, n: U64)
    requires AllDigits(s) && Accumulate(s, 16, 0) == Ok(n)
    ensures ParseSize("0x" + s) == Ok(n)
  {
    var t := "0x" + s;
    assert t[|t| - 1] == s[|s| - 1] && s[|s| - 1] in s;
    TrimNothing(t);
    assert t[2..] == s && "0x" <= t;
    NoSign(s, 16);
  }

  lemma {:induction false} SplitAtColon(s: string, t: string)
    requires forall c :: c in s ==> c != ':'
    ensures SplitOnce(s + ":" + t) == Some((s, t))
    decreases |s|
  {
    if s == "" {
      assert s + ":" + t == ":" + t && (":" + t)[1..] == t;
    } else {
      assert s[0] in s && forall c :: c in s[1..] ==> c in s;
      SplitAtColon(s[1..], t);
      assert (s + ":" + t)[0] == s[0] && (s + ":" + t)[1..] == s[1..] + ":" + t;
      assert s == [s[0]] + s[1..];
    }
  }

  lemma {:induction false} BaseReads(base: U64)
    ensures ParseSize("0x" + Hex8(base)) == Ok(base)
    ensures forall c :: c in "0x" + Hex8(base) ==> c != ':'
  {
    Hex8Reads(base);
    HexSize(Hex8(base), base);
  }

  lemma {:induction false} SizeReads(size: U64)
    ensures ParseSize("0x" + Digits(size, 16)) == Ok(size)
  {
    DigitsRead(size, 16);
    HexSize(Digits(size, 16), size);
  }

  lemma {:induction false} HoleParts(b: string, s: string, base: U64, size: U64)
    requires ParseSize(b) == Ok(base) && ParseSize(s) == Ok(size) && forall c :: c in b ==> c != ':'
    ensures ParseHole(b + ":" + s) == Ok((base, size))
  {
    SplitAtColon(b, s);
  }

  /** Every pair of 64-bit values survives being printed and parsed. */
  lemma {:induction false} HoleRoundTrip(base: U64, size: U64)
    ensures ParseHole(PrintHole(base, size)) == Ok((base, size))
  {
    BaseReads(base);
    SizeReads(size);
    HoleParts("0x" + Hex8(base), "0x" + Digits(size, 16), base, size);
  }

  /** So the manifest's apertures are the ones the image was built around. */
  lemma {:induction false} HolesRoundTrip(holes: seq<(U64, U64)>, k: nat)
    requires k < |holes|
    ensures ParseHole(PrintHoles(holes)[k]) == Ok(holes[k])
  {
    HoleRoundTrip(holes[k].0, holes[k].1);
  }

  ghost predicate Blank(s: string) {
    forall c :: c in s ==> IsWhitespace(c)
  }

  lemma {:induction false} TrimLeftBlank(left: string, s: string)
    requires Blank(left) && s != "" && !IsWhitespace(s[0])
    ensures TrimLeft(left + s) == s
    decreases |left|
  {
    if left == "" {
      assert left + s == s;
    } else {
      assert left[0] in left;
      TailOfConcat(left, s);
      TrimLeftBlank(left[1..], s);
    }
  }

  lemma {:induction false} TrimRightBlank(s: string, right: string)
    requires Blank(right) && s != "" && !IsWhitespace(s[|s| - 1])
    ensures TrimRight(s + right) == s
    decreases |right|
  {
    if right == "" {
      assert s + right == s;
    } else {
      var n := |right| - 1;
      assert right[n] in right;
      assert (s + right)[|s + right| - 1] == right[n] && (s + right)[..|s + right| - 1] == s + right[..n];
      TrimRightBlank(s, right[..n]);
    }
  }

  lemma {:induction false} TrimBlank(left: string, s: string, right: string)
    requires Blank(left) && Blank(right)
    requires s != "" && !IsWhitespace(s[0]) && !IsWhitespace(s[|s| - 1])
    ensures Trim(left + s + right) == s
  {
    ConcatAssoc(left, s, right);
    TrimLeftBlank(left, s + right);
    TrimRightBlank(s, right);
  }

  lemma {:induction false} NotHex(s: string)
    requires AllDigits(s)
    ensures !("0x" <= s)
  {
    if |s| > 1 {
      assert s[1] in s && s[1] != 'x';
    }
  }

  /** What a suffix stands for. */
  ghost predicate Counts(suffix: char, unit: nat) {
    || (suffix in "Kk" && unit == 1024)
    || (suffix in "Mm" && unit == 1024 * 1024)
    || (suffix in "Gg" && unit == 1024 * 1024 * 1024)
  }

  lemma {:induction false} ScaleCounts(suffix: char, unit: nat)
    requires Counts(suffix, unit)
    ensures IsSuffix(suffix) && Scale(suffix) == unit
  {
  }

  /** A suffix multiplies what comes before it, between any white space. */
  lemma {:induction false} Scaled(left: string, s: string, n: U64, suffix: char, right: string)
    requires Blank(left) && Blank(right) && IsSuffix(suffix)
    requires s != "" && !IsWhitespace(s[0]) && Magnitude(s) == Ok(n)
    ensures ParseSize(left + (s + [suffix]) + right) ==
            if n * Scale(suffix) < U64_MODULUS then Ok(n * Scale(suffix)) else Err(SizeOverflows)
  {
    var t := s + [suffix];
    assert t[0] == s[0] && t[|t| - 1] == suffix && t[..|t| - 1] == s;
    TrimBlank(left, t, right);
  }

  lemma {:induction false} DecimalMagnitude(n: U64)
    ensures var s := Digits(n, 10); !IsWhitespace(s[0]) && Magnitude(s) == Ok(n)
  {
    var s := Digits(n, 10);
    assert s[0] in s;
    NotHex(s);
    NoSign(s, 10);
    DigitsRead(n, 10);
  }

  lemma {:induction false} HexMagnitude(n: U64)
    ensures Magnitude("0x" + Digits(n, 16)) == Ok(n)
  {
    var s := "0x" + Digits(n, 16);
    assert s[2..] == Digits(n, 16) && "0x" <= s;
    NoSign(Digits(n, 16), 16);
    DigitsRead(n, 16);
  }

  /** A decimal count with a suffix is that many units, or refused if 64 bits cannot hold it... */
  lemma {:induction false} SuffixedSize(left: string, n: U64, suffix: char, unit: nat, right: string)
    requires Blank(left) && Blank(right) && Counts(suffix, unit)
    ensures ParseSize(left + (Digits(n, 10) + [suffix]) + right) ==
            if n * unit < U64_MODULUS then Ok(n * unit) else Err(SizeOverflows)
  {
    ScaleCounts(suffix, unit);
    DecimalMagnitude(n);
    Scaled(left, Digits(n, 10), n, suffix, right);
  }

  /** ...a hexadecimal one too... */
  lemma {:induction false} SuffixedHex(left: string, n: U64, suffix: char, unit: nat, right: string)
    requires Blank(left) && Blank(right) && Counts(suffix, unit)
    ensures ParseSize(left + ("0x" + Digits(n, 16) + [suffix]) + right) ==
            if n * unit < U64_MODULUS then Ok(n * unit) else Err(SizeOverflows)
  {
    ScaleCounts(suffix, unit);
    HexMagnitude(n);
    Scaled(left, "0x" + Digits(n, 16), n, suffix, right);
  }

  /** ...and one without a suffix is itself. */
  lemma {:induction false} PlainSize(left: string, n: U64, right: string)
    requires Blank(left) && Blank(right)
    ensures ParseSize(left + Digits(n, 10) + right) == Ok(n)
  {
    var s := Digits(n, 10);
    assert s[0] in s && s[|s| - 1] in s;
    TrimBlank(left, s, right);
    NotHex(s);
    NoSign(s, 10);
    DigitsRead(n, 10);
  }

  // ---------- what is printed ----------

  const LOWER_HEX := "0123456789abcdef"

  lemma {:induction false} DigitIsLower(d: nat)
    requires d < 16
    ensures DigitChar(d) == LOWER_HEX[d]
  {
  }

  lemma {:induction false} Spelled(d: nat)
    requires d < 16
    ensures LOWER_HEX[d] == '0' <==> d == 0
  {
  }

  /** A number's digits are those of its quotient by the radix, then that of the remainder. */
  lemma {:induction false} LastDigit(n: nat, radix: nat)
    requires radix == 10 || radix == 16
    ensures n % radix < radix && n / radix >= 0
    ensures Digits(n, radix) == (if n < radix then "" else Digits(n / radix, radix)) + [LOWER_HEX[n % radix]]
  {
    DivMod(n, radix);
    DigitIsLower(n % radix);
  }

  /** It is written in lower case, and starts with a zero only if it is one. */
  lemma {:induction false} DigitsSpell(n: nat, radix: nat)
    requires radix == 10 || radix == 16
    ensures (forall c :: c in Digits(n, radix) ==> c in LOWER_HEX[..radix]) && (Digits(n, radix)[0] == '0' <==> n == 0)
  {
    LastDigit(n, radix);
    assert LOWER_HEX[..radix][n % radix] == LOWER_HEX[n % radix];
    if n < radix {
      Spelled(n);
    } else {
      DivMod(n, radix);
      DigitsSpell(n / radix, radix);
    }
  }

  /** An aperture as printed: two numbers in lower-case hexadecimal, the first in eight digits at the least. */
  lemma {:induction false} HoleIsSpelled(base: U64, size: U64)
    ensures var x, y := Digits(base, 16), Digits(size, 16);
            PrintHole(base, size) == "0x" + Zeroes(if |x| < 8 then 8 - |x| else 0) + x + ":0x" + y
  {
    var x, y := Digits(base, 16), Digits(size, 16);
    var z := Zeroes(if |x| < 8 then 8 - |x| else 0);
    assert z == "" ==> z + x == x;
    assert Hex8(base) == z + x;
    ConcatAssoc("0x", z, x);
    ConcatAssoc("0x" + z + x, ":", "0x" + y);
    ConcatAssoc("0x" + z + x + ":", "0x", y);
    ConcatAssoc("0x" + z + x, ":", "0x");
    assert ":" + "0x" == ":0x";
  }
}
