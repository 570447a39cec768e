/** The command line an image is built with: what was asked for, kept to four-level page tables. */
module CommandLine {
  import opened Wrappers
  import opened Layout
  import opened Bytes
  import opened Cli

  const DEFAULT_CMDLINE := "panic=-1"
  const REQUIRED_CMDLINE := "no5lvl"

  function FirstWord(s: string): (w: string)
    ensures |w| <= |s| && w == s[..|w|] && forall c :: c in w ==> !IsWhitespace(c)
    ensures |w| < |s| ==> IsWhitespace(s[|w|])
    ensures s != "" && !IsWhitespace(s[0]) ==> w != ""
  {
    if s == "" || IsWhitespace(s[0]) then "" else [s[0]] + FirstWord(s[1..])
  }

  /** `split_whitespace`. */
  function Words(s: string): seq<string>
    decreases |s|
  {
    if s == "" then []
    else if IsWhitespace(s[0]) then Words(s[1..])
    else
      var w := FirstWord(s);
      [w] + Words(s[|w|..])
  }

  function Normalise(text: string): string {
    var c := Trim(text);
    if c == "" then DEFAULT_CMDLINE + " " + REQUIRED_CMDLINE
    else if REQUIRED_CMDLINE in Words(c) then c
    else c + " " + REQUIRED_CMDLINE
  }

  predicate Printable(s: string) {
    forall c :: c in s ==> 0 < c as int < 0x80
  }

  /** The command line, or nothing where some byte of it is zero or not ASCII. */
  function Accepted(text: string): Option<string> {
    if Printable(Normalise(text)) then Some(Normalise(text)) else None
  }

  /** The bytes of an ASCII string. */
  function AsBytes(s: string): (r: Bytes)
    requires Printable(s)
    ensures |r| == |s| && forall i :: 0 <= i < |r| ==> r[i] != 0 && r[i] == s[i] as int
  {
    assert forall i :: 0 <= i < |s| ==> s[i] in s;
    seq(|s|, i requires 0 <= i < |s| => Code(s[i]))
  }

  function Code(c: char): Byte { if c as int < 0x80 then c as int else 0 }

  // ---------- words ----------

  lemma {:induction false} FirstWordStops(a: string, c: char, b: string)
    requires IsWhitespace(c)
    ensures FirstWord(a + [c] + b) == FirstWord(a)
  {
    var s := a + [c] + b;
    if a == "" {
      assert s[0] == c;
    } else {
      assert s[0] == a[0] && s[1..] == a[1..] + [c] + b;
      FirstWordStops(a[1..], c, b);
    }
  }

  /** White space separates words; with `OneWord`, that is all there is to say of them. */
  lemma {:induction false} WordsSplit(a: string, c: char, b: string)
    requires IsWhitespace(c)
    ensures Words(a + [c] + b) == Words(a) + Words(b)
    decreases |a|
  {
    var s := a + [c] + b;
    if a == "" {
      assert s[0] == c && s[1..] == b;
    } else if IsWhitespace(a[0]) {
      assert s[0] == a[0] && s[1..] == a[1..] + [c] + b;
      WordsSplit(a[1..], c, b);
    } else {
      var w := FirstWord(a);
      FirstWordStops(a, c, b);
      assert s[0] == a[0] && s[|w|..] == a[|w|..] + [c] + b;
      WordsSplit(a[|w|..], c, b);
      assert [w] + (Words(a[|w|..]) + Words(b)) == ([w] + Words(a[|w|..])) + Words(b);
    }
  }

  lemma {:induction false} WordsJoin(a: string, b: string)
    ensures Words(a + " " + b) == Words(a) + Words(b)
  {
    WordsSplit(a, ' ', b);
  }

  lemma {:induction false} OneWord(w: string)
    requires w != "" && forall c :: c in w ==> !IsWhitespace(c)
    ensures Words(w) == [w]
  {
    WholeWord(w);
    assert w[0] in w;
    assert w[|w|..] == "" && Words("") == [];
  }

  lemma {:induction false} RequiredIsAWord()
    ensures Words(REQUIRED_CMDLINE) == [REQUIRED_CMDLINE]
  {
    OneWord(REQUIRED_CMDLINE);
  }

  lemma {:induction false} WholeWord(w: string)
    requires forall c :: c in w ==> !IsWhitespace(c)
    ensures FirstWord(w) == w
  {
    if w != "" {
      assert w[0] in w && forall c :: c in w[1..] ==> c in w;
      WholeWord(w[1..]);
    }
  }

  /** Whatever was asked for, Linux is told to keep to the page tables it was measured with. */
  lemma {:induction false} NormalisedKeepsFourLevels(text: string)
    ensures REQUIRED_CMDLINE in Words(Normalise(text))
  {
    var c := Trim(text);
    var before := if c == "" then DEFAULT_CMDLINE else c;
    WordsJoin(before, REQUIRED_CMDLINE);
    RequiredIsAWord();
  }

  // ---------- trimming ----------

  predicate Trimmed(s: string) {
    s != "" ==> !IsWhitespace(s[0]) && !IsWhitespace(s[|s| - 1])
  }

  lemma {:induction false} TrimLeftTrims(s: string)
    ensures TrimLeft(s) != "" ==> !IsWhitespace(TrimLeft(s)[0])
    ensures forall c :: c in TrimLeft(s) ==> c in s
  {
    if s != "" && IsWhitespace(s[0]) {
      TrimLeftTrims(s[1..]);
    }
  }

  lemma {:induction false} TrimRightTrims(s: string)
    ensures var t := TrimRight(s);
            && (t != "" ==> !IsWhitespace(t[|t| - 1]) && t[0] == s[0])
            && (forall c :: c in t ==> c in s) && |t| <= |s|
  {
    if s != "" && IsWhitespace(s[|s| - 1]) {
      TrimRightTrims(s[..|s| - 1]);
    }
  }

  lemma {:induction false} TrimTrims(s: string)
    ensures Trimmed(Trim(s)) && forall c :: c in Trim(s) ==> c in s
  {
    TrimLeftTrims(s);
    TrimRightTrims(TrimLeft(s));
  }

  lemma {:induction false} NormalisedIsTrimmed(text: string)
    ensures Trimmed(Normalise(text)) && Normalise(text) != ""
  {
    TrimTrims(text);
    var c := Trim(text);
    var n := Normalise(text);
    assert n == c || n[|n| - 1] == 'l';
    assert c != "" ==> n[0] == c[0];
  }

  /** Normalising again changes nothing. */
  lemma {:induction false} NormaliseIsIdempotent(text: string)
    ensures Normalise(Normalise(text)) == Normalise(text)
  {
    var n := Normalise(text);
    NormalisedIsTrimmed(text);
    NormalisedKeepsFourLevels(text);
    TrimNothing(n);
  }

  lemma {:induction false} PrintableJoins(a: string, b: string)
    ensures Printable(a + b) <==> Printable(a) && Printable(b)
  {
    assert forall x :: x in a || x in b ==> x in a + b;
  }

  /** A command line is refused only for what was in it: what the builder adds is ASCII. */
  lemma {:induction false} AcceptedIff(text: string)
    ensures Accepted(text).Some? <==> Printable(Trim(text))
    ensures Printable(Trim(text)) <==> forall c :: c in Trim(text) ==> c != '\0' && c as int < 128
  {
    var c := Trim(text);
    PrintableJoins(c, " " + REQUIRED_CMDLINE);
    assert c + " " + REQUIRED_CMDLINE == c + (" " + REQUIRED_CMDLINE);
  }

  // ---------- what becomes of what was asked for ----------

  lemma {:induction false} TrimLeftParts(s: string) returns (left: string)
    ensures s == left + TrimLeft(s) && Blank(left) && Words(TrimLeft(s)) == Words(s)
  {
    if s != "" && IsWhitespace(s[0]) {
      var rest := TrimLeftParts(s[1..]);
      left := [s[0]] + rest;
      assert s == [s[0]] + s[1..];
    } else {
      left := "";
    }
  }

  lemma {:induction false} TrimRightParts(s: string) returns (right: string)
    ensures s == TrimRight(s) + right && Blank(right) && Words(TrimRight(s)) == Words(s)
    decreases |s|
  {
    var n := |s| - 1;
    if s != "" && IsWhitespace(s[n]) {
      var rest := TrimRightParts(s[..n]);
      right := rest + [s[n]];
      assert s == s[..n] + [s[n]];
      WordsSplit(s[..n], s[n], "");
      assert s[..n] + [s[n]] + "" == s && Words("") == [];
    } else {
      right := "";
    }
  }

  /** Trimming takes white space off both ends, all there is of it, and no word. */
  lemma {:induction false} TrimParts(s: string) returns (left: string, right: string)
    ensures s == left + Trim(s) + right && Blank(left) && Blank(right) && Trimmed(Trim(s))
    ensures Words(Trim(s)) == Words(s)
    ensures Trim(s) == "" <==> Blank(s)
  {
    left := TrimLeftParts(s);
    right := TrimRightParts(TrimLeft(s));
    TrimTrims(s);
    if Trim(s) != "" {
      assert s[|left|] == Trim(s)[0] && s[|left|] in s;
    }
  }

  /** What a line makes of a request: all of it in place, and `no5lvl` a word; of a blank one, the default. */
  ghost predicate Honours(line: string, text: string) {
    if Blank(text) then Words(line) == ["panic=-1", "no5lvl"]
    else
      && Trim(text) <= line
      && Words(line) == Words(text) + (if "no5lvl" in Words(text) then [] else ["no5lvl"])
  }

  lemma {:induction false} WithRequired(c: string)
    ensures Words(c + " " + REQUIRED_CMDLINE) == Words(c) + ["no5lvl"]
    ensures c <= c + " " + REQUIRED_CMDLINE
  {
    WordsJoin(c, REQUIRED_CMDLINE);
    RequiredIsAWord();
    PrefixOfThree(c, " ", REQUIRED_CMDLINE);
  }

  lemma {:induction false} PrefixOfThree(a: string, b: string, c: string)
    ensures a <= a + b + c
  {
  }

  lemma {:induction false} WordWithRequired(w: string)
    requires w != "" && forall c :: c in w ==> !IsWhitespace(c)
    ensures Words(w + " " + REQUIRED_CMDLINE) == [w, "no5lvl"]
  {
    WithRequired(w);
    OneWord(w);
  }

  /** Everything asked for is kept, and nothing but `no5lvl` added, and that only if it was missing. */
  lemma {:induction false} NormaliseHonours(text: string)
    ensures Honours(Normalise(text), text)
  {
    var left, right := TrimParts(text);
    var c := Trim(text);
    if c == "" {
      WordWithRequired(DEFAULT_CMDLINE);
    } else if REQUIRED_CMDLINE !in Words(c) {
      WithRequired(c);
    }
  }
}
