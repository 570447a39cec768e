/** The shim's data block: an entry point and zero-terminated ranges inside one measured page. */
module ShimBlock {
  import opened Wrappers
  import opened Layout
  import opened Bytes
  import opened Collections
  import opened Placement

  datatype ShimError = BlockTooLarge(needed: nat) | CodeOverrun

  const SHIM_DATA_END := SHIM_DATA + SHIM_DATA_SIZE

  /** Where a block's length stands with the reset vector after it. */
  const MAX_RANGES := (SHIM_DATA_SIZE - 24) / 16

  function RangeBytes(ranges: seq<Range>): (r: Bytes)
    requires forall i :: 0 <= i < |ranges| ==> 0 <= ranges[i].lo && 0 <= ranges[i].hi
    ensures |r| == 16 * |ranges|
  {
    if ranges == [] then []
    else
      var n := |ranges| - 1;
      RangeBytes(ranges[..n]) + Le(ranges[n].lo, 8) + Le(ranges[n].hi, 8)
  }

  /** What a shim can represent: no range is empty, so none reads as the terminator. */
  ghost predicate Encodable(ranges: seq<Range>) {
    forall i :: 0 <= i < |ranges| ==> 0 <= ranges[i].lo < ranges[i].hi < U64_MODULUS
  }

  predicate NonNegative(ranges: seq<Range>) {
    forall i :: 0 <= i < |ranges| ==> 0 <= ranges[i].lo && 0 <= ranges[i].hi
  }

  function Block(entry: U64, ranges: seq<Range>): (r: Bytes)
    requires NonNegative(ranges)
    ensures |r| == 24 + 16 * |ranges|
  {
    Le(entry, 8) + RangeBytes(ranges) + Zeros(16)
  }

  /** The words the shim's walk finds from `at` on, or None where it would leave the block. */
  function Walk(page: Bytes, at: nat): Option<seq<Range>>
    requires |page| == PAGE
    decreases PAGE - at
  {
    if at + 16 > SHIM_DATA_END then None
    else
      var lo, hi := Get64(page, at), Get64(page, at + 8);
      if lo == 0 && hi == 0 then Some([])
      else
        match Walk(page, at + 16)
        case None => None
        case Some(rest) => Some([Range(lo, hi)] + rest)
  }

  /** One turn of the walk: a terminator exactly when nothing is left, else the next range. */
  lemma {:induction false} WalkTurn(page: Bytes, at: nat, left: seq<Range>)
    requires |page| == PAGE && Walk(page, at) == Some(left)
    ensures at + 16 <= SHIM_DATA_END
    ensures var lo, hi := Get64(page, at), Get64(page, at + 8);
            if left == [] then lo == 0 && hi == 0
            else
              && !(lo == 0 && hi == 0) && left[0] == Range(lo, hi)
              && Walk(page, at + 16) == Some(left[1..])
  {
  }

  /** An assembled shim whose code stays clear of its data area. */
  ghost predicate RoomForData(blob: Bytes) {
    |blob| == PAGE && forall i :: SHIM_DATA <= i < SHIM_DATA_END ==> blob[i] == 0
  }

  /** Packs the entry point and the ranges into a copy of the assembled shim. */
  method Shim(blob: Bytes, entry: U64, ranges: seq<Range>) returns (r: Result<Bytes, ShimError>)
    requires |blob| == PAGE && NonNegative(ranges)
    ensures r.Err? && r.error.BlockTooLarge? <==> |ranges| > 61
    ensures |ranges| > 61 ==> r == Err(BlockTooLarge(24 + 16 * |ranges|))
    ensures r.Ok? ==>
              && |ranges| <= MAX_RANGES
              && r.value == Splice(blob, SHIM_DATA, Block(entry, ranges))
              && forall i :: SHIM_DATA <= i < SHIM_DATA + |Block(entry, ranges)| ==> blob[i] == 0
    ensures |ranges| <= MAX_RANGES && RoomForData(blob) ==> r.Ok?
  {
    var data := Le(entry, 8);
    for i := 0 to |ranges|
      invariant data == Le(entry, 8) + RangeBytes(ranges[..i])
    {
      assert ranges[..i + 1][..i] == ranges[..i];
      data := data + Le(ranges[i].lo, 8) + Le(ranges[i].hi, 8);
    }
    assert ranges[..|ranges|] == ranges;
    data := data + Zeros(16);
    if |data| > SHIM_DATA_SIZE {
      return Err(BlockTooLarge(|data|));
    }
    for i := SHIM_DATA to SHIM_DATA + |data|
      invariant forall j :: SHIM_DATA <= j < i ==> blob[j] == 0
    {
      if blob[i] != 0 {
        return Err(CodeOverrun);
      }
    }
    var shim := new Byte[|blob|](i requires 0 <= i < |blob| => blob[i]);
    assert shim[..] == blob;
    Put(shim, SHIM_DATA, data);
    return Ok(shim[..]);
  }

  // ---------- the walk undoes the packing ----------

  lemma {:induction false} EarlierWords(init: Bytes, last: Bytes, at: nat)
    requires at + 16 <= |init|
    ensures (init + last)[at..at + 8] == init[at..at + 8] && (init + last)[at + 8..at + 16] == init[at + 8..at + 16]
  {
    SliceOfConcat(init, last, at, at + 8);
    SliceOfConcat(init, last, at + 8, at + 16);
  }

  lemma {:induction false} LastWords(init: Bytes, lo: Bytes, hi: Bytes, at: nat)
    requires |lo| == 8 && |hi| == 8 && at == |init|
    ensures (init + (lo + hi))[at..at + 8] == lo && (init + (lo + hi))[at + 8..at + 16] == hi
  {
    SliceOfTail(init, lo + hi, 0, 8);
    SliceOfTail(init, lo + hi, 8, 16);
    MiddleOfThree([], lo, hi);
    assert [] + lo + hi == lo + hi;
  }

  lemma {:induction false} RangeBytesAt(ranges: seq<Range>, k: nat, at: nat)
    requires NonNegative(ranges) && k < |ranges| && at == 16 * k
    ensures RangeBytes(ranges)[at..at + 8] == Le(ranges[k].lo, 8)
    ensures RangeBytes(ranges)[at + 8..at + 16] == Le(ranges[k].hi, 8)
  {
    var n := |ranges| - 1;
    var init := RangeBytes(ranges[..n]);
    LastRange(ranges);
    if k < n {
      RangeBytesAt(ranges[..n], k, at);
      EarlierWords(init, Le(ranges[n].lo, 8) + Le(ranges[n].hi, 8), at);
    } else {
      LastWords(init, Le(ranges[n].lo, 8), Le(ranges[n].hi, 8), at);
    }
  }

  lemma {:induction false} LastRange(ranges: seq<Range>)
    requires NonNegative(ranges) && ranges != []
    ensures var n := |ranges| - 1;
            && NonNegative(ranges[..n]) && |RangeBytes(ranges[..n])| == 16 * n
            && RangeBytes(ranges) == RangeBytes(ranges[..n]) + (Le(ranges[n].lo, 8) + Le(ranges[n].hi, 8))
  {
  }

  /** The shim page built from `blob`, where it exists. */
  ghost predicate IsShimPage(page: Bytes, blob: Bytes, entry: U64, ranges: seq<Range>) {
    && |blob| == PAGE && Encodable(ranges) && |ranges| <= MAX_RANGES
    && page == Splice(blob, SHIM_DATA, Block(entry, ranges))
  }

  lemma {:induction false} BlockBody(entry: U64, ranges: seq<Range>, lo: nat, hi: nat)
    requires NonNegative(ranges) && lo <= hi <= 16 * |ranges|
    ensures Block(entry, ranges)[8 + lo..8 + hi] == RangeBytes(ranges)[lo..hi]
  {
  }

  lemma {:induction false} BlockWord(page: Bytes, blob: Bytes, entry: U64, ranges: seq<Range>, b: nat, word: U64)
    requires IsShimPage(page, blob, entry, ranges) && b + 8 <= |Block(entry, ranges)|
    requires Block(entry, ranges)[b..b + 8] == Le(word, 8)
    ensures Get64(page, SHIM_DATA + b) == word
  {
    SpliceReads(blob, SHIM_DATA, Block(entry, ranges), b, b + 8);
    LeRoundTrip64(word);
  }

  lemma {:induction false} BlockEnd(entry: U64, ranges: seq<Range>, b: nat)
    requires NonNegative(ranges) && (b == 8 + 16 * |ranges| || b == 16 + 16 * |ranges|)
    ensures Block(entry, ranges)[b..b + 8] == Le(0, 8)
  {
    ZeroWord();
  }

  /** A word of the ranges is a word of the block, eight bytes on. */
  lemma {:induction false} BodyWord(page: Bytes, blob: Bytes, entry: U64, ranges: seq<Range>, at: nat, word: U64)
    requires IsShimPage(page, blob, entry, ranges) && at + 8 <= 16 * |ranges|
    requires RangeBytes(ranges)[at..at + 8] == Le(word, 8)
    ensures Get64(page, SHIM_DATA + (8 + at)) == word
  {
    BlockBody(entry, ranges, at, at + 8);
    BlockWord(page, blob, entry, ranges, 8 + at, word);
  }

  lemma {:induction false} BodyWords(page: Bytes, blob: Bytes, entry: U64, ranges: seq<Range>, k: nat, at: nat)
    requires IsShimPage(page, blob, entry, ranges) && k < |ranges| && at == 16 * k
    ensures Get64(page, SHIM_DATA + (8 + at)) == ranges[k].lo
    ensures Get64(page, SHIM_DATA + (16 + at)) == ranges[k].hi
  {
    RangeBytesAt(ranges, k, at);
    BodyWord(page, blob, entry, ranges, at, ranges[k].lo);
    BodyWord(page, blob, entry, ranges, at + 8, ranges[k].hi);
  }

  lemma {:induction false} EndWords(page: Bytes, blob: Bytes, entry: U64, ranges: seq<Range>, n: nat)
    requires IsShimPage(page, blob, entry, ranges) && n == |ranges|
    ensures Get64(page, SHIM_DATA + (8 + 16 * n)) == 0
    ensures Get64(page, SHIM_DATA + (16 + 16 * n)) == 0
  {
    BlockEnd(entry, ranges, 8 + 16 * n);
    BlockEnd(entry, ranges, 16 + 16 * n);
    BlockWord(page, blob, entry, ranges, 8 + 16 * n, 0);
    BlockWord(page, blob, entry, ranges, 16 + 16 * n, 0);
  }

  lemma {:induction false} BlockWords(page: Bytes, blob: Bytes, entry: U64, ranges: seq<Range>, k: nat)
    requires IsShimPage(page, blob, entry, ranges) && k <= |ranges|
    ensures var at := SHIM_DATA + 8 + 16 * k;
            && Get64(page, at) == (if k < |ranges| then ranges[k].lo else 0)
            && Get64(page, at + 8) == (if k < |ranges| then ranges[k].hi else 0)
  {
    if k < |ranges| {
      BodyWords(page, blob, entry, ranges, k, 16 * k);
    } else {
      EndWords(page, blob, entry, ranges, k);
    }
    assert SHIM_DATA + 8 + 16 * k == SHIM_DATA + (8 + 16 * k);
    assert SHIM_DATA + 8 + 16 * k + 8 == SHIM_DATA + (16 + 16 * k);
  }

  lemma {:induction false} WalkFrom(page: Bytes, blob: Bytes, entry: U64, ranges: seq<Range>, k: nat)
    requires IsShimPage(page, blob, entry, ranges) && k <= |ranges|
    ensures Walk(page, SHIM_DATA + 8 + 16 * k) == Some(ranges[k..])
    decreases |ranges| - k
  {
    BlockWords(page, blob, entry, ranges, k);
    var at := SHIM_DATA + 8 + 16 * k;
    assert at + 16 <= SHIM_DATA_END;
    if k < |ranges| {
      assert at + 16 == SHIM_DATA + 8 + 16 * (k + 1);
      WalkFrom(page, blob, entry, ranges, k + 1);
      assert ranges[k..] == [ranges[k]] + ranges[k + 1..];
    }
  }

  lemma {:induction false} EntryWord(page: Bytes, blob: Bytes, entry: U64, ranges: seq<Range>)
    requires IsShimPage(page, blob, entry, ranges)
    ensures |page| == PAGE && Get64(page, SHIM_DATA) == entry
  {
    assert Block(entry, ranges)[0..8] == Le(entry, 8);
    BlockWord(page, blob, entry, ranges, 0, entry);
  }

  /** Outside the data area the page is the shim as assembled. */
  lemma {:induction false} CodeKept(page: Bytes, blob: Bytes, entry: U64, ranges: seq<Range>)
    requires IsShimPage(page, blob, entry, ranges)
    ensures |page| == |blob| == PAGE
    ensures forall i :: 0 <= i < PAGE && !(SHIM_DATA <= i < SHIM_DATA_END) ==> page[i] == blob[i]
  {
  }

  /** The shim reads back the entry point and exactly the ranges packed, and stops in the block. */
  lemma {:induction false} ShimRoundTrip(page: Bytes, blob: Bytes, entry: U64, ranges: seq<Range>)
    requires IsShimPage(page, blob, entry, ranges)
    ensures |page| == PAGE
    ensures Get64(page, 0xc00) == entry
    ensures Walk(page, 0xc08) == Some(ranges)
    ensures forall i :: 0 <= i < PAGE && !(0xc00 <= i < 0xff0) ==> page[i] == blob[i]
  {
    EntryWord(page, blob, entry, ranges);
    CodeKept(page, blob, entry, ranges);
    WalkFrom(page, blob, entry, ranges, 0);
    assert ranges[0..] == ranges;
  }
}
