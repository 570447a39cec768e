/** The TDX build-time measurement, over an arbitrary hash: a record stream that spells out the pages. */
module Mrtd {
  import opened Wrappers
  import opened Layout
  import opened Bytes
  import opened Collections

  const RECORD := 128
  const GPA_AT := 16
  const CHUNK := 256
  const CHUNKS := PAGE / CHUNK
  const STEP := RECORD + CHUNK
  const PAGE_STREAM := RECORD + CHUNKS * STEP

  const PAGE_ADD: Bytes := [0x4d, 0x45, 0x4d, 0x2e, 0x50, 0x41, 0x47, 0x45, 0x2e, 0x41, 0x44, 0x44]
  const MR_EXTEND: Bytes := [0x4d, 0x52, 0x2e, 0x45, 0x58, 0x54, 0x45, 0x4e, 0x44]

  type Hash = Bytes -> Bytes
  datatype MeasuredPage = MeasuredPage(gpa: U64, data: Bytes)

  predicate WholePages(pages: seq<MeasuredPage>) {
    forall i :: 0 <= i < |pages| ==> |pages[i].data| == PAGE
  }

  /** A record: its name, and the address it is about. */
  function Record(name: Bytes, gpa: U64): (r: Bytes)
    requires |name| <= GPA_AT
    ensures |r| == RECORD
  {
    name + Zeros(GPA_AT - |name|) + Le(gpa, 8) + Zeros(RECORD - GPA_AT - 8)
  }

  function Chunk(data: Bytes, k: nat): (r: Bytes)
    requires |data| >= PAGE && k < CHUNKS
    ensures |r| == CHUNK
  {
    data[k * CHUNK..(k + 1) * CHUNK]
  }

  /** One TDH.MR.EXTEND for each of the first `n` chunks, each with its bytes. */
  function Extends(gpa: U64, data: Bytes, n: nat): (r: Bytes)
    requires |data| >= PAGE && n <= CHUNKS
    ensures |r| == n * STEP
  {
    if n == 0 then []
    else Extends(gpa, data, n - 1) + (Record(MR_EXTEND, AddU64(gpa, (n - 1) * CHUNK)) + Chunk(data, n - 1))
  }

  function PageStream(p: MeasuredPage): (r: Bytes)
    requires |p.data| == PAGE
    ensures |r| == PAGE_STREAM
  {
    Record(PAGE_ADD, p.gpa) + Extends(p.gpa, p.data, |p.data| / CHUNK)
  }

  function Stream(pages: seq<MeasuredPage>): Bytes
    requires WholePages(pages)
  {
    if pages == [] then [] else Stream(pages[..|pages| - 1]) + PageStream(pages[|pages| - 1])
  }

  // ---------- the nested loops ----------

  method MakeRecord(name: Bytes, gpa: U64) returns (r: Bytes)
    requires |name| <= GPA_AT
    ensures r == Record(name, gpa)
  {
    var v := new Byte[RECORD](_ => 0);
    Put(v, 0, name);
    Put64(v, GPA_AT, gpa);
    r := v[..];
    assert r == Record(name, gpa);
  }

  /** One turn of the inner loop; the bytes hashed so far stand for the running hash state. */
  method HashChunk(hashed: Bytes, p: MeasuredPage, k: nat) returns (r: Bytes)
    requires |p.data| == PAGE && k < CHUNKS
    ensures r == hashed + (Record(MR_EXTEND, AddU64(p.gpa, k * CHUNK)) + Chunk(p.data, k))
  {
    var record := MakeRecord(MR_EXTEND, AddU64(p.gpa, k * CHUNK));
    r := hashed + record;
    r := r + p.data[k * CHUNK..k * CHUNK + CHUNK];
  }

  lemma {:induction false} JoinExtends(start: Bytes, p: MeasuredPage, k: nat)
    requires |p.data| == PAGE && k < CHUNKS
    ensures start + Extends(p.gpa, p.data, k) + (Record(MR_EXTEND, AddU64(p.gpa, k * CHUNK)) + Chunk(p.data, k)) ==
            start + Extends(p.gpa, p.data, k + 1)
  {
  }

  method HashPage(hashed: Bytes, p: MeasuredPage) returns (r: Bytes)
    requires |p.data| == PAGE
    ensures r == hashed + PageStream(p)
  {
    var record := MakeRecord(PAGE_ADD, p.gpa);
    r := hashed + record;
    ghost var start := r;
    for k := 0 to CHUNKS
      invariant r == start + Extends(p.gpa, p.data, k)
    {
      JoinExtends(start, p, k);
      r := HashChunk(r, p, k);
    }
  }

  method Calculate(H: Hash, pages: seq<MeasuredPage>) returns (digest: Bytes)
    requires WholePages(pages)
    ensures digest == H(Stream(pages)) && Decode(Stream(pages)) == Some(pages)
  {
    StreamRoundTrip(pages);
    var hashed: Bytes := [];
    for i := 0 to |pages|
      invariant hashed == Stream(pages[..i])
    {
      assert pages[..i + 1][..i] == pages[..i];
      hashed := HashPage(hashed, pages[i]);
    }
    assert pages[..|pages|] == pages;
    digest := H(hashed);
  }

  // ---------- reading the stream back ----------

  /** A name, zero-padded to the sixteen bytes it has in a record. */
  function Field16(name: string): (r: Bytes)
    requires |name| <= 16
    ensures |r| == 16
  {
    Ascii(name) + Zeros(16 - |name|)
  }

  /** A 128-byte record: this name at 0, an address at 16 and zero everywhere else; nothing if it is anything else. */
  function ReadRecord(s: Bytes, name: string): Option<U64>
    requires |s| == 128 && |name| <= 16
  {
    Pow256Values();
    FromLeBound(s[16..24]);
    if s[..16] == Field16(name) && s[24..] == Zeros(104) then Some(FromLe(s[16..24])) else None
  }

  /** MR.EXTEND records, each for the next 256 bytes of the page and followed by them. */
  function ReadChunks(s: Bytes, gpa: U64, n: nat): Option<Bytes>
    requires |s| == n * 384
  {
    if n == 0 then Some([])
    else
      var rest, last := s[..(n - 1) * 384], s[(n - 1) * 384..];
      match ReadChunks(rest, gpa, n - 1)
      case None => None
      case Some(data) =>
        if ReadRecord(last[..128], "MR.EXTEND") == Some(AddU64(gpa, (n - 1) * 256)) then Some(data + last[128..])
        else None
  }

  /** A page: one MEM.PAGE.ADD record, then exactly sixteen chunks. */
  function ReadPage(s: Bytes): Option<MeasuredPage>
    requires |s| == 128 + 16 * 384
  {
    match ReadRecord(s[..128], "MEM.PAGE.ADD")
    case None => None
    case Some(gpa) =>
      match ReadChunks(s[128..], gpa, (|s| - 128) / 384)
      case None => None
      case Some(data) => Some(MeasuredPage(gpa, data))
  }

  /** The stream in blocks of a page's records and bytes. */
  function Blocks(s: Bytes): (r: seq<Bytes>)
    requires |s| % 6272 == 0
    ensures |r| == |s| / 6272 && forall i :: 0 <= i < |r| ==> |r[i]| == 128 + 16 * 384
  {
    seq(|s| / 6272, i requires 0 <= i < |s| / 6272 => s[i * 6272..(i + 1) * 6272])
  }

  /** Each block read as a page; nothing if some block is not one. */
  function ReadAll(blocks: seq<Bytes>): Option<seq<MeasuredPage>>
    requires forall i :: 0 <= i < |blocks| ==> |blocks[i]| == 128 + 16 * 384
  {
    if blocks == [] then Some([])
    else
      var n := |blocks| - 1;
      var rest, page := ReadAll(blocks[..n]), ReadPage(blocks[n]);
      if rest == None || page == None then None else Some(rest.value + [page.value])
  }

  /** A stream of pages and nothing else. */
  function Decode(s: Bytes): Option<seq<MeasuredPage>> {
    if |s| % 6272 != 0 then None else ReadAll(Blocks(s))
  }

  /** The bytes of a name, as a record holds them. */
  ghost predicate Names(bytes: Bytes, name: string) {
    |name| <= 16 && |bytes| == |name| && bytes + Zeros(16 - |bytes|) == Field16(name)
  }

  lemma {:induction false} NamesSpelled()
    ensures Names(PAGE_ADD, "MEM.PAGE.ADD") && Names(MR_EXTEND, "MR.EXTEND")
  {
  }

  lemma {:induction false} RecordParts(bytes: Bytes, gpa: U64)
    requires |bytes| <= 16
    ensures var r := Record(bytes, gpa);
            r[..16] == bytes + Zeros(16 - |bytes|) && r[16..24] == Le(gpa, 8) && r[24..] == Zeros(104)
  {
  }

  lemma {:induction false} RecordReads(bytes: Bytes, name: string, gpa: U64)
    requires Names(bytes, name)
    ensures ReadRecord(Record(bytes, gpa), name) == Some(gpa)
  {
    RecordParts(bytes, gpa);
    LeRoundTrip64(gpa);
  }

  lemma {:induction false} SamePieces(s: Bytes, t: Bytes)
    requires |s| == 128 && |t| == 128 && s[..16] == t[..16] && s[16..24] == t[16..24] && s[24..] == t[24..]
    ensures s == t
  {
    assert s == s[..16] + s[16..24] + s[24..] && t == t[..16] + t[16..24] + t[24..];
  }

  /** And no other record reads so. */
  lemma {:induction false} RecordIs(s: Bytes, bytes: Bytes, name: string, gpa: U64)
    requires |s| == 128 && Names(bytes, name) && ReadRecord(s, name) == Some(gpa)
    ensures s == Record(bytes, gpa)
  {
    LeOfFromLe(s[16..24]);
    RecordParts(bytes, gpa);
    SamePieces(s, Record(bytes, gpa));
  }

  lemma {:induction false} TakeGrows(data: Bytes, k: nat)
    requires |data| >= PAGE && k < CHUNKS
    ensures data[..k * 256] + Chunk(data, k) == data[..(k + 1) * 256]
  {
  }

  lemma {:induction false} ChunksRead(gpa: U64, data: Bytes, n: nat)
    requires |data| >= PAGE && n <= CHUNKS
    ensures ReadChunks(Extends(gpa, data, n), gpa, n) == Some(data[..n * 256])
  {
    if n > 0 {
      var s, rest := Extends(gpa, data, n), Extends(gpa, data, n - 1);
      var record := Record(MR_EXTEND, AddU64(gpa, (n - 1) * 256));
      ChunksRead(gpa, data, n - 1);
      NamesSpelled();
      RecordReads(MR_EXTEND, "MR.EXTEND", AddU64(gpa, (n - 1) * 256));
      LastStep(s, rest, record, Chunk(data, n - 1));
      TakeGrows(data, n - 1);
    }
  }

  lemma {:induction false} LastStep(s: Bytes, rest: Bytes, record: Bytes, chunk: Bytes)
    requires s == rest + (record + chunk) && |record| == 128
    ensures s[..|rest|] == rest && s[|rest|..][..128] == record && s[|rest|..][128..] == chunk
  {
  }

  /** What a list of chunks read is what its first ones and its last read. */
  lemma {:induction false} ChunksSplit(s: Bytes, gpa: U64, n: nat, data: Bytes)
    requires 0 < n <= CHUNKS && |s| == n * 384 && |data| >= PAGE && ReadChunks(s, gpa, n) == Some(data[..n * 256])
    ensures ReadChunks(s[..(n - 1) * 384], gpa, n - 1) == Some(data[..(n - 1) * 256])
    ensures s[(n - 1) * 384..][128..] == Chunk(data, n - 1)
    ensures ReadRecord(s[(n - 1) * 384..][..128], "MR.EXTEND") == Some(AddU64(gpa, (n - 1) * 256))
  {
    var rest, last := s[..(n - 1) * 384], s[(n - 1) * 384..];
    var before := ReadChunks(rest, gpa, n - 1).value;
    ChunksLong(rest, gpa, n - 1);
    TakeGrows(data, n - 1);
    SameHalves(before, last[128..], data[..(n - 1) * 256], Chunk(data, n - 1));
  }

  lemma {:induction false} SameHalves(a: Bytes, b: Bytes, c: Bytes, d: Bytes)
    requires a + b == c + d && |a| == |c|
    ensures a == c && b == d
  {
    assert a == (a + b)[..|a|] && c == (c + d)[..|a|];
    assert b == (a + b)[|a|..] && d == (c + d)[|a|..];
  }

  lemma {:induction false} StepJoins(s: Bytes, n: nat, record: Bytes, chunk: Bytes)
    requires n + 128 <= |s| && s[n..][..128] == record && s[n..][128..] == chunk
    ensures s == s[..n] + (record + chunk)
  {
    var last := s[n..];
    assert last == last[..128] + last[128..] && s == s[..n] + last;
  }

  /** Whatever reads as chunks was written from the data they give. */
  lemma {:induction false} ChunksAre(s: Bytes, gpa: U64, n: nat, data: Bytes)
    requires |s| == n * 384 && n <= CHUNKS && |data| >= PAGE
    requires ReadChunks(s, gpa, n) == Some(data[..n * 256])
    ensures s == Extends(gpa, data, n)
  {
    if n > 0 {
      var m, record := (n - 1) * 384, Record(MR_EXTEND, AddU64(gpa, (n - 1) * 256));
      ChunksSplit(s, gpa, n, data);
      ChunksAre(s[..m], gpa, n - 1, data);
      NamesSpelled();
      RecordIs(s[m..][..128], MR_EXTEND, "MR.EXTEND", AddU64(gpa, (n - 1) * 256));
      StepJoins(s, m, record, Chunk(data, n - 1));
    }
  }

  lemma {:induction false} ChunksLong(s: Bytes, gpa: U64, n: nat)
    requires |s| == n * 384 && ReadChunks(s, gpa, n).Some?
    ensures |ReadChunks(s, gpa, n).value| == n * 256
  {
    if n > 0 {
      ChunksLong(s[..(n - 1) * 384], gpa, n - 1);
    }
  }

  lemma {:induction false} ReadPageBack(p: MeasuredPage)
    requires |p.data| == PAGE
    ensures ReadPage(PageStream(p)) == Some(p)
  {
    var s, r, x := PageStream(p), Record(PAGE_ADD, p.gpa), Extends(p.gpa, p.data, CHUNKS);
    assert s[..128] == r && s[128..] == x;
    NamesSpelled();
    RecordReads(PAGE_ADD, "MEM.PAGE.ADD", p.gpa);
    ChunksRead(p.gpa, p.data, CHUNKS);
    assert p.data[..PAGE] == p.data;
  }

  lemma {:induction false} PageIs(s: Bytes, p: MeasuredPage)
    requires |s| == PAGE_STREAM && ReadPage(s) == Some(p)
    ensures |p.data| == PAGE && s == PageStream(p)
  {
    NamesSpelled();
    RecordIs(s[..128], PAGE_ADD, "MEM.PAGE.ADD", p.gpa);
    ChunksLong(s[128..], p.gpa, CHUNKS);
    assert p.data[..PAGE] == p.data;
    ChunksAre(s[128..], p.gpa, CHUNKS, p.data);
    assert s == s[..128] + s[128..];
  }

  lemma {:induction false} BlocksSnoc(s: Bytes, t: Bytes, n: nat)
    requires |s| == n * 6272 && |t| == 6272
    ensures |s + t| == (n + 1) * 6272 && Blocks(s + t) == Blocks(s) + [t]
  {
    var x, y := Blocks(s + t), Blocks(s) + [t];
    forall i | 0 <= i <= n
      ensures x[i] == y[i]
    {
      if i < n {
        assert (i + 1) * 6272 <= |s|;
        SliceOfConcat(s, t, i * 6272, (i + 1) * 6272);
      } else {
        SliceOfConcat(s, t, 0, 0);
      }
    }
  }

  function Flat(parts: seq<Bytes>): Bytes {
    if parts == [] then [] else Flat(parts[..|parts| - 1]) + parts[|parts| - 1]
  }

  /** Page-sized parts joined come apart again as they were. */
  lemma {:induction false} FlatBlocks(parts: seq<Bytes>)
    requires forall i :: 0 <= i < |parts| ==> |parts[i]| == 6272
    ensures |Flat(parts)| == |parts| * 6272 && Blocks(Flat(parts)) == parts
  {
    if parts != [] {
      var n := |parts| - 1;
      FlatBlocks(parts[..n]);
      BlocksSnoc(Flat(parts[..n]), parts[n], n);
      assert parts == parts[..n] + [parts[n]];
    }
  }

  function Parts(pages: seq<MeasuredPage>): (r: seq<Bytes>)
    requires WholePages(pages)
    ensures |r| == |pages| && forall i :: 0 <= i < |r| ==> r[i] == PageStream(pages[i])
  {
    seq(|pages|, i requires 0 <= i < |pages| => PageStream(pages[i]))
  }

  lemma {:induction false} StreamIsFlat(pages: seq<MeasuredPage>)
    requires WholePages(pages)
    ensures Stream(pages) == Flat(Parts(pages))
  {
    if pages != [] {
      var n := |pages| - 1;
      StreamIsFlat(pages[..n]);
      assert Parts(pages)[..n] == Parts(pages[..n]);
    }
  }

  lemma {:induction false} StreamBlocks(pages: seq<MeasuredPage>)
    requires WholePages(pages)
    ensures |Stream(pages)| % 6272 == 0 && Blocks(Stream(pages)) == Parts(pages)
  {
    StreamIsFlat(pages);
    FlatBlocks(Parts(pages));
  }

  /** A block is read as one page and no other. */
  ghost predicate ReadsAs(block: Bytes, p: MeasuredPage) {
    |block| == 6272 && ReadPage(block) == Some(p)
  }

  ghost predicate AllReadAs(blocks: seq<Bytes>, pages: seq<MeasuredPage>) {
    |blocks| == |pages| && forall i :: 0 <= i < |pages| ==> ReadsAs(blocks[i], pages[i])
  }

  lemma {:induction false} AllRead(blocks: seq<Bytes>, pages: seq<MeasuredPage>)
    requires AllReadAs(blocks, pages)
    ensures ReadAll(blocks) == Some(pages)
  {
    if pages != [] {
      var n := |pages| - 1;
      AllRead(blocks[..n], pages[..n]);
      assert ReadsAs(blocks[n], pages[n]) && pages == pages[..n] + [pages[n]];
    }
  }

  lemma {:induction false} AllReadBack(blocks: seq<Bytes>, pages: seq<MeasuredPage>)
    requires forall i :: 0 <= i < |blocks| ==> |blocks[i]| == 6272
    requires ReadAll(blocks) == Some(pages)
    ensures AllReadAs(blocks, pages)
  {
    if blocks != [] {
      var n := |blocks| - 1;
      var rest, page := ReadAll(blocks[..n]).value, ReadPage(blocks[n]).value;
      AllReadBack(blocks[..n], rest);
      AsSnoc(blocks, n, rest, page);
    }
  }

  lemma {:induction false} AsSnoc(blocks: seq<Bytes>, n: nat, rest: seq<MeasuredPage>, page: MeasuredPage)
    requires |blocks| == n + 1 && AllReadAs(blocks[..n], rest) && ReadsAs(blocks[n], page)
    ensures AllReadAs(blocks, rest + [page])
  {
    forall i | 0 <= i <= n
      ensures ReadsAs(blocks[i], (rest + [page])[i])
    {
      assert i < n ==> ReadsAs(blocks[..n][i], rest[i]);
    }
  }

  /** The hashed bytes spell out the page list, record by record: it is what a strict reader finds in them. */
  lemma {:induction false} StreamRoundTrip(pages: seq<MeasuredPage>)
    requires WholePages(pages)
    ensures Decode(Stream(pages)) == Some(pages)
  {
    StreamBlocks(pages);
    forall i | 0 <= i < |pages|
      ensures ReadsAs(Parts(pages)[i], pages[i])
    {
      ReadPageBack(pages[i]);
    }
    AllRead(Parts(pages), pages);
  }

  /** Bytes cut into the same blocks are the same bytes. */
  lemma {:induction false} BlocksFix(s: Bytes, t: Bytes)
    requires |s| % 6272 == 0 && |t| % 6272 == 0 && Blocks(s) == Blocks(t)
    ensures s == t
  {
    forall k | 0 <= k < |s|
      ensures s[k] == t[k]
    {
      var i := k / 6272;
      assert Blocks(s)[i][k % 6272] == s[k] && Blocks(t)[i][k % 6272] == t[k];
    }
  }

  /** And no other bytes read as that list. */
  lemma {:induction false} StreamUnique(s: Bytes, pages: seq<MeasuredPage>)
    requires Decode(s) == Some(pages)
    ensures WholePages(pages) && s == Stream(pages)
  {
    var blocks := Blocks(s);
    AllReadBack(blocks, pages);
    forall i | 0 <= i < |pages|
      ensures |pages[i].data| == PAGE && blocks[i] == PageStream(pages[i])
    {
      assert ReadsAs(blocks[i], pages[i]);
      PageIs(blocks[i], pages[i]);
    }
    assert blocks == Parts(pages);
    StreamBlocks(pages);
    BlocksFix(s, Stream(pages));
  }

  /** Equal MRTDs mean equal page lists, or two streams the hash cannot tell apart. */
  lemma {:induction false} MrtdBinds(H: Hash, x: seq<MeasuredPage>, y: seq<MeasuredPage>)
    requires WholePages(x) && WholePages(y)
    requires H(Stream(x)) == H(Stream(y))
    ensures x == y || (Stream(x) != Stream(y) && H(Stream(x)) == H(Stream(y)))
  {
    if Stream(x) == Stream(y) {
      StreamRoundTrip(x);
      StreamRoundTrip(y);
    }
  }
}
