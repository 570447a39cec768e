/** The four-level identity map and the hardware walk that reads it. */
module IdentityMap {
  import opened Layout
  import opened Bytes

  const GIBS := MAP_LIMIT / GIB
  const PHYS_LIMIT := 0x10_0000_0000_0000

  function Pow2(k: nat): (p: nat)
    ensures p > 0
  {
    if k == 0 then 1 else 2 * Pow2(k - 1)
  }

  predicate Bit(n: nat, k: nat) { n / Pow2(k) % 2 == 1 }

  /** `n | 1 << k`. */
  function OrBit(n: nat, k: nat): nat {
    if Bit(n, k) then n else n + Pow2(k)
  }

  /** The C-bit ORed into an entry, which position 0 leaves out. */
  function WithC(n: nat, cbit: nat): nat {
    if cbit == 0 then n else OrBit(n, cbit)
  }

  const PRESENT_WRITABLE := 3
  const HUGE := 0x83

  function Word(v: Bytes, w: nat): nat
    requires Fits(v, 8 * w, 8)
  {
    Get64(v, 8 * w)
  }

  /** The eight-byte words hardware finds: PML4[0], `gibs` entries below it, and on SNP the alias. */
  function TableWord(w: nat, cbit: nat, gibs: nat, alias: bool): nat {
    if w == 0 then WithC(0x10_1000, cbit) + 3
    else if w == 1 && alias then WithC(0x10_2000, cbit) + 3
    else if 512 <= w < 512 + gibs then WithC((w - 512) * 0x4000_0000, cbit) + 0x83
    else if w == 1024 && alias then 0x83
    else 0
  }

  ghost predicate IsMap(v: Bytes, cbit: nat, alias: bool) {
    && |v| == (if alias then 3 else 2) * PAGE
    && forall w :: 0 <= w < |v| / 8 ==> Word(v, w) == TableWord(w, cbit, GIBS, alias)
  }

  // ---------- the walk ----------

  datatype Translation = Fault | Mapped(pa: nat, encrypted: bool)

  predicate Encrypted(e: nat, cbit: nat) { 0 < cbit < 52 && Bit(e, cbit) }

  /** An entry without its C-bit, which is no part of the address where hardware has one there. */
  function Bare(e: nat, cbit: nat): int {
    if Encrypted(e, cbit) then e - Pow2(cbit) else e
  }

  /** The frame an entry names: address bits end at 51. */
  function Frame(e: nat, cbit: nat, size: nat): int
    requires size > 0
  {
    Bare(e, cbit) % PHYS_LIMIT / size * size
  }

  /** Present and writable, which is what a shim needs of every page it stores to. */
  predicate Present(e: nat) { e % 4 == 3 }
  predicate PageSize(e: nat) { e / 128 % 2 == 1 }

  function Leaf(e: nat, cbit: nat, va: nat): Translation {
    if Present(e) && PageSize(e) && Frame(e, cbit, GIB) >= 0
    then Mapped(Frame(e, cbit, GIB) + va % GIB, Encrypted(e, cbit))
    else Fault
  }

  /** The walk from PML4 through 1-GiB PDPT entries, for a canonical low address. */
  function Translate(v: Bytes, cbit: nat, va: nat): Translation
    requires |v| >= 2 * PAGE && |v| % PAGE == 0 && va < 0x8000_0000_0000
  {
    var e4 := Word(v, va / MAP_LIMIT);
    if !Present(e4) then Fault
    else
      var w := (Frame(e4, cbit, PAGE) - PAGE_TABLES) / 8 + va / GIB % 512;
      if !(0 <= w < |v| / 8) then Fault else Leaf(Word(v, w), cbit, va)
  }

  // ---------- powers of two ----------

  lemma {:induction false} Pow2Add(a: nat, b: nat)
    ensures Pow2(a + b) == Pow2(a) * Pow2(b)
  {
    if a > 0 {
      Pow2Add(a - 1, b);
      assert Pow2(a + b) == 2 * (Pow2(a - 1) * Pow2(b));
    }
  }

  lemma {:induction false} Pow2At8()
    ensures Pow2(1) == 2 && Pow2(4) == 16 && Pow2(8) == 256
  {
    assert Pow2(2) == 4;
    Pow2Add(2, 2);
    Pow2Add(4, 4);
  }

  lemma {:induction false} Pow2At32()
    ensures Pow2(32) == 0x1_0000_0000
  {
    Pow2At8();
    Pow2Add(8, 8);
    Pow2Add(16, 16);
  }

  lemma {:induction false} Pow2Values()
    ensures Pow2(30) == GIB && Pow2(32) == 0x1_0000_0000 && Pow2(39) == MAP_LIMIT
    ensures Pow2(52) == PHYS_LIMIT && Pow2(63) == 0x8000_0000_0000_0000
  {
    Pow2At8();
    Pow2At32();
    Pow2Add(2, 30);
    Pow2Add(1, 1);
    Pow2Add(8, 32);
    Pow2Add(1, 39);
    Pow2Add(4, 8);
    Pow2Add(12, 40);
    Pow2Add(1, 31);
    Pow2Add(1, 63);
    Pow2Add(32, 32);
  }

  lemma {:induction false} Pow2Grows(a: nat, b: nat)
    requires a <= b
    ensures Pow2(a) <= Pow2(b)
  {
    if a < b {
      Pow2Grows(a, b - 1);
    }
  }

  /** A value below the C-bit takes it without carrying, and the bit reads back. */
  lemma {:induction false} HighBit(low: nat, c: nat)
    requires low < Pow2(c)
    ensures !Bit(low, c) && OrBit(low, c) == low + Pow2(c) && Bit(low + Pow2(c), c)
  {
    Quotient(low, Pow2(c), 0, low);
    Quotient(low + Pow2(c), Pow2(c), 1, low);
  }

  /** Writing an entry's flags after its C-bit is writing them before. */
  lemma {:induction false} EntryWithC(n: nat, flags: nat, c: nat)
    requires n + flags < Pow2(c) && c > 0
    ensures WithC(n, c) + flags == n + flags + Pow2(c)
  {
    HighBit(n, c);
  }

  /** The C-bit leaves the flags alone, and comes off again where hardware has one. */
  lemma {:induction false} CBitOnTop(low: nat, c: nat)
    requires 8 <= c && low < Pow2(c)
    ensures Present(low + Pow2(c)) == Present(low) && PageSize(low + Pow2(c)) == PageSize(low)
    ensures c < 52 ==> Encrypted(low + Pow2(c), c) && Bare(low + Pow2(c), c) == low
    ensures c >= 52 ==> !Encrypted(low + Pow2(c), c) && Bare(low + Pow2(c), c) == low + Pow2(c)
  {
    HighBit(low, c);
    FlagsKept(low, c);
  }

  lemma {:induction false} FlagsKept(low: nat, c: nat)
    requires 8 <= c
    ensures (low + Pow2(c)) % 4 == low % 4 && (low + Pow2(c)) / 128 % 2 == low / 128 % 2
  {
    Pow2At8();
    Pow2Add(8, c - 8);
    EvenOnTop(low, Pow2(c - 8));
  }

  lemma {:induction false} EvenOnTop(low: nat, q: nat)
    ensures (low + 256 * q) % 4 == low % 4 && (low + 256 * q) / 128 % 2 == low / 128 % 2
  {
    Quotient(low + 256 * q, 4, low / 4 + 64 * q, low % 4);
    Quotient(low + 256 * q, 128, low / 128 + 2 * q, low % 128);
    Quotient(low / 128 + 2 * q, 2, low / 128 / 2 + q, low / 128 % 2);
  }

  // ---------- building the tables ----------

  lemma {:induction false} EntryFits64(n: nat, cbit: nat)
    requires cbit <= 63 && n < 0x80_0000_0000
    ensures WithC(n, cbit) + HUGE < U64_MODULUS
  {
    Pow2Values();
    Pow2Grows(cbit, 63);
  }

  method Build(cbit: nat, alias: bool) returns (v: Bytes)
    requires cbit <= 63
    ensures IsMap(v, cbit, alias)
  {
    var pages := if alias then 3 else 2;
    var t := new Byte[pages * PAGE](_ => 0);
    ZeroWords(t[..]);
    EntryFits64(PAGE_TABLES + PAGE, cbit);
    PutWord(t, 0, WithC(PAGE_TABLES + PAGE, cbit) + PRESENT_WRITABLE);
    for gib := 0 to GIBS
      invariant forall w :: 0 <= w < t.Length / 8 ==> Word(t[..], w) == TableWord(w, cbit, gib, false)
    {
      PutGib(t, cbit, gib);
    }
    if alias {
      EntryFits64(PAGE_TABLES + 2 * PAGE, cbit);
      PutWord(t, 1, WithC(PAGE_TABLES + 2 * PAGE, cbit) + PRESENT_WRITABLE);
      PutWord(t, 1024, HUGE);
    }
    v := t[..];
  }

  method PutGib(t: array<Byte>, cbit: nat, gib: nat)
    requires cbit <= 63 && gib < GIBS && t.Length % PAGE == 0 && t.Length >= 2 * PAGE
    requires forall w :: 0 <= w < t.Length / 8 ==> Word(t[..], w) == TableWord(w, cbit, gib, false)
    modifies t
    ensures forall w :: 0 <= w < t.Length / 8 ==> Word(t[..], w) == TableWord(w, cbit, gib + 1, false)
  {
    EntryFits64(gib * GIB, cbit);
    PutWord(t, 512 + gib, WithC(gib * GIB, cbit) + HUGE);
  }

  method PutWord(t: array<Byte>, w: nat, n: U64)
    requires t.Length % 8 == 0 && 8 * w + 8 <= t.Length
    modifies t
    ensures forall x :: 0 <= x < t.Length / 8 ==> Word(t[..], x) == if x == w then n else Word(old(t[..]), x)
  {
    Put64(t, 8 * w, n);
    forall x | 0 <= x < t.Length / 8
      ensures Word(t[..], x) == if x == w then n else Word(old(t[..]), x)
    {
      WordAfter(old(t[..]), w, n, x);
    }
  }

  lemma {:induction false} ZeroWords(s: Bytes)
    requires forall i :: 0 <= i < |s| ==> s[i] == 0
    ensures forall w :: 0 <= w < |s| / 8 ==> Word(s, w) == 0
  {
    forall w | 0 <= w < |s| / 8
      ensures Word(s, w) == 0
    {
      ZeroWord();
      assert s[8 * w..8 * w + 8] == Zeros(8);
    }
  }

  // ---------- what the walk finds ----------

  lemma {:induction false} AboveFrame(low: nat, cbit: nat)
    requires 52 <= cbit && low < PHYS_LIMIT
    ensures (low + Pow2(cbit)) % PHYS_LIMIT == low
  {
    Pow2Values();
    Pow2Add(52, cbit - 52);
    Multiple(low, Pow2(cbit - 52), Pow2(cbit));
  }

  lemma {:induction false} Multiple(low: nat, q: nat, p: nat)
    requires low < PHYS_LIMIT && p == PHYS_LIMIT * q
    ensures (low + p) % PHYS_LIMIT == low
  {
    Quotient(low + p, PHYS_LIMIT, q, low);
  }

  /** What an entry shares with its bits below the C-bit. */
  predicate Reads(e: nat, low: nat, cbit: nat) {
    && (Present(e) <==> Present(low)) && (PageSize(e) <==> PageSize(low))
    && Bare(e, cbit) % PHYS_LIMIT == low
    && (Encrypted(e, cbit) <==> 0 < cbit < 52)
  }

  lemma {:induction false} TopBitReads(low: nat, cbit: nat)
    requires 32 <= cbit <= 63 && low < Pow2(cbit) && low < PHYS_LIMIT
    ensures Reads(low + Pow2(cbit), low, cbit)
  {
    CBitOnTop(low, cbit);
    if cbit >= 52 {
      AboveFrame(low, cbit);
    } else {
      Quotient(low, PHYS_LIMIT, 0, low);
    }
  }

  /** An entry is present, sized and framed as its bits below the C-bit are. */
  lemma {:induction false} EntryReads(n: nat, flags: nat, cbit: nat)
    requires n + flags < (if 32 <= cbit < 39 then 0x1_0000_0000 else MAP_LIMIT)
    requires cbit == 0 || 32 <= cbit <= 63
    ensures Reads(WithC(n, cbit) + flags, n + flags, cbit)
  {
    if cbit == 0 {
      Quotient(n + flags, PHYS_LIMIT, 0, n + flags);
    } else {
      Pow2Values();
      Pow2Grows(if cbit < 39 then 32 else 39, cbit);
      EntryWithC(n, flags, cbit);
      TopBitReads(n + flags, cbit);
    }
  }

  /** A PML4 entry leads to the table page meant, for every C-bit the parameters admit. */
  lemma {:induction false} TableEntry(base: nat, cbit: nat)
    requires cbit == 0 || 32 <= cbit <= 63
    requires base == PAGE_TABLES + PAGE || base == PAGE_TABLES + 2 * PAGE
    ensures var e := WithC(base, cbit) + PRESENT_WRITABLE; Present(e) && Frame(e, cbit, PAGE) == base
  {
    EntryReads(base, PRESENT_WRITABLE, cbit);
    var frame := if base == PAGE_TABLES + PAGE then 0x101 else 0x102;
    Quotient(base + PRESENT_WRITABLE, PAGE, frame, PRESENT_WRITABLE);
  }

  lemma {:induction false} HugeFlags(gib: nat)
    requires gib < GIBS
    ensures var low := gib * GIB + HUGE;
            Present(low) && PageSize(low) && low < MAP_LIMIT && low / GIB * GIB == gib * GIB
  {
    Quotient(gib * GIB + HUGE, GIB, gib, HUGE);
    Quotient(gib * GIB + HUGE, 128, gib * 0x80_0000 + 1, 3);
    Quotient(gib * GIB + HUGE, 4, gib * 0x1000_0000 + 0x20, 3);
    Quotient(gib * 0x80_0000 + 1, 2, gib * 0x40_0000, 1);
  }

  /** A 1-GiB entry maps its own GiB, encrypted, where the C-bit lies above the map and in the address. */
  lemma {:induction false} HugeEntry(gib: nat, cbit: nat, va: nat)
    requires gib < GIBS && (cbit == 0 || 39 <= cbit <= 51)
    ensures Leaf(WithC(gib * GIB, cbit) + HUGE, cbit, va) == Mapped(gib * GIB + va % GIB, cbit != 0)
  {
    HugeFlags(gib);
    EntryReads(gib * GIB, HUGE, cbit);
  }

  /** The walk reaches the leaf the PML4 entry leads to. */
  lemma {:induction false} WalkReaches(v: Bytes, cbit: nat, va: nat, top: nat, table: nat)
    requires |v| >= 2 * PAGE && |v| % PAGE == 0 && va < 0x8000_0000_0000 && table * PAGE < |v|
    requires top == va / MAP_LIMIT && top < 512
    requires var e := Word(v, top); Present(e) && Frame(e, cbit, PAGE) == PAGE_TABLES + table * PAGE
    ensures 512 * table + va / GIB % 512 < |v| / 8
    ensures Translate(v, cbit, va) == Leaf(Word(v, 512 * table + va / GIB % 512), cbit, va)
  {
    Quotient(table * PAGE, 8, 512 * table, 0);
    assert |v| >= (table + 1) * PAGE;
  }

  lemma {:induction false} Indices(va: nat)
    requires va < MAP_LIMIT
    ensures va / MAP_LIMIT == 0 && va / GIB < GIBS && va / GIB % 512 == va / GIB
    ensures va / GIB * GIB + va % GIB == va
  {
  }

  /** The walk of any address below the limit ends at its own GiB's entry. */
  lemma {:induction false} WalkBelow(v: Bytes, cbit: nat, alias: bool, va: nat)
    requires IsMap(v, cbit, alias) && (cbit == 0 || 32 <= cbit <= 63) && va < MAP_LIMIT
    ensures Translate(v, cbit, va) == Leaf(WithC(va / GIB * GIB, cbit) + HUGE, cbit, va)
  {
    Indices(va);
    TableEntry(PAGE_TABLES + PAGE, cbit);
    assert Word(v, 0) == TableWord(0, cbit, GIBS, alias);
    WalkReaches(v, cbit, va, 0, 1);
    assert Word(v, 512 + va / GIB) == TableWord(512 + va / GIB, cbit, GIBS, alias);
  }

  /** Every address below the limit translates to itself, encrypted on SNP and plain on TDX. */
  lemma {:induction false} WalkIsIdentity(v: Bytes, cbit: nat, alias: bool, va: nat)
    requires IsMap(v, cbit, alias) && (cbit == 0 || 39 <= cbit <= 51) && va < MAP_LIMIT
    ensures Translate(v, cbit, va) == Mapped(va, cbit != 0)
  {
    WalkBelow(v, cbit, alias, va);
    Indices(va);
    HugeEntry(va / GIB, cbit, va);
  }

  lemma {:induction false} AliasIndices(va: nat)
    requires MAP_LIMIT <= va < 0x8000_0000_0000
    ensures 1 <= va / MAP_LIMIT < 256 && (va / MAP_LIMIT == 1 <==> va < 2 * MAP_LIMIT)
    ensures va < 2 * MAP_LIMIT ==> va / GIB % 512 == (va - SHARED_ALIAS) / GIB
    ensures va < SHARED_ALIAS + GIB ==> va % GIB == va - SHARED_ALIAS
  {
    if va < 2 * MAP_LIMIT {
      var x := va - SHARED_ALIAS;
      Quotient(va, GIB, 512 + x / GIB, x % GIB);
      Quotient(512 + x / GIB, 512, 1, x / GIB);
    }
  }

  /** Past the limit the alias gigabyte leads to GiB 0, unencrypted, and no other address is mapped. */
  lemma {:induction false} WalkPastLimit(v: Bytes, cbit: nat, alias: bool, va: nat)
    requires IsMap(v, cbit, alias) && (cbit == 0 || 39 <= cbit <= 51)
    requires MAP_LIMIT <= va < 0x8000_0000_0000
    ensures Translate(v, cbit, va) ==
            if alias && va < SHARED_ALIAS + GIB then Mapped(va - SHARED_ALIAS, false) else Fault
  {
    AliasIndices(va);
    assert Word(v, va / MAP_LIMIT) == TableWord(va / MAP_LIMIT, cbit, GIBS, alias);
    if alias && va < 2 * MAP_LIMIT {
      var j := va / GIB % 512;
      TableEntry(PAGE_TABLES + 2 * PAGE, cbit);
      WalkReaches(v, cbit, va, 1, 2);
      assert Word(v, 1024 + j) == TableWord(1024 + j, cbit, GIBS, alias);
      AliasLeaf(cbit, va);
    }
  }

  lemma {:induction false} AliasLeaf(cbit: nat, va: nat)
    requires cbit == 0 || 39 <= cbit <= 51
    ensures Leaf(HUGE, cbit, va) == Mapped(va % GIB, false) && Leaf(0, cbit, va) == Fault
  {
    HugeFlags(0);
    if cbit != 0 {
      Pow2Values();
      Pow2Grows(39, cbit);
      HighBit(HUGE, cbit);
    }
  }

  lemma {:induction false} LowBitIsAGib(cbit: nat)
    requires 32 <= cbit < 39
    ensures 0 < Pow2(cbit) < MAP_LIMIT && Pow2(cbit) % GIB == 0
  {
    Pow2Values();
    Pow2Add(30, cbit - 30);
    Quotient(Pow2(cbit), GIB, Pow2(cbit - 30), 0);
    Pow2Grows(cbit, 38);
    assert Pow2(39) == 2 * Pow2(38);
  }

  /** The C-bit on an address bit: the GiB at that very address is mapped onto GiB 0. */
  lemma {:induction false} LowCBitMovesAGib(v: Bytes, cbit: nat, alias: bool)
    requires IsMap(v, cbit, alias) && 32 <= cbit < 39
    ensures Pow2(cbit) < MAP_LIMIT && Translate(v, cbit, Pow2(cbit)) == Mapped(0, true)
  {
    var va := Pow2(cbit);
    LowBitIsAGib(cbit);
    WalkBelow(v, cbit, alias, va);
    Indices(va);
    LowLeaf(cbit, va);
  }

  lemma {:induction false} LowLeaf(cbit: nat, va: nat)
    requires 32 <= cbit < 39 && va == Pow2(cbit) && va % GIB == 0
    ensures WithC(va, cbit) == va && Leaf(va + HUGE, cbit, va) == Mapped(0, true)
  {
    Pow2Values();
    Pow2Grows(32, cbit);
    Quotient(va, va, 1, 0);
    CBitOnTop(HUGE, cbit);
    HugeFlags(0);
  }

  /** Of the positions the parameters admit, exactly 39 to 51 give an encrypted identity map. */
  lemma {:induction false} IdentityIffCBitFits(v: Bytes, cbit: nat, alias: bool)
    requires IsMap(v, cbit, alias) && 32 <= cbit <= 63
    ensures (forall va :: 0 <= va < MAP_LIMIT ==> Translate(v, cbit, va) == Mapped(va, true)) <==> 39 <= cbit <= 51
  {
    if 39 <= cbit <= 51 {
      forall va | 0 <= va < MAP_LIMIT
        ensures Translate(v, cbit, va) == Mapped(va, true)
      {
        WalkIsIdentity(v, cbit, alias, va);
      }
    } else if cbit < 39 {
      LowCBitMovesAGib(v, cbit, alias);
    } else {
      assert Translate(v, cbit, 0) != Mapped(0, true);
    }
  }
}
