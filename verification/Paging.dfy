/** Which physical address an access reaches: the walk of the page tables that are in memory. */
module Paging {
  import opened Layout
  import opened Bytes
  import opened Physical
  import Tables = IdentityMap

  /** How a shim has paging set up: the C-bit (0 on TDX), and whether its tables hold the alias. */
  datatype Mode = Mode(cbit: nat, alias: bool) {
    function TableBytes(): nat { (if alias then 3 else 2) * PAGE }
  }

  /** The walk from PAGE_TABLES, which the shim has put in CR3. */
  function Reach(mem: Memory, m: Mode, va: int): Tables.Translation {
    if 0 <= va < 0x8000_0000_0000
    then Tables.Translate(Window(mem, PAGE_TABLES, m.TableBytes()), m.cbit, va)
    else Tables.Fault
  }

  /** Every byte of [va, va + len) is mapped, in order from `pa`, as private memory or not. */
  predicate Maps(mem: Memory, m: Mode, va: int, len: nat, pa: nat, encrypted: bool) {
    forall a | va <= a < va + len :: Reach(mem, m, a) == Tables.Mapped(pa + (a - va), encrypted)
  }

  /** What counts as private: the C-bit on SNP; on TDX everything reached without the shared bit. */
  predicate Private(m: Mode, encrypted: bool) { encrypted == (m.cbit != 0) }

  /** Below MAP_LIMIT every address is its own, and private; the alias, where there is one, is GiB 0 and is not. */
  ghost predicate Paged(mem: Memory, m: Mode) {
    && (forall a :: 0 <= a < MAP_LIMIT ==> Reach(mem, m, a) == Tables.Mapped(a, m.cbit != 0))
    && (m.alias ==> forall a :: SHARED_ALIAS <= a < SHARED_ALIAS + GIB ==>
          Reach(mem, m, a) == Tables.Mapped(a - SHARED_ALIAS, false))
  }

  predicate InTables(m: Mode, a: int) { PAGE_TABLES <= a < PAGE_TABLES + m.TableBytes() }

  /** Only a write to the tables can change where an access goes. */
  lemma {:induction false} StillPaged(s: Memory, t: Memory, m: Mode)
    requires Paged(s, m) && forall a :: InTables(m, a) ==> t(a) == s(a)
    ensures Paged(t, m)
  {
    SameReach(s, t, m);
  }

  lemma {:induction false} SameReach(s: Memory, t: Memory, m: Mode)
    requires forall a :: InTables(m, a) ==> t(a) == s(a)
    ensures forall va :: Reach(t, m, va) == Reach(s, m, va)
  {
    assert Window(t, PAGE_TABLES, m.TableBytes()) == Window(s, PAGE_TABLES, m.TableBytes());
  }

  lemma {:induction false} DirectMaps(mem: Memory, m: Mode, lo: int, len: nat)
    requires Paged(mem, m) && 0 <= lo && lo + len <= MAP_LIMIT
    ensures Maps(mem, m, lo, len, lo, m.cbit != 0)
    ensures lo < MAP_LIMIT ==> Reach(mem, m, lo) == Tables.Mapped(lo, m.cbit != 0)
  {
  }

  lemma {:induction false} AliasMaps(mem: Memory, m: Mode, at: int, len: nat)
    requires Paged(mem, m) && m.alias && 0 <= at < GIB && at + len <= GIB
    ensures Maps(mem, m, SHARED_ALIAS + at, len, at, false)
    ensures Reach(mem, m, SHARED_ALIAS + at) == Tables.Mapped(at, false)
  {
  }

  lemma {:induction false} TablesTranslate(mem: Memory, m: Mode, t: Bytes, va: int)
    requires Window(mem, PAGE_TABLES, m.TableBytes()) == t && Tables.IsMap(t, m.cbit, m.alias)
    requires m.cbit == 0 || 39 <= m.cbit <= 51
    ensures 0 <= va < MAP_LIMIT ==> Reach(mem, m, va) == Tables.Mapped(va, m.cbit != 0)
    ensures MAP_LIMIT <= va < 0x8000_0000_0000 ==>
              Reach(mem, m, va) ==
              if m.alias && va < SHARED_ALIAS + GIB then Tables.Mapped(va - SHARED_ALIAS, false) else Tables.Fault
  {
    if 0 <= va < MAP_LIMIT {
      Tables.WalkIsIdentity(t, m.cbit, m.alias, va);
    } else if MAP_LIMIT <= va < 0x8000_0000_0000 {
      Tables.WalkPastLimit(t, m.cbit, m.alias, va);
    }
  }

  /** Tables as built, found where CR3 points, page the guest. */
  lemma {:induction false} TablesPage(mem: Memory, m: Mode, t: Bytes)
    requires Lies(mem, PAGE_TABLES, t) && Tables.IsMap(t, m.cbit, m.alias)
    requires m.cbit == 0 || 39 <= m.cbit <= 51
    ensures Paged(mem, m)
  {
    assert Window(mem, PAGE_TABLES, m.TableBytes()) == t;
    forall a | 0 <= a < MAP_LIMIT || (m.alias && SHARED_ALIAS <= a < SHARED_ALIAS + GIB)
      ensures Reach(mem, m, a) ==
              if a < MAP_LIMIT then Tables.Mapped(a, m.cbit != 0) else Tables.Mapped(a - SHARED_ALIAS, false)
    {
      TablesTranslate(mem, m, t, a);
    }
  }

  /** Of the C-bits a request may name, exactly 39 to 51 leave the guest paged. */
  lemma {:induction false} PagedIffCBitFits(mem: Memory, m: Mode, t: Bytes)
    requires Lies(mem, PAGE_TABLES, t) && Tables.IsMap(t, m.cbit, m.alias) && 32 <= m.cbit <= 63
    ensures Paged(mem, m) <==> 39 <= m.cbit <= 51
  {
    var v := Window(mem, PAGE_TABLES, m.TableBytes());
    assert v == t;
    if 39 <= m.cbit <= 51 {
      TablesPage(mem, m, t);
    }
    if Paged(mem, m) {
      forall va | 0 <= va < MAP_LIMIT
        ensures Tables.Translate(t, m.cbit, va) == Tables.Mapped(va, true)
      {
        assert Reach(mem, m, va) == Tables.Mapped(va, true);
      }
      Tables.IdentityIffCBitFits(t, m.cbit, m.alias);
    }
  }
}
