/** Waking the other processors: the shim's one conversation with its host, over one rescinded page. */
module SnpWake {
  import opened Wrappers
  import opened Layout
  import opened Bytes
  import opened Writes
  import opened Placement
  import opened Physical
  import opened Paging
  import opened Guest
  import opened Trace

  const GHCB_PAGE := SNP_GHCB / PAGE
  const OP_PRIVATE := 0x10_0000_0000_0000
  const OP_SHARED := 0x20_0000_0000_0000
  const PSC_SHARED: U64 := SNP_GHCB + OP_SHARED + 0x14
  const PSC_PRIVATE: U64 := SNP_GHCB + OP_PRIVATE + 0x14
  const REGISTER: U64 := SNP_GHCB + 0x12
  const ICR_LOW: U64 := 0xfee0_0300
  const INIT: U32 := 0xc_4500
  const SIPI: U32 := 0xc_4600

  /** The three requests decode, at the host, to one page and the three acts meant. */
  lemma {:induction false} RequestsDecode()
    ensures IsPsc(PSC_SHARED) && MsrGpa(PSC_SHARED) == SNP_GHCB && PscState(PSC_SHARED) == Shared
    ensures IsPsc(PSC_PRIVATE) && MsrGpa(PSC_PRIVATE) == SNP_GHCB && PscState(PSC_PRIVATE) == Unaccepted
    ensures IsRegister(REGISTER) && MsrGpa(REGISTER) == SNP_GHCB
    ensures !IsPsc(REGISTER) && !IsRegister(PSC_SHARED) && !IsRegister(PSC_PRIVATE)
  {
  }

  /** An interrupt command's low word, as Intel's manual lays it out: to all but the sender, and asserted. */
  ghost predicate IsInterrupt(icr: U32, vector: Byte, delivery: nat) {
    && icr % 0x100 == vector && icr / 0x100 % 8 == delivery && icr / 0x800 % 2 == 0 && icr / 0x4000 % 2 == 1
    && icr / 0x8000 % 2 == 0 && icr / 0x4_0000 % 4 == 3
  }

  /** The two interrupts sent are an INIT and a start-up at page zero. */
  lemma {:induction false} InterruptsDecode()
    ensures IsInterrupt(INIT, 0, 5) && IsInterrupt(SIPI, 0, 6)
  {
  }

  predicate InGhcb(a: int) { SNP_GHCB <= a < SNP_GHCB + PAGE }

  // ---------- the script ----------

  /** What each step of the wake asks. */
  predicate Asks(step: nat, x: Exchange) {
    match step
    case 1 => x.PVal? && x.gpa == 0x11_7000 && x.size == 0x1000 && !x.validate
    case 2 => x.Msr? && x.request == 0x20_0000_0011_7014
    case 3 => x.Msr? && x.request == 0x11_7012
    case 4 => x.Nae? && x.event == MmioWrite(0xfee0_0300, 4, 0xc_4500)
    case 5 => x.Nae? && x.event == MmioWrite(0xfee0_0300, 4, 0xc_4600)
    case 6 => x.Nae? && x.event == MmioWrite(0xfee0_0300, 4, 0xc_4600)
    case 7 => x.Msr? && x.request == 0x10_0000_0011_7014
    case 8 => x.PVal? && x.gpa == 0x11_7000 && x.size == 0x1000 && x.validate
    case _ => false
  }

  /** The one answer on which the wake goes on. */
  predicate Grants(x: Exchange) {
    match x
    case PVal(_, _, _, eax, _) => eax == 0
    case Msr(request, response) => if request == 0x11_7012 then response == 0x11_7013 else PscGranted(response)
    case Nae(_, info1) => info1 == 0
    case Tdcall(_, _, _) => false
  }

  /** The exchanges of steps from..to, every one asked in turn and granted. */
  ghost predicate Granted(x: seq<Exchange>, from: nat, to: nat) {
    && 1 <= from <= to + 1 && |x| == to + 1 - from
    && forall i :: 0 <= i < |x| ==> Asks(from + i, x[i]) && Grants(x[i])
  }

  /** A wake that ended at `step`: everything before it granted, and that step refused. */
  ghost predicate RefusedAt(x: seq<Exchange>, from: nat, step: nat) {
    && 1 <= from <= step && |x| == step + 1 - from
    && (forall i :: 0 <= i < |x| ==> Asks(from + i, x[i]))
    && (forall i :: 0 <= i < |x| - 1 ==> Grants(x[i]))
    && !Grants(x[|x| - 1])
  }

  // ---------- one interrupt over the GHCB ----------

  /** The fields of an MMIO write, over whatever the page held. */
  ghost function MessageFields(esi: U32): seq<Write> {
    [ Write(GHCB_BUFFER, Le(esi, 4)),
      Write(GHCB_EXITCODE, Le(EXIT_MMIO_WRITE, 8)),
      Write(GHCB_EXITINFO1, Le(ICR_LOW, 8)),
      Write(GHCB_EXITINFO2, Le(4, 8)),
      Write(GHCB_SCRATCH, Le(SNP_GHCB + GHCB_BUFFER, 8)) ]
  }

  ghost function HeaderFields(): seq<Write> {
    [ Write(GHCB_BITMAP, Zeros(14) + [VALID_MMIO] + [0]),
      Write(GHCB_VERSION, Le(2, 2)),
      Write(GHCB_USAGE, Le(0, 4)) ]
  }

  lemma {:induction false} FieldsApart(esi: U32)
    ensures Disjoint(MessageFields(esi))
  {
  }

  lemma {:induction false} HeaderApart(esi: U32)
    ensures Disjoint(HeaderFields()) && Clear(MessageFields(esi), HeaderFields())
  {
  }

  lemma {:induction false} MessageDisjoint(esi: U32)
    ensures Disjoint(MessageFields(esi) + HeaderFields())
  {
    FieldsApart(esi);
    HeaderApart(esi);
    DisjointConcat(MessageFields(esi), HeaderFields());
  }

  lemma {:induction false} MessageField(page: Bytes, base: Bytes, ws: seq<Write>, i: nat, n: U64)
    requires |base| == PAGE && Writable(ws, PAGE) && page == Apply(base, ws) && Disjoint(ws) && i < |ws|
    requires ws[i].data == Le(n, 8)
    ensures Fits(page, ws[i].at, 8) && Get64(page, ws[i].at) == n
  {
    FieldReads(base, ws, i);
    LeRoundTrip64(n);
  }

  /** The host decodes exactly the write the shim meant, whatever it had left in the page. */
  lemma {:induction false} HeaderReads(base: Bytes, page: Bytes, esi: U32)
    requires |base| == PAGE && Writable(MessageFields(esi) + HeaderFields(), PAGE)
    requires page == Apply(base, MessageFields(esi) + HeaderFields())
    ensures |page| == PAGE && page[GHCB_BITMAP..GHCB_BITMAP + 16] == Zeros(14) + [VALID_MMIO] + [0]
    ensures page[GHCB_VERSION..GHCB_VERSION + 2] == [2, 0] && page[GHCB_USAGE..GHCB_USAGE + 4] == Zeros(4)
  {
    HeaderFieldReads(base, page, esi, 0, GHCB_BITMAP, Zeros(14) + [VALID_MMIO] + [0]);
    HeaderFieldReads(base, page, esi, 1, GHCB_VERSION, Le(2, 2));
    HeaderFieldReads(base, page, esi, 2, GHCB_USAGE, Le(0, 4));
    HeaderWords();
  }

  lemma {:induction false} HeaderWords()
    ensures Le(2, 2) == [2, 0] && Le(0, 4) == Zeros(4)
  {
  }

  lemma {:induction false} HeaderFieldReads(base: Bytes, page: Bytes, esi: U32, i: nat, at: nat, data: Bytes)
    requires |base| == PAGE && Writable(MessageFields(esi) + HeaderFields(), PAGE)
    requires page == Apply(base, MessageFields(esi) + HeaderFields())
    requires i < 3 && HeaderFields()[i] == Write(at, data)
    ensures at + |data| <= |page| && page[at..at + |data|] == data
  {
    var ws := MessageFields(esi) + HeaderFields();
    MessageDisjoint(esi);
    FieldReads(base, ws, 5 + i);
    assert ws[5 + i] == HeaderFields()[i];
  }

  lemma {:induction false} MessageDecodes(base: Bytes, page: Bytes, esi: U32)
    requires |base| == PAGE && Writable(MessageFields(esi) + HeaderFields(), PAGE)
    requires page == Apply(base, MessageFields(esi) + HeaderFields())
    ensures |page| == PAGE && EventIn(page) == MmioWrite(ICR_LOW, 4, esi)
  {
    var ws := MessageFields(esi) + HeaderFields();
    MessageDisjoint(esi);
    MessageField(page, base, ws, 1, EXIT_MMIO_WRITE);
    MessageField(page, base, ws, 2, ICR_LOW);
    MessageField(page, base, ws, 3, 4);
    MessageField(page, base, ws, 4, SNP_GHCB + GHCB_BUFFER);
    FieldReads(base, ws, 0);
    LeRoundTrip32(esi);
    HeaderReads(base, page, esi);
  }

  ghost predicate NoneElseShared(pages: PageTable) {
    forall q :: q != GHCB_PAGE ==> pages(q) != Shared
  }

  /** What a store or exit of the wake leaves alone. */
  twostate predicate OnlyGhcb(g: Guest)
    reads g
  {
    && g.pages == old(g.pages) && g.log == old(g.log) && g.doubled == old(g.doubled)
    && g.ghcb == old(g.ghcb) && g.strayed == old(g.strayed)
    && forall a :: !InGhcb(a) ==> g.mem(a) == old(g.mem)(a)
  }

  /** The page tables lie elsewhere, so accesses go on landing where they did. */
  lemma {:induction false} GhcbStaysPaged(s: Memory, t: Memory, m: Mode)
    requires Paged(s, m) && forall a :: !InGhcb(a) ==> t(a) == s(a)
    ensures Paged(t, m)
  {
    StillPaged(s, t, m);
  }

  /** What the wake needs for its accesses: the tables with the alias, and the page shared. */
  ghost predicate Reachable(g: Guest)
    reads g
  {
    Paged(g.mem, g.mode) && g.mode.alias && AllShared(g.pages, SNP_GHCB, PAGE)
  }

  /** One store into the shared page, through the alias. */
  method StoreShared(g: Guest, at: nat, data: Bytes)
    requires Reachable(g) && at < PAGE && at + |data| <= PAGE
    modifies g`mem, g`strayed
    ensures g.mem == Stored(old(g.mem), SNP_GHCB + at, data) && g.strayed == old(g.strayed)
    ensures Reachable(g)
  {
    AliasLands(g.pages, g.mem, g.mode, SNP_GHCB + at, |data|);
    g.Store(SHARED_ALIAS + SNP_GHCB + at, data);
    GhcbStaysPaged(old(g.mem), g.mem, g.mode);
  }

  method PutShared(g: Guest, ghost base: Bytes, ghost ws: seq<Write>, at: nat, data: Bytes)
    returns (ghost r: seq<Write>)
    requires Reachable(g) && at < PAGE && at + |data| <= PAGE
    requires |base| == PAGE && Writable(ws, PAGE) && Window(g.mem, SNP_GHCB, PAGE) == Apply(base, ws)
    modifies g`mem, g`strayed
    ensures OnlyGhcb(g) && Reachable(g)
    ensures r == ws + [Write(at, data)] && Writable(r, PAGE)
    ensures Window(g.mem, SNP_GHCB, PAGE) == Apply(base, r)
  {
    AppendOne(base, ws, Write(at, data));
    WindowStored(g.mem, SNP_GHCB, at, data);
    StoreShared(g, at, data);
    r := ws + [Write(at, data)];
  }

  method PutMessage(g: Guest, esi: U32)
    requires Reachable(g)
    modifies g`mem, g`strayed
    ensures OnlyGhcb(g) && Reachable(g)
    ensures Writable(MessageFields(esi), PAGE)
    ensures Window(g.mem, SNP_GHCB, PAGE) == Apply(Window(old(g.mem), SNP_GHCB, PAGE), MessageFields(esi))
  {
    ghost var base := Window(g.mem, SNP_GHCB, PAGE);
    ghost var ws := PutShared(g, base, [], GHCB_BUFFER, Le(esi, 4));
    ws := PutShared(g, base, ws, GHCB_EXITCODE, Le(EXIT_MMIO_WRITE, 8));
    ws := PutShared(g, base, ws, GHCB_EXITINFO1, Le(ICR_LOW, 8));
    ws := PutShared(g, base, ws, GHCB_EXITINFO2, Le(4, 8));
    ws := PutShared(g, base, ws, GHCB_SCRATCH, Le(SNP_GHCB + GHCB_BUFFER, 8));
    assert ws == MessageFields(esi);
  }

  /** The bitmap is cleared whole and then given its one byte; version and usage follow. */
  method PutValidity(g: Guest)
    requires Reachable(g)
    modifies g`mem, g`strayed
    ensures OnlyGhcb(g) && Reachable(g)
    ensures Writable(HeaderFields(), PAGE)
    ensures Window(g.mem, SNP_GHCB, PAGE) == Apply(Window(old(g.mem), SNP_GHCB, PAGE), HeaderFields())
  {
    ghost var base := Window(g.mem, SNP_GHCB, PAGE);
    ghost var ws := PutShared(g, base, [], GHCB_BITMAP, Zeros(8));
    ws := PutShared(g, base, ws, GHCB_BITMAP + 8, Zeros(8));
    ws := PutShared(g, base, ws, GHCB_BITMAP + 14, [VALID_MMIO]);
    BitmapStores(base);
    ws := [Write(GHCB_BITMAP, Zeros(14) + [VALID_MMIO] + [0])];
    ws := PutShared(g, base, ws, GHCB_VERSION, Le(2, 2));
    ws := PutShared(g, base, ws, GHCB_USAGE, Le(0, 4));
    assert ws == HeaderFields();
  }

  lemma {:induction false} BitmapStores(base: Bytes)
    requires |base| == PAGE
    ensures var three := [] + [Write(GHCB_BITMAP, Zeros(8))] + [Write(GHCB_BITMAP + 8, Zeros(8))]
                         + [Write(GHCB_BITMAP + 14, [VALID_MMIO])];
            var one := [Write(GHCB_BITMAP, Zeros(14) + [VALID_MMIO] + [0])];
            Writable(three, PAGE) && Writable(one, PAGE) && Apply(base, three) == Apply(base, one)
  {
    var a, b := Write(GHCB_BITMAP, Zeros(8)), Write(GHCB_BITMAP + 8, Zeros(8));
    var c := Write(GHCB_BITMAP + 14, [VALID_MMIO]);
    var one := Write(GHCB_BITMAP, Zeros(14) + [VALID_MMIO] + [0]);
    AppendOne(base, [], a);
    AppendOne(base, [] + [a], b);
    AppendOne(base, [] + [a] + [b], c);
    AppendOne(base, [], one);
    assert [] + [one] == [one];
    assert Apply(base, []) == base;
    assert Splice(Splice(Splice(base, a.at, a.data), b.at, b.data), c.at, c.data) == Splice(base, one.at, one.data);
  }

  /** The whole event, over whatever the host left in the page. */
  method PutEvent(g: Guest, esi: U32)
    requires Reachable(g)
    modifies g`mem, g`strayed
    ensures OnlyGhcb(g) && Reachable(g)
    ensures EventIn(Window(g.mem, SNP_GHCB, PAGE)) == MmioWrite(ICR_LOW, 4, esi)
  {
    ghost var base := Window(g.mem, SNP_GHCB, PAGE);
    PutMessage(g, esi);
    PutValidity(g);
    AppendAll(base, MessageFields(esi), HeaderFields());
    MessageDecodes(base, Window(g.mem, SNP_GHCB, PAGE), esi);
  }

  /** The exit itself: the host sees the event in the page, and answers in it. */
  method Exit(g: Guest) returns (ghost x: Exchange)
    requires Reachable(g) && g.ghcb == Some(SNP_GHCB) && NoneElseShared(g.pages)
    modifies g`mem, g`strayed, g`talk
    ensures OnlyGhcb(g) && Reachable(g)
    ensures x == Nae(EventIn(Window(old(g.mem), SNP_GHCB, PAGE)), Load32(g.mem, SNP_GHCB + 0x398))
    ensures g.talk == old(g.talk) + [x]
  {
    ghost var sent := g.mem;
    g.Vmgexit(SNP_GHCB);
    ExitStaysPaged(g.pages, sent, g.mem, g.mode);
    x := g.talk[|old(g.talk)|];
  }

  /** send_ipi: one MMIO write to the local APIC, and the host's word on it. */
  method SendIpi(g: Guest, esi: U32) returns (ok: bool, ghost x: Exchange)
    requires Reachable(g) && g.ghcb == Some(SNP_GHCB) && NoneElseShared(g.pages)
    modifies g`mem, g`strayed, g`talk
    ensures OnlyGhcb(g) && Reachable(g)
    ensures g.talk == old(g.talk) + [x] && x.Nae? && x.event == MmioWrite(ICR_LOW, 4, esi)
    ensures ok <==> Grants(x)
  {
    PutEvent(g, esi);
    x := Exit(g);
    AliasLands(g.pages, g.mem, g.mode, SNP_GHCB + GHCB_EXITINFO1, 4);
    var info1 := g.Read32(SHARED_ALIAS + SNP_GHCB + GHCB_EXITINFO1);
    ok := info1 == 0;
  }

  /** A host that may rewrite every shared byte rewrites only the GHCB page. */
  lemma {:induction false} ExitStaysPaged(pages: PageTable, s: Memory, t: Memory, m: Mode)
    requires Paged(s, m) && NoneElseShared(pages)
    requires forall a :: pages(a / PAGE) != Shared ==> t(a) == s(a)
    ensures Paged(t, m) && forall a :: !InGhcb(a) ==> t(a) == s(a)
  {
    forall a | !InGhcb(a)
      ensures t(a) == s(a)
    {
      assert a / PAGE != GHCB_PAGE;
    }
    GhcbStaysPaged(s, t, m);
  }

  // ---------- the conversation ----------

  /** The page table with only the GHCB page moved to `to`. */
  ghost predicate GhcbMoved(p: PageTable, r: PageTable, to: PageState) {
    forall q :: r(q) == if q == GHCB_PAGE then to else p(q)
  }

  lemma {:induction false} MovedByStep(p: PageTable, to: PageState)
    ensures GhcbMoved(p, SetPages(p, SNP_GHCB, SNP_GHCB + PAGE, to), to)
  {
  }

  lemma {:induction false} MovedShares(p: PageTable, r: PageTable)
    requires GhcbMoved(p, r, Shared)
    ensures AllShared(r, SNP_GHCB, PAGE)
    ensures (forall q :: q != GHCB_PAGE ==> p(q) != Shared) ==> NoneElseShared(r)
  {
  }

  /** One more exchange: the conversation goes on if it was granted, and ends there if it was not. */
  lemma {:induction false} Answered(t: seq<Exchange>, talk: seq<Exchange>, x: Exchange, from: nat, step: nat)
    requires t <= talk && 1 <= from <= step && Granted(Since(t, talk), from, step - 1) && Asks(step, x)
    ensures t <= talk + [x]
    ensures Grants(x) ==> Granted(Since(t, talk + [x]), from, step)
    ensures !Grants(x) ==> RefusedAt(Since(t, talk + [x]), from, step)
  {
    assert Since(t, talk + [x]) == Since(t, talk) + [x];
  }

  lemma {:induction false} NothingYet(t: seq<Exchange>, from: nat)
    requires from >= 1
    ensures Granted(Since(t, t), from, from - 1)
  {
  }

  /** PVALIDATE of the GHCB page, at its private address. */
  method ValidateGhcb(g: Guest, validate: bool) returns (eax: U32, carry: bool)
    requires Paged(g.mem, g.mode)
    modifies g`pages, g`log, g`doubled, g`talk, g`strayed
    ensures g.talk == old(g.talk) + [PVal(SNP_GHCB, PAGE, validate, eax, carry)] && g.strayed == old(g.strayed)
    ensures eax != 0 ==> g.pages == old(g.pages) && g.log == old(g.log) && g.doubled == old(g.doubled)
    ensures eax == 0 ==> GhcbMoved(old(g.pages), g.pages, if validate then Accepted else Unaccepted)
    ensures eax == 0 ==>
              && g.log == (if validate && !carry then old(g.log) + [Range(SNP_GHCB, SNP_GHCB + PAGE)] else old(g.log))
              && (old(g.pages)(GHCB_PAGE) == Unaccepted || !validate ==> g.doubled == old(g.doubled))
  {
    DirectLands(g.pages, g.mem, g.mode, SNP_GHCB, PAGE);
    MovedByStep(g.pages, if validate then Accepted else Unaccepted);
    assert g.pages(GHCB_PAGE) == Unaccepted ==> Waiting(g.pages, SNP_GHCB, SNP_GHCB + PAGE);
    eax, carry := g.PValidate(SNP_GHCB, PAGE, validate);
  }

  /** Steps 1 to 3: rescind, share and register the page. Returns the refused step, or 0. */
  method Share(g: Guest) returns (refused: nat)
    requires Paged(g.mem, g.mode)
    modifies g`pages, g`log, g`doubled, g`talk, g`ghcb, g`strayed
    ensures old(g.talk) <= g.talk && g.log == old(g.log) && g.doubled == old(g.doubled) && g.strayed == old(g.strayed)
    ensures refused == 0 ==>
              && Granted(Since(old(g.talk), g.talk), 1, 3)
              && GhcbMoved(old(g.pages), g.pages, Shared) && g.ghcb == Some(SNP_GHCB)
    ensures refused != 0 ==> refused <= 3 && RefusedAt(Since(old(g.talk), g.talk), 1, refused)
    ensures forall q :: q != GHCB_PAGE ==> g.pages(q) == old(g.pages)(q)
  {
    RequestsDecode();
    ghost var t := g.talk;
    NothingYet(t, 1);
    ghost var said := g.talk;
    var eax, carry := ValidateGhcb(g, false);
    Answered(t, said, PVal(SNP_GHCB, PAGE, false, eax, carry), 1, 1);
    if eax != 0 {
      return 1;
    }
    said := g.talk;
    MovedByStep(g.pages, Shared);
    var response := g.GhcbMsr(PSC_SHARED);
    Answered(t, said, Msr(PSC_SHARED, response), 1, 2);
    if !PscGranted(response) {
      return 2;
    }
    said := g.talk;
    response := g.GhcbMsr(REGISTER);
    Answered(t, said, Msr(REGISTER, response), 1, 3);
    return if response != REGISTER + 1 then 3 else 0;
  }

  /** Steps 4 to 6: a blank page, then INIT and two SIPIs through it. */
  method Interrupt(g: Guest) returns (refused: nat)
    requires Reachable(g) && g.ghcb == Some(SNP_GHCB) && NoneElseShared(g.pages)
    modifies g`mem, g`strayed, g`talk
    ensures OnlyGhcb(g) && Reachable(g) && old(g.talk) <= g.talk
    ensures refused == 0 ==> Granted(Since(old(g.talk), g.talk), 4, 6)
    ensures refused != 0 ==> 4 <= refused <= 6 && RefusedAt(Since(old(g.talk), g.talk), 4, refused)
  {
    ghost var t := g.talk;
    BlankGhcb(g);
    NothingYet(t, 4);
    ghost var said := g.talk;
    ghost var x;
    var ok;
    ok, x := SendIpi(g, INIT);
    Answered(t, said, x, 4, 4);
    if !ok {
      return 4;
    }
    said := g.talk;
    ok, x := SendIpi(g, SIPI);
    Answered(t, said, x, 4, 5);
    if !ok {
      return 5;
    }
    said := g.talk;
    ok, x := SendIpi(g, SIPI);
    Answered(t, said, x, 4, 6);
    return if ok then 0 else 6;
  }

  /** `rep stosq` over the alias of the page. */
  method BlankGhcb(g: Guest)
    requires Reachable(g)
    modifies g`mem, g`strayed
    ensures OnlyGhcb(g) && Reachable(g)
  {
    AliasLands(g.pages, g.mem, g.mode, SNP_GHCB, PAGE);
    g.Zero(SHARED_ALIAS + SNP_GHCB, SHARED_ALIAS + SNP_GHCB + PAGE);
    GhcbStaysPaged(old(g.mem), g.mem, g.mode);
  }

  /** Steps 7 and 8: back to private, and validated again. */
  method Reclaim(g: Guest) returns (refused: nat)
    requires Paged(g.mem, g.mode)
    modifies g`pages, g`log, g`doubled, g`talk, g`ghcb, g`strayed
    ensures old(g.talk) <= g.talk && g.doubled == old(g.doubled) && g.ghcb == old(g.ghcb) && g.strayed == old(g.strayed)
    ensures g.log == old(g.log) || g.log == old(g.log) + [Range(SNP_GHCB, SNP_GHCB + PAGE)]
    ensures refused == 0 ==>
              Granted(Since(old(g.talk), g.talk), 7, 8) && GhcbMoved(old(g.pages), g.pages, Accepted)
    ensures refused != 0 ==> 7 <= refused <= 8 && RefusedAt(Since(old(g.talk), g.talk), 7, refused)
    ensures forall q :: q != GHCB_PAGE ==> g.pages(q) == old(g.pages)(q)
  {
    RequestsDecode();
    ghost var t := g.talk;
    NothingYet(t, 7);
    MovedByStep(g.pages, Unaccepted);
    var response := g.GhcbMsr(PSC_PRIVATE);
    Answered(t, t, Msr(PSC_PRIVATE, response), 7, 7);
    if !PscGranted(response) {
      return 7;
    }
    ghost var said := g.talk;
    var eax, carry := ValidateGhcb(g, true);
    Answered(t, said, PVal(SNP_GHCB, PAGE, true, eax, carry), 7, 8);
    return if eax == 0 then 0 else 8;
  }

  lemma {:induction false} GrantedThen(x: seq<Exchange>, y: seq<Exchange>, from: nat, mid: nat, to: nat)
    requires Granted(x, from, mid) && Granted(y, mid + 1, to)
    ensures Granted(x + y, from, to)
  {
  }

  lemma {:induction false} RefusedThen(x: seq<Exchange>, y: seq<Exchange>, from: nat, mid: nat, step: nat)
    requires Granted(x, from, mid) && RefusedAt(y, mid + 1, step)
    ensures RefusedAt(x + y, from, step)
  {
  }

  /**
   * wake_aps against any host. The eight steps run in order, each asked only once the one before was
   * granted; a refusal stops the wake and names its step; the alias is written, and exits taken, only
   * while the page is shared and registered; and a completed wake leaves the page as it was found.
   */
  method WakeAps(g: Guest) returns (refused: nat)
    requires Paged(g.mem, g.mode) && g.mode.alias && forall q :: g.pages(q) != Shared
    modifies g`pages, g`mem, g`log, g`doubled, g`talk, g`ghcb, g`strayed
    ensures old(g.talk) <= g.talk
    ensures refused == 0 ==> Granted(Since(old(g.talk), g.talk), 1, 8)
    ensures refused != 0 ==> refused <= 8 && RefusedAt(Since(old(g.talk), g.talk), 1, refused)
    ensures g.strayed == old(g.strayed) && g.doubled == old(g.doubled) && Paged(g.mem, g.mode)
    ensures g.log == old(g.log) || g.log == old(g.log) + [Range(SNP_GHCB, SNP_GHCB + PAGE)]
    ensures forall a :: !InGhcb(a) ==> g.mem(a) == old(g.mem)(a)
    ensures forall q :: q != GHCB_PAGE ==> g.pages(q) == old(g.pages)(q)
    ensures refused == 0 ==> GhcbMoved(old(g.pages), g.pages, Accepted)
  {
    ghost var t0, p0 := g.talk, g.pages;
    refused := Share(g);
    if refused != 0 {
      return;
    }
    ghost var t1 := g.talk;
    MovedShares(p0, g.pages);
    refused := Interrupt(g);
    ghost var t2 := g.talk;
    TalkGrows(t0, t1, t2);
    if refused != 0 {
      RefusedThen(Since(t0, t1), Since(t1, t2), 1, 3, refused);
      return;
    }
    GrantedThen(Since(t0, t1), Since(t1, t2), 1, 3, 6);
    refused := Reclaim(g);
    TalkGrows(t0, t2, g.talk);
    if refused != 0 {
      RefusedThen(Since(t0, t2), Since(t2, g.talk), 1, 6, refused);
    } else {
      GrantedThen(Since(t0, t2), Since(t2, g.talk), 1, 6, 8);
    }
  }
}
