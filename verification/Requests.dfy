/** Which requests come to an image, and what becomes of the ones the code lets through unasked. */
module Requests {
  import opened Wrappers
  import opened Layout
  import opened Bytes
  import opened Placement
  import opened MapTheorems
  import opened Cli
  import opened CommandLine
  import opened Params
  import opened Kernel
  import opened Image
  import opened Regions
  import opened Admission
  import opened ZeroPage
  import opened Conservation

  datatype Platform = TdxGuest | SnpGuest(cbit: nat)

  /** What a request for an image asks for; the shim and the fixed pages come with the builder. */
  datatype Request = Request(ram: U64, vcpus: U32, cmdline: string, mmio: seq<Hole>, file: Bytes, initramfs: Bytes)

  function HoleEnd(on: Platform): U64 { if on.TdxGuest? then RESET_ALIAS else FOUR_GIB }

  function CbitOf(on: Platform): nat { if on.TdxGuest? then 51 else on.cbit }

  function Asked(on: Platform, q: Request): Result<Params, ParamError> {
    match on
    case TdxGuest => Tdx(q.ram, q.vcpus, q.cmdline, q.mmio)
    case SnpGuest(cbit) => Snp(q.ram, q.vcpus, cbit, q.cmdline, q.mmio)
  }

  function Files(q: Request, params: Params): Result<Prepared, PrepareError>
    requires Printable(params.cmdline)
  {
    Prepare(q.file, q.initramfs, AsBytes(params.cmdline), params.memory)
  }

  function Taken(on: Platform, p: Prepared): seq<Range> {
    if on.TdxGuest? then TdxTaken(p) else SnpTaken(p)
  }

  /** Accepted parameters, accepted files, and apertures clear of what is placed. */
  ghost predicate Buildable(on: Platform, q: Request) {
    Asked(on, q).Ok? && BuildableWith(on, q, Asked(on, q).value)
  }

  ghost predicate BuildableWith(on: Platform, q: Request, params: Params) {
    && Printable(params.cmdline) && Files(q, params).Ok?
    && Admits(Taken(on, Files(q, params).value), params)
  }

  /** What accepted parameters are of the request they came from. */
  ghost predicate Suits(on: Platform, q: Request, params: Params) {
    && Checks(params) && params.mmio == HolesOf(q.ram, q.mmio, HoleEnd(on)) && |params.mmio| <= |q.mmio| + 1
    && 1 <= params.vcpus <= MAX_VCPUS && params.vcpus == q.vcpus && 32 <= params.cbit <= 63
    && params.cbit == CbitOf(on)
    && params.cmdline == Normalise(q.cmdline) && Printable(params.cmdline)
    && params.memory - HoleBytes(Unwrapped(params.mmio)) ==
       q.ram + OwnSlack(q.ram, HoleEnd(on)) - HoleBytes(Unwrapped(q.mmio))
  }

  /** The machine's own aperture does not wrap. */
  lemma {:induction false} OwnStaysUnwrapped(ram: U64, mmio: seq<Hole>, holeEnd: U64)
    requires Q35_LOWMEM <= holeEnd <= FOUR_GIB
    ensures Unwrapped(HolesOf(ram, mmio, holeEnd)) == HolesOf(ram, Unwrapped(mmio), holeEnd)
  {
    var own := if Split(ram) then [Hole(Q35_LOWMEM, holeEnd - Q35_LOWMEM)] else [];
    UnwrappedJoin(own, mmio);
    UnwrappedAll(own);
  }

  /** Without its wrapping apertures a request is accepted too, for the same memory. */
  lemma {:induction false} UnwrappedAsk(on: Platform, q: Request)
    requires Asked(on, q).Ok?
    ensures Asked(on, q.(mmio := Unwrapped(q.mmio))) == Ok(Plain(Asked(on, q).value))
  {
    var kept := Unwrapped(q.mmio);
    NewOkIff(q.ram, q.vcpus, q.cmdline, CbitOf(on), q.mmio, HoleEnd(on));
    UnwrappedChecked(q.mmio, MemoryOf(q.ram));
    NewOkIff(q.ram, q.vcpus, q.cmdline, CbitOf(on), kept, HoleEnd(on));
    NewValue(q.ram, q.vcpus, q.cmdline, CbitOf(on), q.mmio, HoleEnd(on));
    NewValue(q.ram, q.vcpus, q.cmdline, CbitOf(on), kept, HoleEnd(on));
    OwnStaysUnwrapped(q.ram, q.mmio, HoleEnd(on));
  }

  lemma {:induction false} AskedSuits(on: Platform, q: Request)
    requires Asked(on, q).Ok?
    ensures Suits(on, q, Asked(on, q).value)
  {
    NewFacts(q.ram, q.vcpus, q.cmdline, CbitOf(on), q.mmio, HoleEnd(on));
    NewOkIff(q.ram, q.vcpus, q.cmdline, CbitOf(on), q.mmio, HoleEnd(on));
    UnwrappedAsk(on, q);
    MemoryLessHoles(q.ram, q.vcpus, q.cmdline, CbitOf(on), Unwrapped(q.mmio), HoleEnd(on));
  }

  /** The apertures asked for that wrap, if any, do no harm to what is swept from the listing. */
  ghost predicate WrapsSettled(on: Platform, q: Request) {
    Asked(on, q).Ok? ==>
      var params := Asked(on, q).value;
      Printable(params.cmdline) && Files(q, params).Ok? ==> Settles(Taken(on, Files(q, params).value), params)
  }

  /** The memory an image has the loader describe. */
  function MemoryAsked(on: Platform, q: Request): int {
    if Asked(on, q).Ok? then Asked(on, q).value.memory else 0
  }

  /** What an image was made from: parameters for the memory asked for, and the files of the request. */
  ghost predicate MadeFrom(on: Platform, q: Request, params: Params, p: Prepared) {
    && params.memory == MemoryAsked(on, q)
    && Printable(params.cmdline) && Files(q, params).Ok? && p == Files(q, params).value
  }

  lemma {:induction false} BuildableIffAdmitted(on: Platform, q: Request)
    requires Asked(on, q).Ok? && Printable(Asked(on, q).value.cmdline) && Files(q, Asked(on, q).value).Ok?
    ensures var params := Asked(on, q).value;
            var p := Files(q, params).value;
            && (on.TdxGuest? ==> (Buildable(on, q) <==> Admits(TdxTaken(p), params)))
            && (on.SnpGuest? ==> (Buildable(on, q) <==> Admits(SnpTaken(p), params)))
  {
  }

  /** Those are the parameters of the request. */
  lemma {:induction false} MadeAsAsked(on: Platform, q: Request, params: Params)
    requires Suits(on, q, params) && params.memory == MemoryAsked(on, q)
    ensures Asked(on, q) == Ok(params)
  {
    AskedSuits(on, q);
  }

  lemma {:induction false} SettledIffMade(on: Platform, q: Request, params: Params, p: Prepared)
    requires Suits(on, q, params) && MadeFrom(on, q, params, p)
    ensures on.TdxGuest? ==> (WrapsSettled(on, q) <==> Settles(TdxTaken(p), params))
    ensures on.SnpGuest? ==> (WrapsSettled(on, q) <==> Settles(SnpTaken(p), params))
  {
    MadeAsAsked(on, q, params);
  }

  lemma {:induction false} MadeSettles(on: Platform, q: Request, params: Params, p: Prepared)
    requires Suits(on, q, params) && MadeFrom(on, q, params, p) && WrapsSettled(on, q)
    ensures on.TdxGuest? ==> Settles(TdxTaken(p), params)
    ensures on.SnpGuest? ==> Settles(SnpTaken(p), params)
  {
    MadeAsAsked(on, q, params);
  }

  lemma {:induction false} UnwrappedIsSettled(on: Platform, q: Request)
    requires NoHoleWraps(q.mmio)
    ensures WrapsSettled(on, q)
  {
    if Asked(on, q).Ok? && Printable(Asked(on, q).value.cmdline) && Files(q, Asked(on, q).value).Ok? {
      var params := Asked(on, q).value;
      AskedSuits(on, q);
      FilesFacts(q, params);
      OwnHoleFits(q.ram, q.mmio, HoleEnd(on));
      TakenStacked(on, Files(q, params).value, params.memory);
      UnwrappedSettles(Taken(on, Files(q, params).value), params);
    }
  }

  /** What the files come to. */
  lemma {:induction false} FilesFacts(q: Request, params: Params)
    requires Printable(params.cmdline) && Files(q, params).Ok?
    ensures ParseBzImage(q.file).Ok?
    ensures var p := Files(q, params).value;
            && Sized(p) && FitsBelow(p, params.memory) && p.info == ParseBzImage(q.file).value
            && p.kernel == q.file[p.info.setupBytes..] && |p.kernel| > ENTRY_64_OFFSET
            && p.setup == q.file[..p.info.setupBytes] + Zeros(KERNEL_SETUP_AREA_SIZE - p.info.setupBytes)
            && p.setup[..p.info.setupBytes] == q.file[..p.info.setupBytes]
            && p.entry == KERNEL_BASE + ENTRY_64_OFFSET && p.initramfs == q.initramfs
            && p.command == Resized(AsBytes(params.cmdline) + [0])
  {
    PrepareSizes(q.file, q.initramfs, AsBytes(params.cmdline), params.memory);
  }

  lemma {:induction false} PlainAdmits(on: Platform, q: Request, params: Params, p: Prepared)
    requires Suits(on, q, params) && q.mmio == [] && FitsBelow(p, params.memory)
    ensures Admits(Taken(on, p), params) <==>
            (Split(q.ram) ==> PageUp(INITRAMFS_BASE + |p.initramfs|) <= Q35_LOWMEM)
  {
    OwnHoleFits(q.ram, q.mmio, HoleEnd(on));
    UnwrappedPlaced(params.mmio, params.memory);
    OwnHoleClear(p, params.memory, q.ram, HoleEnd(on));
  }

  lemma {:induction false} PlainBuildableWith(on: Platform, q: Request, params: Params)
    requires Suits(on, q, params) && q.mmio == []
    ensures BuildableWith(on, q, params) <==>
            && Files(q, params).Ok?
            && (Split(q.ram) ==> PageUp(INITRAMFS_BASE + |q.initramfs|) <= Q35_LOWMEM)
  {
    if Files(q, params).Ok? {
      FilesFacts(q, params);
      PlainAdmits(on, q, params, Files(q, params).value);
    }
  }

  /** Without extra apertures, nothing beyond a request's own checks decides, but an initramfs that crosses 2 GiB. */
  lemma {:induction false} PlainBuildableIff(on: Platform, q: Request)
    requires q.mmio == []
    ensures Buildable(on, q) <==>
            && Asked(on, q).Ok?
            && var params := Asked(on, q).value;
            && Printable(params.cmdline) && Files(q, params).Ok?
            && (Split(q.ram) ==> PageUp(INITRAMFS_BASE + |q.initramfs|) <= Q35_LOWMEM)
  {
    if Asked(on, q).Ok? {
      AskedSuits(on, q);
      PlainBuildableWith(on, q, Asked(on, q).value);
    }
  }

  // ---------- an empty initramfs ----------

  /** Apertures clear of a region stay clear of it when it shrinks. */
  lemma {:induction false} ClearShrinks(taken: seq<Range>, less: seq<Range>, holes: seq<Hole>)
    requires HolesClear(taken, holes) && |less| == |taken|
    requires forall i :: 0 <= i < |taken| ==>
               less[i] == taken[i] || (less[i].lo == taken[i].lo < less[i].hi <= taken[i].hi)
    ensures HolesClear(less, holes)
  {
    forall i, k | 0 <= i < |less| && 0 <= k < |holes|
      ensures InTurn(TakenSpan(less[i]), HoleSpan(holes[k]))
    {
      assert InTurn(TakenSpan(taken[i]), HoleSpan(holes[k]));
    }
  }

  lemma {:induction false} EmptyTakesLess(on: Platform, p: Prepared, none: Prepared, i: nat)
    requires none.kernel == p.kernel && none.initramfs == [] && i < |Taken(on, p)|
    ensures |Taken(on, none)| == |Taken(on, p)|
    ensures var t, u := Taken(on, p)[i], Taken(on, none)[i];
            u == t || (u.lo == t.lo < u.hi <= t.hi)
  {
  }

  lemma {:induction false} EmptyAdmits(on: Platform, p: Prepared, none: Prepared, params: Params)
    requires Admits(Taken(on, p), params) && none.kernel == p.kernel && none.initramfs == []
    ensures Admits(Taken(on, none), params)
  {
    forall i | 0 <= i < |Taken(on, p)|
      ensures |Taken(on, none)| == |Taken(on, p)|
      ensures var t, u := Taken(on, p)[i], Taken(on, none)[i]; u == t || (u.lo == t.lo < u.hi <= t.hi)
    {
      EmptyTakesLess(on, p, none, i);
    }
    ClearShrinks(Taken(on, p), Taken(on, none), params.mmio);
  }

  /** Whatever can be built can be built with an empty initramfs. */
  lemma {:induction false} EmptyInitramfsBuilds(on: Platform, q: Request)
    requires Buildable(on, q)
    ensures Buildable(on, q.(initramfs := []))
  {
    var none, params := q.(initramfs := []), Asked(on, q).value;
    AskedSuits(on, q);
    EmptyInitramfsPasses(q.file, q.initramfs, AsBytes(params.cmdline), params.memory);
    FilesFacts(q, params);
    FilesFacts(none, params);
    EmptyAdmits(on, Files(q, params).value, Files(none, params).value, params);
  }

  // ---------- a command line longer than its page ----------

  lemma {:induction false} CommandAsk(on: Platform, q: Request, text: string)
    requires Asked(on, q).Ok? && Printable(Trim(text))
    ensures Asked(on, q.(cmdline := text)) == Ok(Asked(on, q).value.(cmdline := Normalise(text)))
    ensures Printable(Normalise(text))
  {
    NewOkIff(q.ram, q.vcpus, q.cmdline, CbitOf(on), q.mmio, HoleEnd(on));
    NewOkIff(q.ram, q.vcpus, text, CbitOf(on), q.mmio, HoleEnd(on));
    AcceptedIff(text);
  }

  lemma {:induction false} CommandTakesAPage(on: Platform, p: Prepared, p': Prepared, params: Params, params': Params)
    requires p'.kernel == p.kernel && p'.initramfs == p.initramfs
    requires params'.mmio == params.mmio && params'.memory == params.memory && Admits(Taken(on, p), params)
    ensures Admits(Taken(on, p'), params')
  {
    assert Taken(on, p') == Taken(on, p);
  }

  /** Whatever can be built can be built with any printable command line its kernel admits, however long. */
  lemma {:induction false} LongCommandBuilds(on: Platform, q: Request, text: string)
    requires Buildable(on, q) && Printable(Trim(text))
    requires ParseBzImage(q.file).Ok? && PAGE <= |Normalise(text)| < ParseBzImage(q.file).value.cmdlineMax
    ensures Buildable(on, q.(cmdline := text))
  {
    var long, params := q.(cmdline := text), Asked(on, q).value;
    AskedSuits(on, q);
    CommandAsk(on, q, text);
    var params' := params.(cmdline := Normalise(text));
    LongCommandLinePasses(q.file, q.initramfs, AsBytes(params.cmdline), AsBytes(params'.cmdline), params.memory);
    FilesFacts(q, params);
    FilesFacts(long, params');
    CommandTakesAPage(on, Files(q, params).value, Files(long, params').value, params, params');
  }

  // ---------- an aperture whose end wraps ----------

  lemma {:induction false} TakenStacked(on: Platform, p: Prepared, memory: int)
    requires FitsBelow(p, memory)
    ensures Stacked(Taken(on, p))
    ensures forall i :: 0 <= i < |Taken(on, p)| ==>
              Taken(on, p)[i].lo > WRAPPING.base && Taken(on, p)[i].lo <= Taken(on, p)[i].hi
  {
    TdxStacked(p, memory);
    SnpStacked(p, memory);
  }

  lemma {:induction false} WrappedAsk(on: Platform, q: Request)
    ensures var r := Asked(on, q.(mmio := q.mmio + [WRAPPING]));
            && (r.Ok? <==> Asked(on, q).Ok?)
            && (r.Ok? ==> r.value == Asked(on, q).value.(mmio := Asked(on, q).value.mmio + [WRAPPING]))
  {
    OneMoreHole(q.ram, q.vcpus, q.cmdline, CbitOf(on), q.mmio, HoleEnd(on), WRAPPING);
    WrappingHolePasses(q.ram, q.vcpus, q.cmdline, CbitOf(on), q.mmio, HoleEnd(on));
  }

  /** An aperture no other gets in the way of. */
  ghost predicate FirstPageOnly(holes: seq<Hole>) {
    forall k :: 0 <= k < |holes| ==> WRAPPING.base <= holes[k].base || HoleSpan(holes[k]).hi <= WRAPPING.base
  }

  lemma {:induction false} OwnIsLater(ram: U64, mmio: seq<Hole>, holeEnd: U64)
    requires Q35_LOWMEM <= holeEnd <= FOUR_GIB
    ensures FirstPageOnly(HolesOf(ram, mmio, holeEnd)) <==> FirstPageOnly(mmio)
    ensures (forall k :: 0 <= k < |HolesOf(ram, mmio, holeEnd)| ==>
               WRAPPING.base <= HolesOf(ram, mmio, holeEnd)[k].base) <==>
            forall k :: 0 <= k < |mmio| ==> WRAPPING.base <= mmio[k].base
  {
    var own := if Split(ram) then [Hole(Q35_LOWMEM, holeEnd - Q35_LOWMEM)] else [];
    var all := own + mmio;
    assert forall k :: 0 <= k < |mmio| ==> all[|own| + k] == mmio[k];
    assert forall k :: |own| <= k < |all| ==> all[k] == mmio[k - |own|];
  }

  lemma {:induction false} WrappingBuildsWith(on: Platform, q: Request, params: Params)
    requires Suits(on, q, params)
    ensures BuildableWith(on, q.(mmio := q.mmio + [WRAPPING]), params.(mmio := params.mmio + [WRAPPING])) <==>
            BuildableWith(on, q, params) && FirstPageOnly(q.mmio)
  {
    if Files(q, params).Ok? {
      FilesFacts(q, params);
      TakenStacked(on, Files(q, params).value, params.memory);
      WrappingHoleIsAdmitted(Taken(on, Files(q, params).value), params);
      OwnIsLater(q.ram, q.mmio, HoleEnd(on));
    }
  }

  /** A request with an aperture over all memory but its first page added is buildable exactly as it was without it. */
  lemma {:induction false} WrappingBuilds(on: Platform, q: Request)
    ensures Buildable(on, q.(mmio := q.mmio + [WRAPPING])) <==> Buildable(on, q) && FirstPageOnly(q.mmio)
  {
    WrappedAsk(on, q);
    if Asked(on, q).Ok? {
      AskedSuits(on, q);
      WrappingBuildsWith(on, q, Asked(on, q).value);
    }
  }

  lemma {:induction false} WrappingUnsettlesWith(on: Platform, q: Request, params: Params, p: Prepared)
    requires Suits(on, q, params) && FitsBelow(p, params.memory)
    requires forall k :: 0 <= k < |q.mmio| ==> WRAPPING.base <= q.mmio[k].base
    ensures var more := params.(mmio := params.mmio + [WRAPPING]);
            !Settles(Taken(on, p), more) && !MapSettles(Taken(on, p), more)
  {
    TakenStacked(on, p, params.memory);
    OwnIsLater(q.ram, q.mmio, HoleEnd(on));
    WrappingHoleBreaks(Taken(on, p), params);
  }

  /** And then, where no aperture starts before it, what is swept from its listing is not the listing's. */
  lemma {:induction false} WrappingUnsettles(on: Platform, q: Request)
    requires Buildable(on, q) && forall k :: 0 <= k < |q.mmio| ==> WRAPPING.base <= q.mmio[k].base
    ensures Buildable(on, q.(mmio := q.mmio + [WRAPPING])) && !WrapsSettled(on, q.(mmio := q.mmio + [WRAPPING]))
  {
    var params := Asked(on, q).value;
    WrappingBuilds(on, q);
    WrappedAsk(on, q);
    AskedSuits(on, q);
    FilesFacts(q, params);
    WrappingUnsettlesWith(on, q, params, Files(q, params).value);
  }

  // ---------- a request that can be built ----------

  /** A kernel with one setup sector, all but the bytes the builder looks at zero. */
  function SampleByte(i: int): Byte {
    if i == HDR_SETUP_SECTS then 1
    else if i == HDR_BOOT_FLAG then BOOT_FLAG[0]
    else if i == HDR_BOOT_FLAG + 1 then BOOT_FLAG[1]
    else if HDR_SIGNATURE <= i < HDR_SIGNATURE + 4 then SIGNATURE[i - HDR_SIGNATURE]
    else if i == HDR_VERSION then 0x0c
    else if i == HDR_VERSION + 1 then 0x02
    else if i == 0x211 || i == HDR_KERNEL_ALIGNMENT || i == HDR_RELOCATABLE || i == HDR_XLOADFLAGS then 1
    else if i == HDR_CMDLINE_SIZE + 1 then 0x20
    else 0
  }

  function SampleFile(): (r: Bytes)
    ensures |r| == 5000 && forall i :: 0 <= i < |r| ==> r[i] == SampleByte(i)
  {
    seq(5000, i => SampleByte(i))
  }

  function Sample(): Request {
    Request(GIB, 4, "", [], SampleFile(), [1])
  }

  lemma {:induction false} FromLe4(s: Bytes)
    requires |s| == 4
    ensures FromLe(s) == s[0] as int + 256 * (s[1] as int + 256 * (s[2] as int + 256 * s[3] as int))
  {
    assert s[1..][1..] == s[2..] && s[2..][1..] == s[3..] && s[3..][1..] == [];
    assert FromLe(s[3..]) == s[3] as int;
    assert FromLe(s[2..]) == s[2] as int + 256 * s[3] as int;
  }

  lemma {:induction false} SampleField(at: nat)
    requires at + 4 <= 5000
    ensures Get32(SampleFile(), at) ==
            SampleByte(at) as int + 256 * (SampleByte(at + 1) as int +
              256 * (SampleByte(at + 2) as int + 256 * SampleByte(at + 3) as int))
  {
    FromLe4(SampleFile()[at..at + 4]);
  }

  lemma {:induction false} SampleVersion()
    ensures FromLe(SampleFile()[HDR_VERSION..HDR_VERSION + 2]) == BOOT_PROTOCOL_2_12
  {
    var s := SampleFile()[HDR_VERSION..HDR_VERSION + 2];
    assert s[1..][1..] == [] && FromLe([]) == 0;
    assert FromLe(s[1..]) == 2;
  }

  lemma {:induction false} SampleParses()
    ensures ParseBzImage(SampleFile()) == Ok(KernelInfo(1024, 0, 0x2000))
  {
    var file := SampleFile();
    SampleVersion();
    SampleField(HDR_KERNEL_ALIGNMENT);
    SampleField(HDR_INIT_SIZE);
    SampleField(HDR_CMDLINE_SIZE);
    assert file[HDR_BOOT_FLAG..HDR_BOOT_FLAG + 2] == BOOT_FLAG;
    assert file[HDR_SIGNATURE..HDR_SIGNATURE + 4] == SIGNATURE;
  }

  /** One gibibyte of RAM, four processors, a small kernel and a byte of initramfs: buildable on both platforms. */
  lemma {:induction false} SampleBuilds(on: Platform)
    requires on.SnpGuest? ==> 32 <= on.cbit <= 63
    ensures Buildable(on, Sample())
  {
    var q := Sample();
    assert Trim("") == "";
    NewOkIff(q.ram, q.vcpus, q.cmdline, CbitOf(on), q.mmio, HoleEnd(on));
    AskedSuits(on, q);
    SampleParses();
    SampleFiles(Asked(on, q).value);
    PlainBuildableIff(on, q);
  }

  lemma {:induction false} SampleFiles(params: Params)
    requires params.memory == GIB && params.cmdline == Normalise("") && Printable(params.cmdline)
    ensures Files(Sample(), params).Ok?
  {
    SampleParses();
    assert Normalise("") == DEFAULT_CMDLINE + " " + REQUIRED_CMDLINE;
    PrepareOkIff(SampleFile(), [1], AsBytes(params.cmdline), GIB);
  }
}
