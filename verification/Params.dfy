/** What an image is built for: guest RAM, the address map it implies and the MMIO apertures. */
module Params {
  import opened Wrappers
  import opened Layout
  import opened Collections
  import opened Placement
  import opened Cli
  import opened CommandLine

  datatype Hole = Hole(base: U64, size: U64)
  datatype Params = Params(memory: U64, vcpus: U32, cmdline: string, cbit: nat, mmio: seq<Hole>)
  datatype ParamError = BadRam | BadVcpus | BadCbit | BadCmdline | BadHole | HoleOutside

  predicate Split(ram: int) { ram >= Q35_SPLIT }

  function MemoryOf(ram: U64): U64
    requires ram <= MAX_RAM
  {
    if Split(ram) then FOUR_GIB + ram - Q35_LOWMEM else ram
  }

  function HolesOf(ram: U64, mmio: seq<Hole>, holeEnd: U64): seq<Hole>
    requires Q35_LOWMEM <= holeEnd
  {
    (if Split(ram) then [Hole(Q35_LOWMEM, holeEnd - Q35_LOWMEM)] else []) + mmio
  }

  function CheckHoles(holes: seq<Hole>, memory: int): Option<ParamError> {
    if holes == [] then None
    else if !PageAligned(holes[0].base) || !PageAligned(holes[0].size) || holes[0].size == 0 then Some(BadHole)
    else if AddU64(holes[0].base, holes[0].size) > memory then Some(HoleOutside)
    else CheckHoles(holes[1..], memory)
  }

  function New(ram: U64, vcpus: U32, cmdline: string, cbit: nat, mmio: seq<Hole>, holeEnd: U64): Result<Params,
               ParamError>
    requires Q35_LOWMEM <= holeEnd
  {
    if !PageAligned(ram) || ram <= INITRAMFS_BASE || ram > MAX_RAM then Err(BadRam)
    else if vcpus == 0 || vcpus > MAX_VCPUS then Err(BadVcpus)
    else if !(32 <= cbit <= 63) then Err(BadCbit)
    else
      match Accepted(cmdline)
      case None => Err(BadCmdline)
      case Some(c) =>
        var holes := HolesOf(ram, mmio, holeEnd);
        match CheckHoles(holes, MemoryOf(ram))
        case Some(e) => Err(e)
        case None => Ok(Params(MemoryOf(ram), vcpus, c, cbit, holes))
  }

  function Tdx(ram: U64, vcpus: U32, cmdline: string, mmio: seq<Hole>): Result<Params, ParamError> {
    New(ram, vcpus, cmdline, 51, mmio, RESET_ALIAS)
  }

  function Snp(ram: U64, vcpus: U32, cbit: nat, cmdline: string, mmio: seq<Hole>): Result<Params, ParamError> {
    New(ram, vcpus, cmdline, cbit, mmio, FOUR_GIB)
  }

  /** What a checked hole is, its end being computed modulo 2^64. */
  predicate Checked(h: Hole, memory: int) {
    PageAligned(h.base) && PageAligned(h.size) && h.size > 0 && AddU64(h.base, h.size) <= memory
  }

  lemma {:induction false} CheckHolesIff(holes: seq<Hole>, memory: int)
    ensures CheckHoles(holes, memory).None? <==> forall i :: 0 <= i < |holes| ==> Checked(holes[i], memory)
  {
    if holes != [] {
      CheckHolesIff(holes[1..], memory);
      assert forall i :: 0 <= i < |holes| - 1 ==> holes[1..][i] == holes[i + 1];
    }
  }

  /** Parameters are accepted exactly when every check passes, the ends of apertures being computed modulo 2^64. */
  lemma {:induction false} NewOkIff(ram: U64, vcpus: U32, cmdline: string, cbit: nat, mmio: seq<Hole>, holeEnd: U64)
    requires Q35_LOWMEM < holeEnd <= FOUR_GIB && PageAligned(holeEnd)
    ensures New(ram, vcpus, cmdline, cbit, mmio, holeEnd).Ok? <==>
            && PageAligned(ram) && 0x2000_0000 < ram <= 510 * 0x4000_0000 && 1 <= vcpus <= 344 && 32 <= cbit <= 63
            && Printable(Trim(cmdline))
            && forall i :: 0 <= i < |mmio| ==> Checked(mmio[i], MemoryOf(ram))
  {
    AcceptedIff(cmdline);
    if PageAligned(ram) && INITRAMFS_BASE < ram <= MAX_RAM {
      OwnHoleChecked(ram, mmio, holeEnd);
    }
  }

  /** The first aperture to fail its checks: empty or out of line, or else ending past memory. */
  ghost predicate FailsAt(holes: seq<Hole>, memory: int, i: nat, e: ParamError)
    requires i < |holes|
  {
    && (forall j :: 0 <= j < i ==> Checked(holes[j], memory))
    && var h := holes[i];
    var whole := h.base % 4096 == 0 && h.size % 4096 == 0 && h.size > 0;
    e == (if whole then HoleOutside else BadHole) && (whole ==> AddU64(h.base, h.size) > memory)
  }

  lemma {:induction false} HolesFail(holes: seq<Hole>, memory: int) returns (i: nat)
    requires CheckHoles(holes, memory).Some?
    ensures i < |holes| && FailsAt(holes, memory, i, CheckHoles(holes, memory).value)
  {
    if CheckHoles(holes[1..], memory) == CheckHoles(holes, memory) && Checked(holes[0], memory) {
      var k := HolesFail(holes[1..], memory);
      i := k + 1;
      assert forall j :: 0 < j < i ==> holes[j] == holes[1..][j - 1];
    } else {
      i := 0;
    }
  }

  /** Parameters are refused for the first thing wrong with them, apertures last. */
  lemma {:induction false} RefusedFor(ram: U64, vcpus: U32, cmdline: string, cbit: nat, mmio: seq<Hole>, holeEnd: U64)
    requires Q35_LOWMEM <= holeEnd
    ensures var r := New(ram, vcpus, cmdline, cbit, mmio, holeEnd);
            var ramOk := ram % 4096 == 0 && 0x2000_0000 < ram <= 510 * 0x4000_0000;
            var cpusOk, cbitOk := 1 <= vcpus <= 344, 32 <= cbit <= 63;
            && (r == Err(BadRam) <==> !ramOk)
            && (r == Err(BadVcpus) <==> ramOk && !cpusOk)
            && (r == Err(BadCbit) <==> ramOk && cpusOk && !cbitOk)
            && (r == Err(BadCmdline) <==> ramOk && cpusOk && cbitOk && !Printable(Trim(cmdline)))
    ensures var r := New(ram, vcpus, cmdline, cbit, mmio, holeEnd);
            r.Err? && (r.error.BadHole? || r.error.HoleOutside?) ==>
              && ram <= MAX_RAM
              && var holes := HolesOf(ram, mmio, holeEnd);
              exists i: nat :: i < |holes| && FailsAt(holes, MemoryOf(ram), i, r.error)
  {
    AcceptedIff(cmdline);
    if ram <= MAX_RAM && CheckHoles(HolesOf(ram, mmio, holeEnd), MemoryOf(ram)).Some? {
      var i := HolesFail(HolesOf(ram, mmio, holeEnd), MemoryOf(ram));
    }
  }

  /** The machine's own aperture passes every check, so only those asked for can fail one. */
  lemma {:induction false} OwnHoleChecked(ram: U64, mmio: seq<Hole>, holeEnd: U64)
    requires Q35_LOWMEM < holeEnd <= FOUR_GIB && PageAligned(holeEnd)
    requires PageAligned(ram) && ram <= MAX_RAM
    ensures CheckHoles(HolesOf(ram, mmio, holeEnd), MemoryOf(ram)).None? <==>
            forall i :: 0 <= i < |mmio| ==> Checked(mmio[i], MemoryOf(ram))
  {
    CheckHolesIff(HolesOf(ram, mmio, holeEnd), MemoryOf(ram));
    if Split(ram) {
      var own := Hole(Q35_LOWMEM, holeEnd - Q35_LOWMEM);
      assert Checked(own, MemoryOf(ram));
      CheckedCons(own, mmio, MemoryOf(ram));
    } else {
      assert HolesOf(ram, mmio, holeEnd) == mmio;
    }
  }

  lemma {:induction false} CheckedCons(h: Hole, mmio: seq<Hole>, memory: int)
    requires Checked(h, memory)
    ensures (forall i :: 0 <= i < |[h] + mmio| ==> Checked(([h] + mmio)[i], memory)) <==>
            forall i :: 0 <= i < |mmio| ==> Checked(mmio[i], memory)
  {
    var all := [h] + mmio;
    if forall i :: 0 <= i < |all| ==> Checked(all[i], memory) {
      forall i | 0 <= i < |mmio|
        ensures Checked(mmio[i], memory)
      {
        assert all[i + 1] == mmio[i];
      }
    }
    if forall i :: 0 <= i < |mmio| ==> Checked(mmio[i], memory) {
      forall i | 0 <= i < |all|
        ensures Checked(all[i], memory)
      {
        assert all[i] == if i == 0 then h else mmio[i - 1];
      }
    }
  }

  lemma {:induction false} NewValue(ram: U64, vcpus: U32, cmdline: string, cbit: nat, mmio: seq<Hole>, holeEnd: U64)
    requires Q35_LOWMEM <= holeEnd && New(ram, vcpus, cmdline, cbit, mmio, holeEnd).Ok?
    ensures ram <= MAX_RAM
    ensures New(ram, vcpus, cmdline, cbit, mmio, holeEnd).value ==
            Params(MemoryOf(ram), vcpus, Normalise(cmdline), cbit, HolesOf(ram, mmio, holeEnd))
  {
  }

  /** Accepted parameters: memory is whole pages the identity map reaches, past the initramfs. */
  lemma {:induction false} NewFacts(ram: U64, vcpus: U32, cmdline: string, cbit: nat, mmio: seq<Hole>, holeEnd: U64)
    requires Q35_LOWMEM <= holeEnd <= FOUR_GIB && PageAligned(holeEnd)
    requires New(ram, vcpus, cmdline, cbit, mmio, holeEnd).Ok?
    ensures var p := New(ram, vcpus, cmdline, cbit, mmio, holeEnd).value;
            && PageAligned(p.memory) && INITRAMFS_BASE < p.memory <= MAP_LIMIT
            && p.cmdline == Normalise(cmdline) && Printable(p.cmdline)
            && forall i :: 0 <= i < |p.mmio| ==> Checked(p.mmio[i], p.memory)
  {
    CheckHolesIff(HolesOf(ram, mmio, holeEnd), MemoryOf(ram));
  }

  ghost predicate NoHoleWraps(holes: seq<Hole>) {
    forall i :: 0 <= i < |holes| ==> holes[i].base + holes[i].size < U64_MODULUS
  }

  ghost predicate HolesInside(holes: seq<Hole>, memory: int) {
    forall i :: 0 <= i < |holes| ==> holes[i].base + holes[i].size <= memory
  }

  lemma {:induction false} InsideIffNoWrap(holes: seq<Hole>, memory: int)
    requires memory <= MAP_LIMIT
    requires forall i :: 0 <= i < |holes| ==> Checked(holes[i], memory)
    ensures HolesInside(holes, memory) <==> NoHoleWraps(holes)
  {
  }

  /** The machine's own aperture never wraps, so only those asked for can. */
  lemma {:induction false} OwnHoleFits(ram: U64, mmio: seq<Hole>, holeEnd: U64)
    requires Q35_LOWMEM <= holeEnd <= FOUR_GIB
    ensures NoHoleWraps(HolesOf(ram, mmio, holeEnd)) <==> NoHoleWraps(mmio)
  {
    var own := if Split(ram) then [Hole(Q35_LOWMEM, holeEnd - Q35_LOWMEM)] else [];
    var all := own + mmio;
    forall i | 0 <= i < |mmio|
      ensures all[|own| + i] == mmio[i]
    {
    }
    if NoHoleWraps(mmio) {
      forall i | 0 <= i < |all|
        ensures all[i].base + all[i].size < U64_MODULUS
      {
        assert i >= |own| ==> all[i] == mmio[i - |own|];
      }
    }
  }

  /** Accepted apertures lie inside the memory described exactly when none of their ends wraps. */
  lemma {:induction false} HolesInsideIffNoWrap(ram: U64, vcpus: U32, cmdline: string, cbit: nat, mmio: seq<Hole>,
                                                holeEnd: U64)
    requires Q35_LOWMEM <= holeEnd <= FOUR_GIB && PageAligned(holeEnd)
    requires New(ram, vcpus, cmdline, cbit, mmio, holeEnd).Ok?
    ensures var p := New(ram, vcpus, cmdline, cbit, mmio, holeEnd).value;
            HolesInside(p.mmio, p.memory) <==> NoHoleWraps(mmio)
  {
    NewFacts(ram, vcpus, cmdline, cbit, mmio, holeEnd);
    var p := New(ram, vcpus, cmdline, cbit, mmio, holeEnd).value;
    InsideIffNoWrap(p.mmio, p.memory);
    OwnHoleFits(ram, mmio, holeEnd);
  }

  /** The apertures that do not wrap. */
  function Unwrapped(holes: seq<Hole>): (r: seq<Hole>)
    ensures NoHoleWraps(r) && forall h :: h in r <==> h in holes && h.base + h.size < U64_MODULUS
  {
    if holes == [] then []
    else
      var init, last := holes[..|holes| - 1], holes[|holes| - 1];
      if last.base + last.size < U64_MODULUS then Unwrapped(init) + [last] else Unwrapped(init)
  }

  lemma {:induction false} UnwrappedChecked(holes: seq<Hole>, memory: int)
    requires forall i :: 0 <= i < |holes| ==> Checked(holes[i], memory)
    ensures forall i :: 0 <= i < |Unwrapped(holes)| ==> Checked(Unwrapped(holes)[i], memory)
  {
    forall i | 0 <= i < |Unwrapped(holes)|
      ensures Checked(Unwrapped(holes)[i], memory)
    {
      assert Unwrapped(holes)[i] in holes;
    }
  }

  lemma {:induction false} UnwrappedAll(holes: seq<Hole>)
    requires NoHoleWraps(holes)
    ensures Unwrapped(holes) == holes
  {
    if holes != [] {
      UnwrappedAll(holes[..|holes| - 1]);
    }
  }

  lemma {:induction false} UnwrappedSnoc(init: seq<Hole>, last: Hole)
    ensures Unwrapped(init + [last]) ==
            if last.base + last.size < U64_MODULUS then Unwrapped(init) + [last] else Unwrapped(init)
  {
    assert (init + [last])[..|init|] == init;
  }

  lemma {:induction false} UnwrappedJoin(x: seq<Hole>, y: seq<Hole>)
    ensures Unwrapped(x + y) == Unwrapped(x) + Unwrapped(y)
  {
    if y == [] {
      assert x + y == x && Unwrapped(y) == [];
    } else {
      var init, last := y[..|y| - 1], y[|y| - 1];
      UnwrappedJoin(x, init);
      assert y == init + [last];
      ConcatAssoc(x, init, [last]);
      UnwrappedSnoc(x + init, last);
      UnwrappedSnoc(init, last);
      ConcatAssoc(Unwrapped(x), Unwrapped(init), [last]);
    }
  }

  /** An aperture whose end wraps to zero: every check passes it, although it lies over all but the first page. */
  const WRAPPING := Hole(0x1000, U64_MODULUS - 0x1000)

  /** One more aperture is accepted exactly when it passes its own checks, and changes nothing else. */
  lemma {:induction false} OneMoreHole(ram: U64, vcpus: U32, cmdline: string, cbit: nat, mmio: seq<Hole>, holeEnd: U64,
                                       h: Hole)
    requires Q35_LOWMEM < holeEnd <= FOUR_GIB && PageAligned(holeEnd)
    ensures var p := New(ram, vcpus, cmdline, cbit, mmio, holeEnd);
            var r := New(ram, vcpus, cmdline, cbit, mmio + [h], holeEnd);
            && (r.Ok? <==> p.Ok? && Checked(h, MemoryOf(ram)))
            && (r.Ok? ==> r.value == p.value.(mmio := p.value.mmio + [h]))
  {
    var more := mmio + [h];
    NewOkIff(ram, vcpus, cmdline, cbit, mmio, holeEnd);
    NewOkIff(ram, vcpus, cmdline, cbit, more, holeEnd);
    assert forall i :: 0 <= i < |mmio| ==> more[i] == mmio[i];
    assert more[|mmio|] == h;
    if ram <= MAX_RAM {
      assert HolesOf(ram, more, holeEnd) == HolesOf(ram, mmio, holeEnd) + [h];
    }
  }

  /** So that one is accepted beside any others. */
  lemma {:induction false} WrappingHolePasses(ram: U64, vcpus: U32, cmdline: string, cbit: nat, mmio: seq<Hole>,
                                              holeEnd: U64)
    requires Q35_LOWMEM < holeEnd <= FOUR_GIB && PageAligned(holeEnd)
    ensures New(ram, vcpus, cmdline, cbit, mmio + [WRAPPING], holeEnd).Ok? <==>
            New(ram, vcpus, cmdline, cbit, mmio, holeEnd).Ok?
  {
    OneMoreHole(ram, vcpus, cmdline, cbit, mmio, holeEnd, WRAPPING);
    if New(ram, vcpus, cmdline, cbit, mmio, holeEnd).Ok? {
      assert Checked(WRAPPING, MemoryOf(ram));
    }
  }
}
