/** The regions a build lays out: what each platform's are, and the parameters they sit among. */
module Regions {
  import opened Wrappers
  import opened Layout
  import opened Bytes
  import opened Placement
  import opened Partition
  import opened Params
  import opened Image
  import opened Wrapping

  /** What `Prepare` guarantees of the bytes it hands on. */
  ghost predicate Sized(p: Prepared) {
    && |p.setup| == KERNEL_SETUP_AREA_SIZE && |p.command| == PAGE
    && |p.kernel| <= INITRAMFS_BASE && |p.initramfs| <= 0x1_0000_0000
  }

  /** And of where they end. */
  ghost predicate FitsBelow(p: Prepared, memory: int) {
    && PageUp(KERNEL_BASE + |p.kernel|) <= INITRAMFS_BASE
    && PageUp(INITRAMFS_BASE + |p.initramfs|) <= memory && PageUp(INITRAMFS_BASE + |p.initramfs|) <= 0xffff_ffff
  }

  lemma {:induction false} PrepareSizes(file: Bytes, initramfs: Bytes, cmdline: Bytes, memory: int)
    requires Prepare(file, initramfs, cmdline, memory).Ok?
    ensures var p := Prepare(file, initramfs, cmdline, memory).value;
            Sized(p) && p.kernel != [] && FitsBelow(p, memory)
  {
  }

  /** Parameters that were accepted. */
  ghost predicate Checks(params: Params) {
    && PageAligned(params.memory) && INITRAMFS_BASE < params.memory <= MAP_LIMIT
    && forall i :: 0 <= i < |params.mmio| ==> Checked(params.mmio[i], params.memory)
  }

  /** And whose apertures all end where their sums say. */
  ghost predicate Usable(params: Params) { Checks(params) && NoHoleWraps(params.mmio) }

  predicate RegionOk(p: Placed) {
    && p.base + p.Span() < U64_MODULUS
    && (p.fill.Mmio? <==> p.e820 == ABSENT)
    && (p.fill.Mmio? ==> p.fill.size > 0 && PageAligned(p.fill.size))
  }

  lemma {:induction false} RegionsOk(regions: seq<Placed>, holes: seq<Hole>, params: Params)
    requires forall i :: 0 <= i < |regions| ==> RegionOk(regions[i])
    requires Checks(params) && holes == params.mmio
    ensures NoFullTurn(regions + MmioList(holes)) && Described(regions + MmioList(holes))
  {
    var all := regions + MmioList(holes);
    forall i | 0 <= i < |all|
      ensures 0 < all[i].Span() < U64_MODULUS
      ensures all[i].fill.Mmio? <==> all[i].e820 == ABSENT
      ensures all[i].fill.Mmio? ==> all[i].fill.size > 0 && PageAligned(all[i].fill.size)
    {
      if i < |regions| {
        assert all[i] == regions[i] && RegionOk(regions[i]);
      } else {
        assert all[i] == MmioAt(holes[i - |regions|].base, holes[i - |regions|].size);
        assert Checked(holes[i - |regions|], params.memory);
      }
    }
  }

  /** A region of the builder's own: anything but an aperture. */
  predicate OwnRegion(p: Placed) { RegionOk(p) && !p.fill.Mmio? }

  lemma {:induction false} MeasuredOk(base: U64, name: string, e820: U32, data: Bytes)
    requires base < MAP_LIMIT && e820 != ABSENT && |data| <= MAP_LIMIT
    ensures OwnRegion(MeasuredAt(base, name, e820, data))
  {
  }

  lemma {:induction false} TdxRegionsOk(p: Prepared, acpi: Bytes, tables: Bytes, stack: Bytes)
    requires Sized(p) && |acpi| == PAGE && |tables| <= 3 * PAGE && |stack| == BSP_STACK_SIZE
    ensures forall i :: 0 <= i < 10 ==> OwnRegion(TdxRegions(p, acpi, tables, stack)[i])
  {
    MeasuredOk(ZERO_PAGE, "", RESERVED, Zeros(PAGE));
    MeasuredOk(CMDLINE, "command_line", RESERVED, p.command);
    MeasuredOk(ACPI_BASE, "acpi", ACPI, acpi);
    MeasuredOk(MAILBOX, "", RESERVED, Zeros(PAGE));
    MeasuredOk(PAGE_TABLES, "", RESERVED, tables);
    MeasuredOk(BSP_STACK, "", RESERVED, stack);
    MeasuredOk(KERNEL_SETUP_BASE, "kernel_setup", RESERVED, p.setup);
    MeasuredOk(KERNEL_BASE, "kernel", RAM, p.kernel);
    MeasuredOk(INITRAMFS_BASE, "initramfs", RAM, p.initramfs);
    MeasuredOk(RESET_ALIAS, "shim", RESERVED, Zeros(PAGE));
  }

  lemma {:induction false} SnpRegionsOk(p: Prepared, acpi: Bytes, ccBlob: Bytes, tables: Bytes, stack: Bytes)
    requires Sized(p) && |acpi| == PAGE && |ccBlob| == PAGE && |tables| <= 3 * PAGE && |stack| == BSP_STACK_SIZE
    ensures forall i :: 0 <= i < 13 ==> OwnRegion(SnpRegions(p, acpi, ccBlob, tables, stack)[i])
  {
    MeasuredOk(ZERO_PAGE, "", RESERVED, Zeros(PAGE));
    MeasuredOk(CMDLINE, "command_line", RESERVED, p.command);
    MeasuredOk(ACPI_BASE, "acpi", ACPI, acpi);
    MeasuredOk(SNP_CC_BLOB, "cc_blob", RAM, ccBlob);
    MeasuredOk(PAGE_TABLES, "", RESERVED, tables);
    MeasuredOk(BSP_STACK, "", RESERVED, stack);
    MeasuredOk(SNP_GHCB, "", RESERVED, Zeros(PAGE));
    MeasuredOk(SHIM_BASE, "shim", RESERVED, Zeros(PAGE));
    MeasuredOk(KERNEL_SETUP_BASE, "kernel_setup", RESERVED, p.setup);
    MeasuredOk(KERNEL_BASE, "kernel", RAM, p.kernel);
    MeasuredOk(INITRAMFS_BASE, "initramfs", RAM, p.initramfs);
  }
}
