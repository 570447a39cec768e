/** What a kernel finds in memory once it is started, by following the pointers in its zero page. */
module Handover {
  import opened Wrappers
  import opened Layout
  import opened Bytes
  import opened Physical
  import opened Placement
  import opened CommandLine
  import opened Kernel
  import opened Image
  import Zero = ZeroPage
  import Acpi
  import Find = AcpiTables

  /** Itself, all but its setup sectors, at the address it was linked to run from... */
  ghost predicate FindsKernel(mem: Memory, file: Bytes) {
    ParseBzImage(file).Ok? && Lies(mem, 0x100_0000, file[ParseBzImage(file).value.setupBytes..])
  }

  /** ...and those, padded with zeroes, in the area kept for them. */
  ghost predicate FindsSetup(mem: Memory, file: Bytes) {
    && ParseBzImage(file).Ok?
    && var n := ParseBzImage(file).value.setupBytes;
    && Lies(mem, 0x12_1000, file[..n])
    && forall x :: 0x12_1000 + n <= x < 0x15_0000 ==> mem(x) == 0
  }

  /** The bytes of the zero page a loader fills in, with this many entries in the address map. */
  predicate LoaderOwns(k: nat, entries: nat) {
    || 0x70 <= k < 0x78 || k == 0x1e8 || k == 0x210 || k == 0x211 || 0x214 <= k < 0x220 || 0x228 <= k < 0x22c
    || 0x250 <= k < 0x258 || 0x260 <= k < 0x264 || 0x2d0 <= k < 0x2d0 + 20 * entries
  }

  /** Its own setup header: one it would be accepted with, all else its own, and zeroes around it. */
  ghost predicate FindsHeader(mem: Memory, file: Bytes) {
    && |file| >= 0x290 && IsBootable(Window(mem, 0x7000, 4096)) && Load32(mem, 0x7260) == Get32(file, 0x260)
    && forall k: nat :: k < 4096 && !LoaderOwns(k, mem(0x71e8)) ==>
         mem(0x7000 + k) == if 0x1f1 <= k < 0x290 then file[k] else 0
  }

  /** A loader that registered no number, the heap it may use, and where it starts in 32-bit mode. */
  ghost predicate FindsLoader(mem: Memory, file: Bytes) {
    && |file| >= 0x290 && mem(0x7210) == 0xff
    && mem(0x7211) / 0x80 == 1 && mem(0x7211) % 0x80 == file[0x211] % 0x80 && Load32(mem, 0x7214) == 0x100_0000
  }

  function EntryIn(mem: Memory, at: int): Entry {
    Entry(Load64(mem, at), Load64(mem, at + 8), Load32(mem, at + 16))
  }

  /** The address map: a count, then as many entries of an address, a length and a type. */
  function MapIn(mem: Memory): seq<Entry> {
    seq(mem(0x71e8), k requires 0 <= k < mem(0x71e8) => EntryIn(mem, 0x72d0 + 20 * k))
  }

  ghost predicate FindsMap(mem: Memory, e820: seq<Entry>) {
    mem(0x71e8) <= 128 && MapIn(mem) == e820
  }

  ghost predicate FindsInitramfs(mem: Memory, initramfs: Bytes) {
    && Load32(mem, 0x721c) == |initramfs|
    && Load32(mem, 0x7218) == 0x2000_0000 && Lies(mem, 0x2000_0000, initramfs)
  }

  /** A command line ending in its page, the one meant and zeroes, exactly if that is shorter than a page. */
  ghost predicate FindsCommand(mem: Memory, command: Bytes) {
    var page := Window(mem, Load32(mem, 0x7228), 4096);
    && (0 in page && CString(page) == command <==> |command| < 4096)
    && (if |command| < 4096 then page == command + Zeros(4096 - |command|) else page == command[..4096])
  }

  /** Every processor and, on TDX, the mailbox to start them through, in a machine without legacy hardware. */
  ghost predicate FindsProcessors(mem: Memory, vcpus: nat, wakeup: bool) {
    var page := Window(mem, Load64(mem, 0x7070), 4096);
    && Acpi.ReadInterrupts(page) == Some(Acpi.Interrupts(0xfee0_0000, 1, Find.Expected(0, vcpus, wakeup)))
    && Acpi.ReadFixed(page).Some?
    && var (fadt, dsdt) := Acpi.ReadFixed(page).value;
    Find.IsFadt(fadt) && Find.HasHeader(dsdt, "DSDT", 2) && |dsdt| == 36
  }

  /** The setup_data chain: nothing, or the page the builder put there. */
  ghost predicate FindsSetupData(mem: Memory, at: int, data: Bytes) {
    Load64(mem, 0x7250) == at && Lies(mem, at, data)
  }

  /** The pages these are read from, in memory. */
  ghost predicate Stands(mem: Memory, zero: Bytes, p: Prepared, acpi: Bytes) {
    && Lies(mem, ZERO_PAGE, zero) && Lies(mem, CMDLINE, p.command) && Lies(mem, ACPI_BASE, acpi)
    && Lies(mem, KERNEL_SETUP_BASE, p.setup)
    && Lies(mem, KERNEL_BASE, p.kernel) && Lies(mem, INITRAMFS_BASE, p.initramfs)
  }

  ghost predicate IsHandover(zero: Bytes, p: Prepared, e820: seq<Entry>, setupData: U64) {
    Zero.IsZeroPage(zero, p.setup, p.info.initSize, |p.initramfs|, ACPI_BASE, e820, setupData)
  }

  /** The parts a kernel file was cut into. */
  ghost predicate CutFrom(p: Prepared, file: Bytes) {
    && ParseBzImage(file).Ok? && p.info == ParseBzImage(file).value && p.kernel == file[p.info.setupBytes..]
    && p.setup == file[..p.info.setupBytes] + Zeros(KERNEL_SETUP_AREA_SIZE - p.info.setupBytes)
  }

  lemma {:induction false} ZeroPointers(mem: Memory, zero: Bytes, p: Prepared, e820: seq<Entry>, setupData: U64)
    requires Lies(mem, ZERO_PAGE, zero) && IsHandover(zero, p, e820, setupData)
    requires |p.initramfs| < 0x1_0000_0000
    ensures |zero| == PAGE && Window(mem, ZERO_PAGE, PAGE) == zero
    ensures Load32(mem, 0x7218) == 0x2000_0000 && Load32(mem, 0x721c) == |p.initramfs|
    ensures Load32(mem, 0x7228) == 0x2_0000 && Load32(mem, 0x7214) == 0x100_0000
  {
    Zero.ZeroPageFields(zero, p.setup, p.info.initSize, |p.initramfs|, ACPI_BASE, e820, setupData);
    assert Window(mem, ZERO_PAGE, PAGE) == zero;
    Load32IsGet(mem, ZERO_PAGE, zero, Zero.HDR_RAMDISK_IMAGE);
    Load32IsGet(mem, ZERO_PAGE, zero, Zero.HDR_RAMDISK_SIZE);
    Load32IsGet(mem, ZERO_PAGE, zero, Zero.HDR_CMD_LINE_PTR);
    Load32IsGet(mem, ZERO_PAGE, zero, Zero.HDR_CODE32_START);
  }

  lemma {:induction false} ZeroAddresses(mem: Memory, zero: Bytes, p: Prepared, e820: seq<Entry>, setupData: U64)
    requires Lies(mem, ZERO_PAGE, zero) && IsHandover(zero, p, e820, setupData)
    ensures Load64(mem, 0x7070) == 0xe_0000 && Load64(mem, 0x7250) == setupData
    ensures Load32(mem, 0x7260) == p.info.initSize
  {
    Zero.ZeroPageAddresses(zero, p.setup, p.info.initSize, |p.initramfs|, ACPI_BASE, e820, setupData);
    assert Window(mem, ZERO_PAGE, PAGE) == zero;
    LoadIsGet(mem, ZERO_PAGE, zero, Zero.BP_ACPI_RSDP_ADDR);
    LoadIsGet(mem, ZERO_PAGE, zero, Zero.HDR_SETUP_DATA);
    Load32IsGet(mem, ZERO_PAGE, zero, Zero.HDR_INIT_SIZE);
  }

  /** A setup area starts with the file's own header. */
  lemma {:induction false} SetupStarts(p: Prepared, file: Bytes, k: nat)
    requires CutFrom(p, file) && k < Zero.SETUP_HEADER_END
    ensures |file| >= 0x290 && |p.setup| >= 0x290 && p.setup[k] == file[k]
  {
    assert p.setup[k] == file[..p.info.setupBytes][k];
  }

  lemma {:induction false} HeaderFound(mem: Memory, file: Bytes, zero: Bytes, p: Prepared, e820: seq<Entry>,
                                       setupData: U64)
    requires Lies(mem, ZERO_PAGE, zero) && IsHandover(zero, p, e820, setupData) && CutFrom(p, file)
    requires |zero| == PAGE && zero[0x1e8] == |e820|
    ensures FindsHeader(mem, file) && FindsLoader(mem, file)
  {
    forall k: nat | k < 0x290
      ensures |file| >= 0x290 && p.setup[k] == file[k]
    {
      SetupStarts(p, file, k);
    }
    assert p.setup[..0x290] == file[..0x290];
    HeaderPasses(mem, file, zero, p, e820, setupData);
    FlagsFound(mem, zero, p, e820, setupData);
    forall k: nat | k < 4096 && !LoaderOwns(k, |e820|)
      ensures mem(0x7000 + k) == if 0x1f1 <= k < 0x290 then file[k] else 0
    {
      Zero.ZeroPageKeeps(zero, p.setup, p.info.initSize, |p.initramfs|, ACPI_BASE, e820, setupData, k);
    }
  }

  lemma {:induction false} HeaderPasses(mem: Memory, file: Bytes, zero: Bytes, p: Prepared, e820: seq<Entry>,
                                        setupData: U64)
    requires Lies(mem, ZERO_PAGE, zero) && IsHandover(zero, p, e820, setupData) && CutFrom(p, file)
    requires |p.setup| >= 0x290 && |file| >= 0x290 && p.setup[..0x290] == file[..0x290]
    ensures IsBootable(Window(mem, 0x7000, 4096)) && Load32(mem, 0x7260) == Get32(file, 0x260)
  {
    ZeroPageStillParses(zero, p.setup, file, |p.initramfs|, ACPI_BASE, e820, setupData);
    HeaderFaultIff(zero);
    ZeroAddresses(mem, zero, p, e820, setupData);
    ParseOkIff(file, SetupBytes(file));
    assert Window(mem, ZERO_PAGE, PAGE) == zero;
  }

  lemma {:induction false} FlagsFound(mem: Memory, zero: Bytes, p: Prepared, e820: seq<Entry>, setupData: U64)
    requires Lies(mem, ZERO_PAGE, zero) && IsHandover(zero, p, e820, setupData)
    ensures |p.setup| >= 0x290 && mem(0x7210) == 0xff
    ensures mem(0x7211) / 0x80 == 1 && mem(0x7211) % 0x80 == p.setup[0x211] % 0x80
    ensures Load32(mem, 0x7214) == 0x100_0000
  {
    Zero.ZeroPageFields(zero, p.setup, p.info.initSize, |p.initramfs|, ACPI_BASE, e820, setupData);
    Zero.ZeroPageFlags(zero, p.setup, p.info.initSize, |p.initramfs|, ACPI_BASE, e820, setupData);
    assert mem(ZERO_PAGE + 0x210) == zero[0x210] && mem(ZERO_PAGE + 0x211) == zero[0x211];
    assert Window(mem, ZERO_PAGE, PAGE) == zero;
    Load32IsGet(mem, ZERO_PAGE, zero, Zero.HDR_CODE32_START);
  }

  lemma {:induction false} SetupFound(mem: Memory, file: Bytes, p: Prepared)
    requires CutFrom(p, file) && Lies(mem, KERNEL_SETUP_BASE, p.setup)
    ensures FindsSetup(mem, file)
  {
    var n := p.info.setupBytes;
    forall i | 0 <= i < n
      ensures mem(0x12_1000 + i) == file[..n][i]
    {
      assert mem(KERNEL_SETUP_BASE + i) == p.setup[i];
    }
    forall x | 0x12_1000 + n <= x < 0x15_0000
      ensures mem(x) == 0
    {
      assert mem(KERNEL_SETUP_BASE + (x - KERNEL_SETUP_BASE)) == p.setup[x - KERNEL_SETUP_BASE];
    }
  }

  /** The map read entry by entry from memory is the one the zero page decodes to. */
  lemma {:induction false} MapFound(mem: Memory, zero: Bytes, e820: seq<Entry>)
    requires |zero| == PAGE && Lies(mem, ZERO_PAGE, zero)
    requires zero[Zero.BP_E820_ENTRIES] <= Zero.E820_MAX && Zero.DecodeE820(zero) == e820
    ensures FindsMap(mem, e820)
  {
    assert mem(ZERO_PAGE + 0x1e8) == zero[0x1e8];
    forall k | 0 <= k < zero[0x1e8]
      ensures EntryIn(mem, 0x72d0 + 20 * k) == Zero.DecodeEntry(zero, Zero.BP_E820_TABLE + k * Zero.E820_ENTRY_LEN)
    {
      EntryFound(mem, zero, Zero.BP_E820_TABLE + k * Zero.E820_ENTRY_LEN);
    }
  }

  lemma {:induction false} EntryFound(mem: Memory, zero: Bytes, at: nat)
    requires |zero| == PAGE && Lies(mem, ZERO_PAGE, zero) && Fits(zero, at, 20)
    ensures EntryIn(mem, 0x7000 + at) == Zero.DecodeEntry(zero, at)
  {
    assert Window(mem, ZERO_PAGE, PAGE) == zero;
    LoadIsGet(mem, ZERO_PAGE, zero, at);
    LoadIsGet(mem, ZERO_PAGE, zero, at + 8);
    Load32IsGet(mem, ZERO_PAGE, zero, at + 16);
  }

  lemma {:induction false} CommandFound(mem: Memory, command: Bytes)
    requires Lies(mem, CMDLINE, Resized(command + [0])) && forall i :: 0 <= i < |command| ==> command[i] != 0
    requires Load32(mem, 0x7228) == 0x2_0000
    ensures FindsCommand(mem, command)
  {
    var page := Resized(command + [0]);
    assert Window(mem, CMDLINE, PAGE) == page;
    CommandLineIffFits(command);
    if |command| < PAGE {
      assert page == command + Zeros(PAGE - |command|);
    } else {
      assert page == command[..PAGE];
    }
  }

  lemma {:induction false} ProcessorsFound(mem: Memory, vcpus: nat, wakeup: bool)
    requires vcpus <= MAX_VCPUS && Lies(mem, ACPI_BASE, Acpi.AcpiPage(vcpus, wakeup))
    requires Load64(mem, 0x7070) == 0xe_0000
    ensures FindsProcessors(mem, vcpus, wakeup)
  {
    assert Window(mem, ACPI_BASE, PAGE) == Acpi.AcpiPage(vcpus, wakeup);
    Acpi.InterruptsRoundTrip(vcpus, wakeup);
    Acpi.FixedRoundTrip(vcpus, wakeup);
  }

  /** Everything a kernel reads to learn where it is, its command line being what was made of a request's. */
  ghost predicate Informed(mem: Memory, file: Bytes, initramfs: Bytes, line: string, text: string, e820: seq<Entry>,
                           vcpus: nat, wakeup: bool)
  {
    && FindsKernel(mem, file) && FindsSetup(mem, file) && FindsHeader(mem, file) && FindsLoader(mem, file)
    && FindsMap(mem, e820) && FindsInitramfs(mem, initramfs) && FindsProcessors(mem, vcpus, wakeup)
    && Printable(line) && Honours(line, text) && FindsCommand(mem, AsBytes(line))
  }

  lemma {:induction false} KernelFindsAll(mem: Memory, file: Bytes, line: string, text: string, zero: Bytes,
                                          p: Prepared, e820: seq<Entry>, setupData: U64, vcpus: nat, wakeup: bool)
    requires vcpus <= MAX_VCPUS && Stands(mem, zero, p, Acpi.AcpiPage(vcpus, wakeup))
    requires IsHandover(zero, p, e820, setupData) && CutFrom(p, file) && |p.initramfs| < 0x1_0000_0000
    requires |zero| == PAGE && zero[Zero.BP_E820_ENTRIES] <= Zero.E820_MAX && Zero.DecodeE820(zero) == e820
    requires Printable(line) && Honours(line, text) && p.command == Resized(AsBytes(line) + [0])
    ensures Informed(mem, file, p.initramfs, line, text, e820, vcpus, wakeup)
    ensures Load64(mem, 0x7250) == setupData
  {
    ZeroPointers(mem, zero, p, e820, setupData);
    ZeroAddresses(mem, zero, p, e820, setupData);
    SetupFound(mem, file, p);
    HeaderFound(mem, file, zero, p, e820, setupData);
    MapFound(mem, zero, e820);
    CommandFound(mem, AsBytes(line));
    ProcessorsFound(mem, vcpus, wakeup);
  }
}
