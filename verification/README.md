# A model of the measured-image builder and its two boot shims

The repository builds a measured guest memory image for a TDX or an SEV-SNP confidential guest, and ships a
4-KiB assembly shim for each that finishes the job at boot. This project models both halves in Dafny and proves
that they agree.

- **One map.** A build lists the regions it places. The E820 table, the accept list, the pages a loader imports
  and the RequiredMemory directives are all swept out of that list (`Placement`, `Sweeps`, `MapTheorems`, `Pages`,
  `Partition`, `RequiredMemory`, `Conservation`). Which lists pass validation, and from which the two sweeps come out
  right, is decided for every request, apertures that wrap included (`Regions`, `Admission`, `Wrapping`, `Trimming`),
  and under which type each address is then offered to the kernel (`Offers`).
- **Written down in itself.** Two of the pages placed carry encodings of views of the map they belong to: the zero
  page holds the E820 table and the shim page holds the accept ranges (`ZeroPage`, `ShimBlock`, `Image`, `Build`).
  The identity map and the ACPI tables are the other encodings (`IdentityMap`, `AcpiTables`, `Acpi`); the kernel's
  header and the command line are what a build takes from outside (`Kernel`, `CommandLine`, `Params`).
- **Read back at boot.** The shims are programs over a guest whose page states and memory change step by step, with
  firmware and host answering anything they like. Every load, store, clear and PVALIDATE goes where a walk of the page
  tables that are in memory at that moment sends it, and one that lands nowhere, or at the wrong encryption, is
  noticed (`Physical`, `Paging`, `Guest`, `Trace`, `TdxShim`, `SnpShim`, `SnpWake`). The parked TDX processors are a
  protocol over single reads and writes (`Mailbox`, `MailboxSafety`, `MailboxOrder`).
- **Measured.** The SNP digest chain and the MRTD record stream are hashed by an arbitrary function `H`; what a
  digest binds is stated as "the same list, or here is what breaks `H`" (`SnpMeasure`, `Mrtd`), and for finished images
  as "the same guest" (`Attestation`).
- **End to end.** `EndToEnd.BootTdx` and `EndToEnd.BootSnp` start from a request for an image and end at the kernel
  jump: parameters, files, layout, encodings, measurement, loading and the shim's run in one statement, and what the
  kernel then finds by following the pointers in its zero page (`Requests`, `Loader`, `Launch`, `Handover`).

Numbers are unbounded; machine widths are written out where they matter (`Layout.AddU64` wraps as a release build
does, `U64`, `U32` and `Byte` are subset types). Buffers the source patches in place are arrays; the placement map
is an array while it is filled; the guest is a class.

## What the proofs found

- `base + size` of an aperture is an unchecked sum. Accepted apertures lie inside memory if and only if none of the
  apertures asked for wraps (`Params.HolesInsideIffNoWrap`), and validation lets wrapping ones through
  (`Admission.ValidIffClear`). A sweep's cursor does not move past a span that wraps, so a gap left before it is listed a
  second time. Of any map at all, with any number of them, the accept list is right if and only if each region that
  wraps is met by one that starts before it and reaches its start, or memory if that comes first, or itself ends past
  memory (`Wrapping.AcceptListIff`); the E820 map is right if and only if each that starts below memory is met at its
  start (`Wrapping.E820ListIff`). The same conditions decide it for every image (`Build.BuildTdx`, `Build.BuildSnp`), and under
  the first one every result about boots holds. A request that fails it: any buildable one, no aperture of which starts
  below 0x1000, with an aperture added from there to the end of the address space (`Requests.WrappingUnsettles`).
- An empty measured region claims one page and imports none. Whatever can be built can be built with an empty
  initramfs (`Requests.EmptyInitramfsBuilds`), and at the kernel jump every page of RAM is ready if and only if the
  initramfs was not empty (`EndToEnd.BootTdx`, `EndToEnd.BootSnp`).
- The C-bit is admitted from 32 to 63. A loaded image pages its guest if and only if it is one of 39 to 51
  (`Launch.LoadedIsPagedIff`); below 39 the C-bit becomes an address bit of a large page or a whole table, from 52 on
  no entry is encrypted. An image is made for every C-bit; boots are claimed for 39 to 51.
- A command line of a page or more loses its terminator. Whatever can be built can be built with one that long, if
  the kernel's own limit lets it through (`Requests.LongCommandBuilds`); the kernel finds its command line if and only
  if it is shorter than a page (`Image.CommandLineIffFits`).
- The check that the kernel's alignment is a power of two refuses nothing: the next one, that it divides 16 MiB, already
  implies it (`Kernel.AlignmentIff`).
- The check that the setup area fits its reservation never fails: a header that parses names at most 128 KiB
  (`Kernel.ParseBzImage`). Nor does the page check before the SNP digest, whatever the apertures (`Build.BuildSnp`).
- APIC ids are cast to a byte, so they are distinct if and only if there are at most 256 processors
  (`AcpiTables.IdsDistinctIffFew`).
- A parked processor can leave on a command meant for another one, to that one's vector, before its own command is
  given (`MailboxSafety.DeparturesCanExceedCommands`). It takes a poll that straddles two commands; without one, departures
  are the commands exactly (`MailboxOrder.QuietDeparturesAreCommands`).

## Model

| member | source | states |
|---|---|---|
| `Placement.Spans` | src/boot.rs:233-240 | one span per region, in tuple order |
| `Placement.SortedUnique` | src/boot.rs:233-240 | what is sorted is determined by what it holds, so listing order cannot matter |
| `Placement.Validate` | src/boot.rs:243-261 | succeeds exactly when sorted neighbours do not overlap and every base is aligned and inside memory or the reset page; the error is the first offence, overlaps before bases |
| `Sweeps.E820` | src/boot.rs:264-288 | of any map: the output is the sweep over its sorted spans, at most 2n+1 entries, all inside memory; it is canonical and gives each address below memory the kind of the first covering span in sorted order, else RAM, with ABSENT left out, exactly if each region that wraps, if any, and starts below memory is met at its start by one that starts before it |
| `Sweeps.AcceptRanges` | src/boot.rs:291-303 | of any map: at most n+1 ranges that cover exactly the unclaimed bytes below memory; ascending and separated exactly if each region that wraps, if any, is met by one that starts before it and reaches its start, or memory, or itself ends past memory |
| `Wrapping.AcceptListIff` | src/boot.rs:291-303 | that condition, of a listing in any order, with any number of wrapping regions |
| `Wrapping.E820ListIff` | src/boot.rs:264-288 | and the one for the E820 sweep, which stops at memory |
| `Trimming.TrimMeans` | src/boot.rs:264-303 | a map with right views has the same ones without its wrapping regions, which claim nothing |
| `Placement.FillRegion` | src/boot.rs:220-231 | replaces the contents of the first region at a base, in place, and fails exactly when there is none or its span changes |
| `MapTheorems.CanonicalUnique` | src/boot.rs:264-288 | a canonical E820 list is the only one with its meaning |
| `MapTheorems.E820OrderIndependent` | src/boot.rs:233-288 | two listings of the same spans, in any order and overlapping or not, have one E820 map |
| `MapTheorems.AcceptOrderIndependent` | src/boot.rs:233-303 | and one accept list |
| `MapTheorems.AdjacentCheckIsPairwise` | src/boot.rs:242-248 | for every listing, wrapped ends included: checking sorted neighbours decides whether any two spans take turns, the one starting first ending by the start of the other; where no end wraps, whether any two overlap |
| `Pages.PagesOfData` | src/boot.rs:209-217 | as many pages as the contents round up to |
| `Partition.PageOfDataAt` | src/boot.rs:209-217 | page i is the i-th 4 KiB of the contents, zero-padded, at base + 4096 i |
| `Partition.ImportedIff` | src/image.rs:256-271 | a page is imported exactly when a measured non-empty or firmware-filled region covers it |
| `Partition.LaunchAscending` | src/image.rs:214-216 | sorting a map by base and expanding it gives pages in ascending order, at least a page apart, wherever its own regions lie apart, whatever its apertures do |
| `Partition.PartitionIffNoEmptyRegion` | src/boot.rs:193-217 | every page below memory is imported, accepted whole, or MMIO, exactly one of the three, if and only if no measured region there is empty |
| `Partition.AbsentIffMmio` | src/boot.rs:263-288 | E820 types each page uniformly, and leaves one out exactly when it is MMIO |
| `Partition.RamIsBacked` | src/boot.rs:263-303 | every page E820 lists was imported or will be accepted |
| `Pages.TdxLaunchPages` | src/image.rs:256-271 | the pages of every region in order, refused exactly when a firmware-filled region is among them |
| `Pages.SnpLaunchPages` | src/snp.rs:168-180 | the same list with the CPUID and secrets pages in it |
| `RequiredMemory.Coalesce` | src/snp.rs:196-202 | the maximal runs of listed addresses, whatever their types |
| `RequiredMemory.Directives` | src/snp.rs:195-216 | ascending, disjoint, non-empty chunks whose 32-bit sizes lose nothing, covering exactly what E820 lists and cut short only where a run ends; the splitting loop terminates |
| `RequiredMemory.RequiredIsMemoryLessMmio` | src/snp.rs:194-216 | the loader is asked for exactly the bytes below memory outside the apertures |
| `RequiredMemory.RequiredAligned` | src/snp.rs:195-216 | every chunk is whole pages |
| `Conservation.E820IsMemoryLessMmio` | src/boot.rs:263-288 | the E820 sizes add up to memory less the aperture bytes |
| `Conservation.E820IsImportedPlusAccepted` | src/boot.rs:263-303 | and to the accepted bytes plus 4096 for each page imported below memory |
| `Conservation.MemoryLessHoles` | src/layout.rs:195-206 | memory less the apertures is the RAM asked for, plus one page on a split TDX guest, less the extra apertures |
| `Params.NewOkIff` | src/layout.rs:167-222 | parameters are accepted exactly when RAM, processor count, C-bit, the trimmed command line (ASCII, no zero byte) and every aperture pass their checks, an aperture's end being computed modulo 2^64 |
| `Params.RefusedFor` | src/layout.rs:167-222 | and otherwise refused for the first of them that fails, the apertures last and one after another |
| `Params.NewFacts` | src/layout.rs:167-222 | accepted parameters: memory is whole pages past the initramfs base and inside the identity map, every aperture passed its checks, and the command line is the normalised one |
| `Params.HolesInsideIffNoWrap` | src/layout.rs:207-214 | accepted apertures lie inside memory exactly when no requested one wraps |
| `Params.OneMoreHole` | src/layout.rs:207-221 | one more aperture is accepted exactly when it passes its own checks, and changes nothing else |
| `Params.WrappingHolePasses` | src/layout.rs:207-214 | on either platform and beside any others, an aperture over all memory but its first page, whose end wraps to zero, changes no verdict |
| `CommandLine.NormaliseHonours` | src/layout.rs:187-191 | what was asked for, less the white space around it, begins the command line; its words are those asked for, and `no5lvl` after them exactly if it was not one of them; a blank request gives the words `panic=-1` and `no5lvl` |
| `CommandLine.NormalisedKeepsFourLevels` | src/layout.rs:187-191 | so whatever was asked for, `no5lvl` is a word of the command line |
| `CommandLine.NormaliseIsIdempotent` | src/layout.rs:187-191 | and normalising again changes nothing |
| `CommandLine.AcceptedIff` | src/layout.rs:187-194 | a command line is refused only for a zero or non-ASCII byte of its own |
| `Kernel.ParseBzImage` | src/boot.rs:59-99 | a kernel that parses has its entry point inside its payload and a setup area that holds the copied header and fits its reservation |
| `Kernel.ParseOkIff` | src/boot.rs:59-99 | a kernel is accepted exactly when its header has, field by field, what the boot protocol asks of one that can run at 16 MiB, and its payload reaches past the entry point; no setup sectors means four, and the two sizes are those fields |
| `Kernel.HeaderFaultIff` | src/boot.rs:63-83 | a header that is refused is refused for the first thing it lacks |
| `Kernel.AlignmentIff` | src/boot.rs:77-80 | an alignment passes exactly when it divides the load address, so the power-of-two check refuses nothing more |
| `Kernel.ZeroPageStillParses` | src/boot.rs:101-136 | the header in the finished zero page passes the same checks and gives the same sizes as the file's: what the builder writes over the copy changes none of them |
| `Image.PrepareOkIff` | src/image.rs:79-126 | files are accepted exactly when the kernel parses and kernel, its working space and initramfs each end by what comes next, and the command line is within the kernel's limit, its length taken modulo 2^32 |
| `Image.RefusedFor` | src/image.rs:79-126 | files that are refused are refused for the first part that does not fit, and never for their setup area |
| `Regions.PrepareSizes` | src/image.rs:79-126 | what is handed on has the sizes its regions reserve |
| `Image.CommandLineIffFits` | src/image.rs:115-117 | the page carries the command line with its terminator exactly when it is shorter than a page |
| `ShimBlock.Shim` | src/image.rs:129-148 | the blob with the block spliced in; refused exactly past 61 ranges, with the bytes they would need, or where code lies under the block |
| `ShimBlock.ShimRoundTrip` | src/image.rs:128-148 | the walk over the finished page recovers the entry point and exactly the ranges, in order, and stops inside the block; every other byte is the blob's |
| `ZeroPage.Build` | src/boot.rs:101-136 | the zero page, refused exactly past 128 entries; decoding its table returns the E820 list |
| `ZeroPage.ZeroPageFields` | src/boot.rs:116-123 | each 32-bit field the loader owns reads back, whatever the copied header held |
| `ZeroPage.ZeroPageAddresses` | src/boot.rs:119-126 | so do the two 64-bit addresses |
| `ZeroPage.ZeroPageKeeps` | src/boot.rs:101-136 | every byte of the page but those fields and the table is the kernel's inside the header and zero outside it |
| `ZeroPage.ZeroPageFlags` | src/boot.rs:117-118 | the loader type is 0xff, bit 7 of the flags is set and the other seven are the kernel's |
| `Image.Assemble` | src/image.rs:204-216 | from listing to final sorted map: fails on the map exactly when validation does, never on capacity for at most 60 regions; the final map claims what the listing did, and both pages decode to the sweeps over it |
| `Image.TrimmedDescribes` | src/image.rs:204-216 | where wrapping apertures do no harm, those are the E820 map and accept list of the map that contains the pages |
| `Image.FillKeepsMap` | src/boot.rs:219-231 | filling a region with as many pages leaves every view of the map standing |
| `Admission.ValidIffClear` | src/boot.rs:243-261 | for any checked apertures, wrapping ones included: a listing passes validation exactly when each aperture takes its turn with the build's regions and the other apertures, and starts where a region may |
| `Admission.ViewsIffSettled` | src/boot.rs:264-303 | for a build's own listing: both views are right exactly under those conditions on its regions and apertures |
| `Admission.WrappingHoleIsAdmitted` | src/boot.rs:243-261 | an aperture over all memory but its first page is admitted beside the others exactly where none that starts below 0x1000 reaches past it |
| `Admission.OwnHoleClear` | src/layout.rs:202-206 | the machine's own aperture is in the way only of an initramfs that crosses 2 GiB |
| `Build.BuildTdx` | src/image.rs:187-225 | every TDX image: it holds the kernel, initramfs, setup area, command line, ACPI tables, stack, blank mailbox and the identity map, its pages ascend, its digest is the MRTD of them, and the views in it are its map's exactly where wrapping apertures, if any, do no harm; where its E820 map is, each address is offered under its type: reserved, ACPI or RAM as its region is, and of what is claimed only kernel and initramfs as RAM; refused for its map exactly when an aperture is not admitted; without harm it is self-describing and bytes are conserved, with no page left out exactly when kernel and initramfs are non-empty |
| `Build.BuildSnp` | src/snp.rs:129-216 | the same for SNP, the CC blob being RAM too, with the GHCB and CC blob pages, one CPUID and one secrets page and no other for the firmware to fill, the digest of the pages and one VMSA per processor, and RequiredMemory directives that cover what its E820 map lists; the page check before the digest never refuses |
| `Offers.ListingOffers` | src/boot.rs:264-288 | the E820 map of either platform's listing types every address below memory as a table of fixed addresses says: reserved, ACPI, absent in an aperture, else RAM; a claimed address is RAM exactly if it is the kernel's, the initramfs's or on SNP the CC blob's |
| `Requests.PlainBuildableIff` | src/layout.rs:167-222 | without extra apertures a request can be built exactly when its parameters and files are accepted and, on a split machine, the initramfs ends by 2 GiB |
| `Requests.EmptyInitramfsBuilds` | src/image.rs:79-126 | whatever can be built can be built with an empty initramfs |
| `Requests.LongCommandBuilds` | src/image.rs:106-117 | and with a command line of a page or more, within the kernel's own limit |
| `Requests.WrappingBuilds` | src/layout.rs:207-214 | with the wrapping aperture added a request can be built exactly when it could be without it and no aperture that starts below 0x1000 reaches past it |
| `Requests.WrappingUnsettles` | src/boot.rs:291-303 | and if none starts there, what is swept from the listing is not the listing's |
| `Requests.UnwrappedIsSettled` | src/boot.rs:291-303 | requests without wrapping apertures meet the condition |
| `Requests.SampleBuilds` | src/layout.rs:167-222 | a request that can be built: 5000 bytes of kernel, 1 GiB, four processors, on both platforms |
| `IdentityMap.Build` | src/image.rs:347-361 | every word of the two or three tables |
| `IdentityMap.WalkIsIdentity` | src/image.rs:346-354 | for C-bit 39 to 51, or none, the hardware walk takes every address below 512 GiB to itself, through entries all present and writable, with the C-bit set exactly on SNP |
| `IdentityMap.WalkPastLimit` | src/image.rs:355-359 | past it, the alias gigabyte maps to GiB 0 unencrypted and everything else faults |
| `IdentityMap.IdentityIffCBitFits` | src/layout.rs:184-186 | of the C-bits admitted, exactly 39 to 51 give that map |
| `Paging.TablesPage` | src/image.rs:346-361 | those tables, in memory where CR3 points, send every access below 512 GiB to the address it names and the alias to GiB 0, for C-bit 0 or 39 to 51 |
| `Paging.PagedIffCBitFits` | src/layout.rs:184-186 | and for no other C-bit admitted |
| `Paging.StillPaged` | src/reset.S:20-30 | only a write to the tables can change where an access goes |
| `AcpiTables.RsdpSums` | src/acpi.rs:48-49 | both RSDP sums are zero although the second checksum is stored after the first |
| `AcpiTables.TableSums` | src/acpi.rs:111-117 | a finished table sums to zero |
| `AcpiTables.TableReads` | src/acpi.rs:100-117 | its header says what ACPI wants there: signature, its own length, revision, the three ids |
| `AcpiTables.RsdpReads` | src/acpi.rs:38-49 | the RSDP, field by field |
| `AcpiTables.FadtReads` | src/acpi.rs:57-70 | the FADT, field by field: the DSDT's address in both places, the two flags, the minor version, and zeroes everywhere else |
| `AcpiTables.MadtHeadReads` | src/acpi.rs:73-78 | before its structures the MADT names the local APICs' address and the one flag |
| `AcpiTables.MadtRoundTrip` | src/acpi.rs:72-93 | walking the MADT finds one entry per processor in order, then the wakeup record exactly when asked for, naming the mailbox |
| `AcpiTables.IdsDistinctIffFew` | src/acpi.rs:80-85 | the ids found are distinct exactly for at most 256 processors |
| `Acpi.PageHolds` | src/acpi.rs:36-95 | every table is whole in the final page: no later write lands in it |
| `Acpi.Build` | src/acpi.rs:36-95 | the in-place construction produces that page |
| `Acpi.Finish` | src/acpi.rs:114-117 | sealing a table in place |
| `Acpi.InterruptsRoundTrip` | src/acpi.rs:36-95 | an OS that checks every sum and follows every pointer finds the local APICs, all the processors and the mailbox |
| `Acpi.FixedRoundTrip` | src/acpi.rs:57-72 | and the FADT, and by way of it a DSDT of nothing but a header |
| `Acpi.PageConforms` | src/acpi.rs:36-95 | between the tables the page is zero |
| `Guest.Guest.Store` | src/snp_reset.S:117-131 | a store: its bytes go where the page tables in memory send every one of them, if that is private or shared as mapped, and otherwise it is noticed as gone astray |
| `Guest.Guest.Zero` | src/snp_reset.S:217-227 | `rep stosq`, likewise |
| `Guest.Guest.Read64` | src/reset.S:42-46 | a load: what is there, or anything at all where it does not land |
| `Guest.Guest.TdAccept` | src/reset.S:66-80 | accepting an extent: any status; on zero its pages are accepted and blank, and an extent that was not waiting is noticed |
| `Guest.Guest.PValidate` | src/snp_reset.S:196-216 | PVALIDATE of the extent a virtual address maps: any status and carry; on zero its pages are in the state asked for |
| `Guest.Guest.GhcbMsr` | src/snp_reset.S:142-152 | the MSR protocol: any answer; a request answered as granted has its effect |
| `Guest.Guest.Vmgexit` | src/snp_reset.S:132-138 | the host reads the event from the page and may rewrite every shared byte at the exit, and no other |
| `TdxShim.AcceptRange` | src/reset.S:57-87 | terminates; has accepted exactly [lo, upTo), each extent once and waiting; its calls are 2 MiB wherever it fits and 4 KiB there only after a size mismatch; it stops short of hi exactly on a fatal answer at upTo |
| `TdxShim.AcceptNext` | src/reset.S:58-85 | one turn, with the calls it made; a refused one leaves everything as it was |
| `Trace.ReachesThen` | src/reset.S:58-85 | the calls of one stretch and of the next are the calls of both |
| `Trace.HaltsFatal` | src/snp_reset.S:200-220 | a run goes on past every answer but a fatal one, and past none of those |
| `Trace.AnswersDecide` | src/reset.S:42-87 | no conversation both passes every range and is refused in one: the answers alone decide how a run ends |
| `TdxShim.Boot` | src/reset.S:34-55 | the walk over the block: however it ends, only its ranges were accepted and blanked and the page tables still stand; at the jump, all of them, and the target is the entry point packed; it jumps or stops as the answers say |
| `SnpShim.ValidateRange` | src/snp_reset.S:187-235 | terminates; has validated and cleared exactly [lo, upTo) and nothing else; the same calls as on TDX, a double validation counting as fatal; the code it dies with is made of the refused call and its answer |
| `SnpShim.DieCodeDecodes` | src/snp_reset.S:166-181 | the termination request gives back chunk, carry and status |
| `SnpShim.WakeCodeDecodes` | src/snp_reset.S:154-162 | a refused wake's gives back its step |
| `SnpShim.ValidateAll` | src/snp_reset.S:39-50 | the walk over the block: every range passed in order, or stopped within one and reported |
| `SnpShim.Boot` | src/snp_reset.S:31-115 | validation then wake, every access through the page tables in memory and none astray: the kernel is entered only after eight granted steps, with every range and the GHCB page private and validated; a failed wake reports its step |
| `SnpWake.RequestsDecode` | src/snp_reset.S:69-96 | the three MSR requests name the GHCB page and the acts meant |
| `SnpWake.InterruptsDecode` | src/snp_reset.S:76-88 | the two interrupt commands are an INIT and a start-up at page zero, to all processors but the sender |
| `SnpWake.MessageDecodes` | src/snp_reset.S:117-131 | the host decodes exactly the interrupt command written, whatever it had left in the page |
| `SnpWake.SendIpi` | src/snp_reset.S:117-140 | one interrupt through the shared page, touching no other byte |
| `SnpWake.WakeAps` | src/snp_reset.S:60-110 | the eight steps in order, each only after the one before was granted; a refusal stops it and names its step; the alias is used only while the page is shared and registered; the page ends private and validated |
| `Launch.BlockIsWalkable` | src/boot.rs:290-303 | the accept list of a lawful map meets neither the shim, its stack, its page tables nor any imported page, is page-aligned and lies where the tables map |
| `Launch.LoadedIsPagedIff` | src/image.rs:346-361 | a loaded image pages its guest: always on TDX, and on SNP exactly for C-bits 39 to 51 |
| `Launch.MeasuredBytes` | src/image.rs:256-271 | after loading, every byte of every measured region is where the map says |
| `Launch.RunTdx` | src/reset.S:34-87 | a loaded TDX image under any answers: nothing accepted twice, no access astray, no claimed byte touched; at the jump accepted RAM is blank, and every page below memory is accepted except MMIO, which is not, exactly if no measured region there is empty |
| `Launch.RunSnp` | src/snp_reset.S:31-115 | the same on SNP, for C-bits 39 to 51, whatever PVALIDATE and the host answer, the GHCB page being the only claimed one written and ending validated |
| `Loader.LoaderLoads` | src/image.rs:214-221 | pages in ascending order never overwrite one another, so such a loaded guest exists |
| `Handover.KernelFindsAll` | src/boot.rs:101-136 | a kernel that reads boot_params at the offsets Linux gives finds itself, its setup sectors, its own header but for the fields a loader owns, the loader's type and flags, the E820 map entry by entry, the initramfs, its processors and machine through ACPI, and, exactly if it is shorter than a page, the command line, which is the one asked for |
| `EndToEnd.MakeTdx` | src/image.rs:175-225 | a TDX request for up to 49 apertures, wrapping or not, comes to an image exactly when it can be built, and to one made to order: where wrapping apertures do no harm, bootable and told of the RAM asked for less the others |
| `EndToEnd.MakeSnp` | src/snp.rs:110-216 | the same for SNP, up to 46 apertures and for every C-bit admitted |
| `EndToEnd.BootTdx` | src/image.rs:175-225 | from any TDX request whose wrapping apertures, if any, do no harm to the kernel: at its address, with initramfs, header, E820 map, processors and the command line asked for where the zero page's pointers say; each address to the end of the memory asked for typed in that map as it should be, and of what is claimed only kernel and initramfs as RAM; the mailbox still zero, the stack but for its one slot as it was laid out, the page tables in force, and every page of RAM ready exactly if the initramfs is not empty; it gets there unless an answer was fatal |
| `EndToEnd.BootSnp` | src/snp.rs:110-192 | the same on SNP for C-bits 39 to 51, with the CC blob, in RAM, where the setup_data pointer says; a boot that ends early tells the host the chunk, carry and status, or the step of the wake |
| `Attestation.SnpDigestFixesTheGuest` | src/snp.rs:184-194 | two SNP images with one digest, whatever their apertures, are loaded as the same guest byte for byte, with as many processors, one E820 map and one accept list; or here is what breaks the hash |
| `Attestation.MrtdFixesTheGuest` | src/image.rs:225-225 | two TDX images with one MRTD likewise; or their record streams collide |
| `Attestation.TdxImageRightIff` | src/image.rs:187-211 | the accept list in a TDX image is its map's exactly when the request's wrapping apertures do no harm, and then so is its E820 map |
| `Attestation.SnpImageRightIff` | src/snp.rs:129-166 | on SNP too |
| `MailboxSafety.NobodyLeavesUncalled` | src/reset.S:89-104 | over all interleavings of single reads and writes: nobody leaves before the first command or twice; whoever leaves was named, and goes to a stored vector |
| `MailboxSafety.OneVector` | src/reset.S:100-104 | an OS with one trampoline sends everyone who leaves to it |
| `MailboxSafety.DeparturesBounded` | src/reset.S:89-104 | departures outnumber commands by at most the one name not yet commanded |
| `MailboxSafety.DeparturesCanExceedCommands` | src/reset.S:92-104 | a run where they do |
| `MailboxOrder.QuietDeparturesAreCommands` | src/reset.S:92-104 | if no poll straddles a naming, departures are the commands in order, by the processor named and to its vector |
| `MailboxOrder.WholePollsAreExact` | src/reset.S:92-104 | so they are when polls are taken whole |
| `SnpMeasure.LaunchMeasurement` | src/snp.rs:527-538 | the two loops compute the chain over the pages, then the VMSAs: from zeroes, each digest the hash of a PAGE_INFO that reads as one of that page under its type 1, 5, 6 or, for a VMSA at its fixed address, 2 |
| `SnpMeasure.LaunchDigestIff` | src/snp.rs:527-562 | no other digest is such a launch's |
| `SnpMeasure.Extend` | src/snp.rs:550-562 | one PAGE_INFO, filled in place and hashed: byte for byte at the ABI's offsets the previous digest, the hash of the contents or zeroes where the firmware supplies them, 112, the type, zeroes and the address |
| `SnpMeasure.PageInfoUnique` | src/snp.rs:550-562 | only one structure reads so |
| `SnpMeasure.DigestBinds` | src/snp.rs:527-562 | equal digests: the same pages up to SECRETS and CPUID contents and the same VMSAs, or a collision or a preimage of the zero digest in hand |
| `SnpMeasure.DigestIgnoresFirmwarePages` | src/snp.rs:549-554 | those contents are all it leaves open |
| `SnpMeasure.DigestBindsVcpus` | src/snp.rs:184-192 | a digest fixes how many processors were launched |
| `SnpMeasure.ValidatePages` | src/snp.rs:577-584 | passes exactly when neighbours are a page apart, so always on ascending pages; the error is the first page met by the one before it |
| `Mrtd.Calculate` | src/mrtd.rs:9-25 | the nested loops hash the record stream, which decodes to the page list |
| `Mrtd.StreamRoundTrip` | src/mrtd.rs:9-25 | a strict reader of the stream, which wants for each page one MEM.PAGE.ADD record with its address and sixteen MR.EXTEND records, each 256 bytes on and followed by as many, gets the page list back |
| `Mrtd.StreamUnique` | src/mrtd.rs:9-25 | and takes no other stream for it |
| `Mrtd.MrtdBinds` | src/mrtd.rs:9-25 | equal MRTDs: equal page lists, or two streams that collide |
| `Cli.HoleRoundTrip` | src/main.rs:92-95 | parsing a printed aperture returns it, for every pair of 64-bit values |
| `Cli.HoleIsSpelled` | src/image.rs:241-247 | what is printed is the base, padded to eight digits, and the size, in hexadecimal |
| `Cli.HolesRoundTrip` | src/image.rs:241-247 | so the manifest's apertures are the image's |
| `Cli.SuffixedSize` | src/main.rs:74-90 | a decimal count with a K, M or G suffix, in either case and any white space, is that many 2^10, 2^20 or 2^30, or refused exactly when 64 bits cannot hold it |
| `Cli.SuffixedHex` | src/main.rs:74-90 | so is a hexadecimal one |
| `Cli.PlainSize` | src/main.rs:74-90 | without a suffix a count is itself |
| `Cli.DigitsOverflow` | src/main.rs:83-88 | and one past 64 bits is refused as such |

## Left out

- `EndToEnd.BootTdx`: describes no run of an image whose accept list is not its map's, which is one made with apertures
  that wrap and fail the condition of `Wrapping.AcceptListIff`.
- `EndToEnd.BootSnp`: the same, and a C-bit of 39 to 51; what the other C-bits admitted do to the page tables is
  `Launch.LoadedIsPagedIff`, and no run under them is described.
- `TdxShim.Boot`: instructions are not modelled one by one. A `call` stores a return address of unknown value in the
  stack slot below the stack top and the model shows it is still there at the `ret`; mode switches, descriptor loads,
  instruction fetches and the fatal loop are not modelled.
- `SnpWake.WakeAps`: its calls of `send_ipi` and `ghcb_msr` use the same stack slot, which the memory clauses exclude
  for the whole run.
- `Guest.Guest.PValidate`: reads the status and carry as the AMD64 APM, volume 2, section 15.36 gives them; an RMP
  attacked from outside these instructions is not modelled.
- `Guest.Guest.GhcbMsr`: a host that answers a page-state request as granted without having acted on it is not described.
- `Guest.Guest.Vmgexit`: nor is one that rewrites the shared page between exits.
- `Paging.PagedIffCBitFits`: the C-bit position the processor itself uses is taken to be the one asked for.
- `Paging.TablesPage`: the walk is for canonical low addresses through 1-GiB pages; the TLB, the access bits and reserved
  bits past the physical address width are not modelled.
- `MailboxSafety.NobodyLeavesUncalled`: the memory is sequentially consistent; the processor's store buffers are not
  modelled, and the OS follows its half of the protocol.
- `SnpMeasure.DigestBinds`: `H` is any function to 48 bytes; SHA-384 itself is not modelled.
- `Image.PrepareOkIff`: file sizes are below 2^64.
- `Cli.HoleRoundTrip`: the standard library's trimming, splitting and digit parsing are modelled from their
  documentation, as they are for `CommandLine.AcceptedIff`.
- The names regions carry, which only the manifest shows, decide nothing and have no property here.
- The contents of the GDT, the VMSAs and the CC blob are parameters of the right size; they are fixed values.
- Serialising the IGVM file and reading it back, signing the ID block, the manifest, and hashing of components belong
  to code outside the repository or settle nothing by proof.
- The limit on shim-owned bytes is left out of the builds: it sums regions of fixed size, far below it.
- The park stub of SNP processors and the TDX fatal-error report are not modelled.
- Which shim code is assembled is a parameter: one page, whose data area may or may not be clear.
