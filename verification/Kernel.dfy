/** The kernel file: what its setup header must say, and what of it a running kernel finds again. */
module Kernel {
  import opened Wrappers
  import opened Layout
  import opened Bytes
  import opened Placement
  import opened ZeroPage
  import opened IdentityMap

  const HDR_SETUP_SECTS := 0x1f1
  const HDR_BOOT_FLAG := 0x1fe
  const HDR_SIGNATURE := 0x202
  const HDR_VERSION := 0x206
  const HDR_KERNEL_ALIGNMENT := 0x230
  const HDR_RELOCATABLE := 0x234
  const HDR_XLOADFLAGS := 0x236
  const HDR_CMDLINE_SIZE := 0x238
  const HDR_PREF_ADDRESS := 0x258
  const SETUP_HEADER_MIN := 0x268
  const ENTRY_64_OFFSET := 0x200
  const BOOT_FLAG: Bytes := [0x55, 0xaa]
  const SIGNATURE: Bytes := [0x48, 0x64, 0x72, 0x53]
  const BOOT_PROTOCOL_2_12 := 0x020c

  datatype KernelInfo = KernelInfo(setupBytes: nat, initSize: U32, cmdlineMax: U32)

  datatype KernelError =
    | TooShort | NotLinux | OldProtocol | NotLoadedHigh | Not64Bit | BadAlignment | FixedElsewhere | NoPayload

  predicate IsPowerOfTwo(n: nat) {
    n == 1 || (n > 0 && n % 2 == 0 && IsPowerOfTwo(n / 2))
  }

  function Field32(s: Bytes, at: nat): (r: U32)
    requires Fits(s, at, 4)
    ensures r == Get32(s, at)
  {
    Pow256Values();
    FromLeBound(s[at..at + 4]);
    Get32(s, at)
  }

  /** What is wrong with a setup header, if anything. */
  function HeaderFault(image: Bytes): Option<KernelError>
    requires |image| >= SETUP_HEADER_MIN
  {
    var alignment := Get32(image, HDR_KERNEL_ALIGNMENT);
    if image[HDR_BOOT_FLAG..HDR_BOOT_FLAG + 2] != BOOT_FLAG
       || image[HDR_SIGNATURE..HDR_SIGNATURE + 4] != SIGNATURE then Some(NotLinux)
    else if FromLe(image[HDR_VERSION..HDR_VERSION + 2]) < BOOT_PROTOCOL_2_12 then Some(OldProtocol)
    else if image[HDR_LOADFLAGS] % 2 == 0 then Some(NotLoadedHigh)
    else if image[HDR_XLOADFLAGS] % 2 == 0 then Some(Not64Bit)
    else if alignment == 0 || !IsPowerOfTwo(alignment) || KERNEL_BASE % alignment != 0 then Some(BadAlignment)
    else if image[HDR_RELOCATABLE] == 0 && Get64(image, HDR_PREF_ADDRESS) != KERNEL_BASE then Some(FixedElsewhere)
    else None
  }

  function SetupBytes(image: Bytes): (r: nat)
    requires |image| >= SETUP_HEADER_MIN
    ensures 2 * 512 <= r <= 256 * 512
  {
    var sectors: nat := if image[HDR_SETUP_SECTS] == 0 then 4 else image[HDR_SETUP_SECTS];
    (sectors + 1) * 512
  }

  function ParseBzImage(image: Bytes): (r: Result<KernelInfo, KernelError>)
    ensures r.Ok? ==> SETUP_HEADER_END <= r.value.setupBytes <= KERNEL_SETUP_AREA_SIZE
    ensures r.Ok? ==> r.value.setupBytes + ENTRY_64_OFFSET < |image|
  {
    if |image| < SETUP_HEADER_MIN then Err(TooShort)
    else
      match HeaderFault(image)
      case Some(e) => Err(e)
      case None =>
        if SetupBytes(image) + ENTRY_64_OFFSET >= |image| then Err(NoPayload)
        else Ok(KernelInfo(SetupBytes(image), Field32(image, HDR_INIT_SIZE), Field32(image, HDR_CMDLINE_SIZE)))
  }

  // ---------- what a kernel file must be ----------

  /** A divisor of a power of two is one too, so the check for that never refuses an alignment the next one passes. */
  lemma {:induction false} DivisorIsPower(d: nat, n: nat)
    requires d > 0 && Pow2(n) % d == 0
    ensures IsPowerOfTwo(d)
    decreases n
  {
    if d > 1 {
      var q := Pow2(n) / d;
      assert n > 0;
      assert q * d == 2 * Pow2(n - 1);
      if d % 2 == 0 {
        Halves(q, d, Pow2(n - 1));
        Quotient(Pow2(n - 1), d / 2, q, 0);
        DivisorIsPower(d / 2, n - 1);
      } else {
        OddFactor(q, d, Pow2(n - 1));
        Quotient(Pow2(n - 1), d, q / 2, 0);
        DivisorIsPower(d, n - 1);
      }
    }
  }

  lemma {:induction false} Halves(q: nat, d: nat, m: nat)
    requires q * d == 2 * m && d % 2 == 0
    ensures q * (d / 2) == m
  {
    var h := d / 2;
    assert d == h + h && q * (h + h) == q * h + q * h;
  }

  lemma {:induction false} OddFactor(q: nat, d: nat, m: nat)
    requires q * d == 2 * m && d % 2 == 1
    ensures q % 2 == 0 && q / 2 * d == m
  {
    var h := d / 2;
    assert d == 2 * h + 1 && q * (2 * h + 1) == 2 * (q * h) + q;
    assert q % 2 == 0;
    assert q == 2 * (q / 2) && 2 * (q / 2) * d == 2 * (q / 2 * d);
  }

  lemma {:induction false} BaseIsPower()
    ensures Pow2(24) == 0x100_0000
  {
    Pow2At8();
    Pow2Add(8, 8);
    Pow2Add(8, 16);
  }

  /** An alignment is satisfied exactly when it divides the load address. */
  lemma {:induction false} AlignmentIff(alignment: nat)
    ensures alignment != 0 && IsPowerOfTwo(alignment) && KERNEL_BASE % alignment == 0 <==>
            alignment != 0 && 0x100_0000 % alignment == 0
  {
    BaseIsPower();
    if alignment != 0 && 0x100_0000 % alignment == 0 {
      DivisorIsPower(alignment, 24);
    }
  }

  lemma {:induction false} TwoBytes(s: Bytes)
    requires |s| == 2
    ensures FromLe(s) == s[0] as int + 256 * s[1] as int
  {
    assert s[1..][1..] == [] && FromLe([]) == 0;
    assert FromLe(s[1..]) == s[1] as int;
  }

  /** Setup sectors, of which none means four, and the boot sector before them. */
  ghost predicate HasSetup(image: Bytes, setupBytes: nat)
    requires |image| >= 0x268
  {
    setupBytes == 512 * (1 + (if image[0x1f1] == 0 then 4 else image[0x1f1] as int))
  }

  /** What the Linux boot protocol asks of a header, one thing after another, for a kernel that can run at 16 MiB. */
  ghost predicate HeaderHas(image: Bytes, n: nat)
    requires |image| >= 0x268
  {
    match n
    case 0 => image[0x1fe] == 0x55 && image[0x1ff] == 0xaa && image[0x202..0x206] == Ascii("HdrS")
    case 1 => image[0x206] as int + 256 * image[0x207] as int >= 0x20c
    case 2 => image[0x211] % 2 == 1
    case 3 => image[0x236] % 2 == 1
    case 4 => Get32(image, 0x230) != 0 && 0x100_0000 % Get32(image, 0x230) == 0
    case 5 => image[0x234] != 0 || Get64(image, 0x258) == 0x100_0000
    case _ => true
  }

  ghost predicate IsBootable(image: Bytes)
    requires |image| >= 0x268
  {
    forall n :: 0 <= n < 6 ==> HeaderHas(image, n)
  }

  /** What a header is refused for, in the order of what it is asked. */
  const FAULTS: seq<KernelError> := [NotLinux, OldProtocol, NotLoadedHigh, Not64Bit, BadAlignment, FixedElsewhere]

  /** The first thing missing, if any. */
  ghost predicate Lacks(image: Bytes, n: nat)
    requires |image| >= 0x268
  {
    !HeaderHas(image, n) && forall m: nat :: m < n ==> HeaderHas(image, m)
  }

  lemma {:induction false} HeaderFaultIs(image: Bytes)
    requires |image| >= 0x268
    ensures HeaderFault(image) ==
            if !HeaderHas(image, 0) then Some(FAULTS[0])
            else if !HeaderHas(image, 1) then Some(FAULTS[1])
            else if !HeaderHas(image, 2) then Some(FAULTS[2])
            else if !HeaderHas(image, 3) then Some(FAULTS[3])
            else if !HeaderHas(image, 4) then Some(FAULTS[4])
            else if !HeaderHas(image, 5) then Some(FAULTS[5])
            else None
  {
    AlignmentIff(Get32(image, 0x230));
    TwoBytes(image[0x206..0x208]);
    var flag := image[0x1fe..0x200];
    assert flag == [image[0x1fe], image[0x1ff]];
    assert Ascii("HdrS") == SIGNATURE;
  }

  /** A header passes exactly when it has all of that, and is otherwise refused for the first thing it lacks. */
  lemma {:induction false} HeaderFaultIff(image: Bytes)
    requires |image| >= 0x268
    ensures HeaderFault(image) == None <==> IsBootable(image)
    ensures forall n: nat :: n < 6 ==> (HeaderFault(image) == Some(FAULTS[n]) <==> Lacks(image, n))
  {
    HeaderFaultIs(image);
    forall n: nat | n < 6
      ensures HeaderFault(image) == Some(FAULTS[n]) <==> Lacks(image, n)
    {
      assert n == 0 || n == 1 || n == 2 || n == 3 || n == 4 || n == 5;
    }
  }

  /** A kernel is accepted exactly when its header is bootable and its entry point inside its payload. */
  lemma {:induction false} ParseOkIff(image: Bytes, setupBytes: nat)
    requires |image| >= 0x268 ==> HasSetup(image, setupBytes)
    ensures ParseBzImage(image).Ok? <==> |image| >= 0x268 && IsBootable(image) && setupBytes + 0x200 < |image|
    ensures ParseBzImage(image) == Err(TooShort) <==> |image| < 0x268
    ensures ParseBzImage(image) == Err(NoPayload) <==>
            |image| >= 0x268 && IsBootable(image) && setupBytes + 0x200 >= |image|
    ensures ParseBzImage(image).Ok? ==>
              && var info := ParseBzImage(image).value;
              && info.setupBytes == setupBytes && info.initSize == Get32(image, 0x260)
              && info.cmdlineMax == Get32(image, 0x238)
  {
    if |image| >= 0x268 {
      HeaderFaultIff(image);
    }
  }

  // ---------- what of it is found again ----------

  lemma {:induction false} FieldKept(page: Bytes, file: Bytes, at: nat, len: nat)
    requires Fits(page, at, len) && Fits(file, at, len)
    requires forall k :: at <= k < at + len ==> page[k] == file[k]
    ensures page[at..at + len] == file[at..at + len]
  {
  }

  /** OR-ing the heap flag in keeps the bit that says where the kernel loads. */
  lemma {:induction false} HeapKeepsParity(flags: Byte)
    ensures OrHeap(flags) % 2 == flags % 2
  {
    OrHeapIs(flags);
  }

  /**
   * The zero page a kernel is handed still carries a header that kernel would be accepted with: what the builder
   * writes over the copy of it changes none of the checks, nor the sizes they are followed by.
   */
  lemma {:induction false} ZeroPageStillParses(page: Bytes, setup: Bytes, file: Bytes, initramfsLen: nat, rsdp: U64,
                                               e820: seq<Entry>, setupData: U64)
    requires ParseBzImage(file).Ok?
    requires |setup| >= SETUP_HEADER_END && setup[..SETUP_HEADER_END] == file[..SETUP_HEADER_END]
    requires IsZeroPage(page, setup, ParseBzImage(file).value.initSize, initramfsLen, rsdp, e820, setupData)
    ensures |page| == PAGE && HeaderFault(page) == None
    ensures var info := ParseBzImage(file).value;
            && SetupBytes(page) == info.setupBytes && Get32(page, HDR_INIT_SIZE) == info.initSize
            && Get32(page, HDR_CMDLINE_SIZE) == info.cmdlineMax
  {
    var info := ParseBzImage(file).value;
    ZeroPageAddresses(page, setup, info.initSize, initramfsLen, rsdp, e820, setupData);
    ZeroPageFlags(page, setup, info.initSize, initramfsLen, rsdp, e820, setupData);
    HeapKeepsParity(setup[HDR_LOADFLAGS]);
    forall k | SETUP_HEADER <= k < SETUP_HEADER_END && !Written(k, |e820|)
      ensures page[k] == file[k]
    {
      ZeroPageKeeps(page, setup, info.initSize, initramfsLen, rsdp, e820, setupData, k);
      assert setup[k] == setup[..SETUP_HEADER_END][k] == file[..SETUP_HEADER_END][k];
    }
    assert setup[HDR_LOADFLAGS] == setup[..SETUP_HEADER_END][HDR_LOADFLAGS] == file[..SETUP_HEADER_END][HDR_LOADFLAGS];
    HeaderKept(page, file, |e820|);
  }

  lemma {:induction false} HeaderKept(page: Bytes, file: Bytes, entries: nat)
    requires |page| == PAGE && |file| >= SETUP_HEADER_END
    requires forall k :: SETUP_HEADER <= k < SETUP_HEADER_END && !Written(k, entries) ==> page[k] == file[k]
    requires page[HDR_LOADFLAGS] % 2 == file[HDR_LOADFLAGS] % 2
    ensures HeaderFault(page) == HeaderFault(file) && SetupBytes(page) == SetupBytes(file)
    ensures Get32(page, HDR_CMDLINE_SIZE) == Get32(file, HDR_CMDLINE_SIZE)
  {
    FieldKept(page, file, HDR_BOOT_FLAG, 2);
    FieldKept(page, file, HDR_SIGNATURE, 4);
    FieldKept(page, file, HDR_VERSION, 2);
    FieldKept(page, file, HDR_KERNEL_ALIGNMENT, 4);
    FieldKept(page, file, HDR_CMDLINE_SIZE, 4);
    FieldKept(page, file, HDR_PREF_ADDRESS, 8);
  }
}
