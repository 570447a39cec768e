/** The fixed guest-physical layout and the parameters one image is built for. */
module Layout {
  import opened Wrappers

  const PAGE := 4096
  const PAGE_2M := 0x20_0000
  const GIB := 0x4000_0000
  const U64_MODULUS := 0x1_0000_0000_0000_0000

  const ZERO_PAGE := 0x7000
  const CMDLINE := 0x2_0000
  const ACPI_BASE := 0xe_0000
  const MAILBOX := 0xf_0000
  const SNP_CPUID := 0xf_0000
  const SNP_SECRETS := 0xf_1000
  const SNP_CC_BLOB := 0xf_2000
  const PAGE_TABLES := 0x10_0000
  const BSP_STACK := 0x10_7000
  const BSP_STACK_SIZE := 0x1_0000
  const BSP_STACK_TOP := BSP_STACK + BSP_STACK_SIZE
  const SNP_GHCB := 0x11_7000
  const SHIM_BASE := 0x12_0000
  const KERNEL_SETUP_BASE := 0x12_1000
  const KERNEL_SETUP_AREA_SIZE := 0x2_f000
  const KERNEL_BASE := 0x100_0000
  const INITRAMFS_BASE := 0x2000_0000
  const RESET_ALIAS := 0xffff_f000
  const SNP_VMSA := 0xffff_ffff_f000
  const SHARED_ALIAS := 0x80_0000_0000

  const SHIM_DATA := 0xc00
  const RESET_VECTOR := PAGE - 16
  const SHIM_DATA_SIZE := RESET_VECTOR - SHIM_DATA

  const MAP_LIMIT := 512 * GIB
  const FOUR_GIB := 4 * GIB
  const Q35_SPLIT := 0xb000_0000
  const Q35_LOWMEM := 2 * GIB
  const MAX_RAM := MAP_LIMIT - FOUR_GIB + Q35_LOWMEM

  const ACPI_MADT := 0x500
  const MADT_HEADER_LEN := 44
  const MADT_LAPIC_LEN := 8
  const MADT_WAKEUP_LEN := 16
  const MAX_VCPUS := (PAGE - ACPI_MADT - MADT_HEADER_LEN - MADT_WAKEUP_LEN) / MADT_LAPIC_LEN

  type Byte = b: int | 0 <= b < 256
  type U32 = n: int | 0 <= n < 0x1_0000_0000
  type U64 = n: int | 0 <= n < U64_MODULUS

  /** `u64` addition as the release build performs it: silently modulo 2^64. */
  function AddU64(a: nat, b: nat): U64 {
    if a + b < U64_MODULUS then a + b else (a + b) % U64_MODULUS
  }

  /** `align_up(value, PAGE)`, the only alignment the builder asks for. */
  function PageUp(value: nat): (r: nat)
    ensures value <= r < value + PAGE
    ensures PageAligned(r)
  {
    (value + PAGE - 1) / PAGE * PAGE
  }

  predicate PageAligned(a: int) { a % PAGE == 0 }

  lemma {:induction false} PageMultiple(q: int)
    ensures PageAligned(q * PAGE)
  {
  }
}
