/** Address-space constants of the device and the two views of its DRAM. */
module Layout {
  const PAGE_SIZE := 4096
  const PAGE_WORDS := 1024

  const RAM_SIZE := 0x0800_0000
  const RAM_PAGES := 0x8000
  const RAM_WORDS := 0x0200_0000

  const PLAINTEXT_DRAM_BASE := 0x2000_0000
  const PLAINTEXT_DRAM_END := 0x2800_0000
  const ENCRYPTED_DRAM_BASE := 0x4000_0000
  const ENCRYPTED_DRAM_END := 0x4800_0000

  const BOOT_SPLASH_PAGES := 0x178
  const BOOT_SPLASH_PHYS_ADDR := 0x27E8_8000
  const BOOT_SPLASH_FB := 0x5000_0000
  const KERNEL_ARGUMENT_OFFSET := 0x5800_0000
  const THREAD_CONTEXT_AREA := 0x7000_0000
  const MAPPED_PHYSICAL_RAM := 0xA000_0000
  const ALLOCATION_TRACKER_OFFSET := 0xFF80_8000
  const ICM_KERNEL_DESC_AREA_ADDR := 0xFFCE_8000
  const ICM_KERNEL_HASH_AREA_ADDR := 0xFFCE_9000
  const KERNEL_LOAD_OFFSET := 0xFFD0_0000
  const PID1_STACK_BOTTOM := 0xFFF8_0000
  const PID1_STACK_PAGE_COUNT := 16
  const PID1_IRQ_HANDLER_STACK_BOTTOM := 0xFFFE_8000
  const PID1_IRQ_HANDLER_STACK_PAGE_COUNT := 4
  const KERNEL_MODE_STACK_BOTTOM := 0xFFFF_0000
  const KERNEL_MODE_STACK_PAGE_COUNT := 8
  const LOADER_CODE_ADDRESS := 0x2000_0800

  const L1_USER_PAGE_TABLE_ENTRIES := 2048

  const ADDRESS_SPACE := 0x1_0000_0000

  /** A 32-bit machine word; a physical or virtual address is one too. */
  type Word = w: int | 0 <= w < 0x1_0000_0000

  /** `ENCRYPTED_DRAM_BASE | addr & (PLAINTEXT_DRAM_BASE - 1)`: the masked address stays
      below the single bit that is set by the `|`. */
  function ToEncrypted(addr: Word): Word {
    ENCRYPTED_DRAM_BASE + addr % PLAINTEXT_DRAM_BASE
  }

  /** `PLAINTEXT_DRAM_BASE | addr & (ENCRYPTED_DRAM_BASE - 1)`. */
  function ToPlaintext(addr: Word): Word {
    var low := addr % ENCRYPTED_DRAM_BASE;
    if low >= PLAINTEXT_DRAM_BASE then low else low + PLAINTEXT_DRAM_BASE
  }

  predicate InPlaintext(addr: Word) {
    PLAINTEXT_DRAM_BASE <= addr < PLAINTEXT_DRAM_END
  }

  predicate InEncrypted(addr: Word) {
    ENCRYPTED_DRAM_BASE <= addr < ENCRYPTED_DRAM_END
  }

  /** The two views are mutually inverse on DRAM and keep the offset into it, and
      nothing outside the plaintext view reaches DRAM through `ToEncrypted`'s guard. */
  lemma ViewsAreInverse(addr: Word)
    ensures InPlaintext(addr) ==>
              && InEncrypted(ToEncrypted(addr))
              && ToEncrypted(addr) - ENCRYPTED_DRAM_BASE == addr - PLAINTEXT_DRAM_BASE
              && ToPlaintext(ToEncrypted(addr)) == addr
    ensures InEncrypted(addr) ==>
              && InPlaintext(ToPlaintext(addr))
              && ToEncrypted(ToPlaintext(addr)) == addr
  {
  }

  lemma ConstantsAgree()
    ensures BOOT_SPLASH_PHYS_ADDR == PLAINTEXT_DRAM_END - BOOT_SPLASH_PAGES * PAGE_SIZE
    ensures RAM_SIZE == RAM_PAGES * PAGE_SIZE == RAM_WORDS * 4
    ensures PLAINTEXT_DRAM_END == PLAINTEXT_DRAM_BASE + RAM_SIZE
    ensures ENCRYPTED_DRAM_END == ENCRYPTED_DRAM_BASE + RAM_SIZE
  {
  }
}
