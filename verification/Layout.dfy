/** Sizes, register addresses, status codes and the memory of one device.
    Every access of the driver ends in one 32-bit word of one of the two bars. */
module Layout {

  function Min(x: int, y: int): int { if x < y then x else y }

  const WORD_LIMIT: nat := 0x1_0000_0000

  /** u32 */
  type Word = x: int | 0 <= x < WORD_LIMIT

  const N_REGISTERS: nat := 32
  const DMA_SIZE: nat := 4096
  const DMA_WORDS: nat := 1024

  const VERSION_MAJ: Word := 0
  const VERSION_MIN: Word := 10
  const DMMY_AS_ASCII: Word := 0x444D4D59

  // Registers as word indices into bar 0 (byte offset / 4).
  const FIRMWARE: nat := 0x00 / 4
  const COMPILATION: nat := 0x04 / 4
  const STATUS: nat := 0x08 / 4
  const USER: nat := 0x0C / 4
  const CLK_CNT_0: nat := 0x10 / 4
  const CLK_CNT_1: nat := 0x14 / 4
  const CLK_MUX_0: nat := 0x20 / 4
  const CLK_MUX_1: nat := 0x24 / 4
  const CLK_MUX_2: nat := 0x28 / 4
  const CLK_MUX_3: nat := 0x2C / 4
  const DUMMY: nat := 0x3C / 4
  const CLK_RST: nat := 0x40 / 4
  const ADC_ENA: nat := 0x44 / 4
  const BROKEN_REGISTER: nat := 0x48 / 4
  const BROKEN_WRITE: nat := 0x4C / 4
  const SPI_WRITE: nat := 0x50 / 4
  const SPI_READ: nat := 0x54 / 4
  const SPI_SYNC: nat := 0x58 / 4

  const SYNC_OK: Word := 0
  const SYNC_REQUESTED: Word := 0xFF
  const SYNC_ERROR: Word := 0xAA

  const N_SAMPLES: nat := 25

  // Negative return values of the kernel.
  const EIO: int := -5
  const EAGAIN: int := -11
  const EFAULT: int := -14
  const EINVAL: int := -22
  const ERESTARTSYS: int := -512

  datatype Memory = Memory(sys: seq<Word>, dma: seq<Word>)

  /** The contents of the two bars of one device. */
  type Bars = m: Memory | |m.sys| == N_REGISTERS && |m.dma| == DMA_WORDS
    witness Memory(seq(N_REGISTERS, _ => 0), seq(DMA_WORDS, _ => 0))

  /** The two implemented bars; the driver numbers them 0 and 2. */
  datatype Bar = SystemBar | DmaBar {
    function Number(): nat { if SystemBar? then 0 else 2 }
    function Words(): nat { if SystemBar? then N_REGISTERS else DMA_WORDS }
  }

  datatype Address = Addr(bar: Bar, word: nat)

  /** One existing 32-bit word. */
  type Cell = a: Address | a.word < a.bar.Words() witness Addr(SystemBar, 0)

  function Content(b: Bars, bar: Bar): (s: seq<Word>)
    ensures |s| == bar.Words()
  {
    if bar.SystemBar? then b.sys else b.dma
  }

  function Load(b: Bars, a: Cell): Word { Content(b, a.bar)[a.word] }

  function Store(b: Bars, a: Cell, v: Word): Bars {
    if a.bar.SystemBar? then b.(sys := b.sys[a.word := v]) else b.(dma := b.dma[a.word := v])
  }

  /** One acquisition of controlMutex: it is interrupted, or one flag of controlData is seen under it. */
  datatype Control = Interrupted | Sampled(flag: bool)
}
