/** The register state machine that runs after every stored word. */
module Firmware {
  import opened Layout

  /** Sample k of the parabola. */
  function Sample(k: nat): (r: Word)
    requires k < N_SAMPLES
    ensures r <= 24 * 24
  {
    assert k * k <= 24 * 24;
    k * k
  }

  function Parabola(dma: seq<Word>): (r: seq<Word>)
    requires |dma| == DMA_WORDS
    ensures |r| == DMA_WORDS
  {
    seq(DMA_WORDS, k requires 0 <= k < DMA_WORDS => if k < N_SAMPLES then Sample(k) else dma[k])
  }

  /** What a fresh device holds. */
  function InitialBars(): Bars {
    Memory(seq(N_REGISTERS, _ => 0)
             [FIRMWARE := VERSION_MAJ][COMPILATION := VERSION_MIN][STATUS := 0][USER := 0]
             [DUMMY := DMMY_AS_ASCII][CLK_RST := 1][BROKEN_WRITE := 0x4C],
           seq(DMA_WORDS, _ => 0))
  }

  predicate WriteBreaks(a: Cell) { a.bar.SystemBar? && (a.word == BROKEN_REGISTER || a.word == BROKEN_WRITE) }

  predicate ReadBreaks(a: Cell) { a.bar.SystemBar? && a.word == BROKEN_REGISTER }

  /** The reaction to a word that has just been stored in register w. */
  function React(b: Bars, w: nat, spiFail: bool): Bars
    requires w < N_REGISTERS
  {
    if w == CLK_RST && b.sys[CLK_RST] != 0 then
      b.(sys := b.sys[CLK_CNT_0 := 0][CLK_CNT_1 := 0]
                [CLK_MUX_0 := 0][CLK_MUX_1 := 0][CLK_MUX_2 := 0][CLK_MUX_3 := 0])
    else if w == ADC_ENA && b.sys[ADC_ENA] != 0 then
      Memory(b.sys[CLK_CNT_0 := N_SAMPLES][CLK_RST := 0], Parabola(b.dma))
    else if w == FIRMWARE then b.(sys := b.sys[FIRMWARE := VERSION_MAJ])
    else if w == COMPILATION then b.(sys := b.sys[COMPILATION := VERSION_MIN])
    else if w == DUMMY then b.(sys := b.sys[DUMMY := DMMY_AS_ASCII])
    else if w == SPI_WRITE then
      if b.sys[SPI_SYNC] == SYNC_REQUESTED && !spiFail then
        b.(sys := b.sys[SPI_READ := b.sys[SPI_WRITE]][SPI_SYNC := SYNC_OK])
      else b.(sys := b.sys[SPI_SYNC := SYNC_ERROR])
    else b
  }

  /** Store, then react: the effect of one write whose control lock is not interrupted. */
  function Put(b: Bars, a: Cell, v: Word, spiFail: bool): Bars {
    if a.bar.SystemBar? then React(Store(b, a, v), a.word, spiFail) else Store(b, a, v)
  }

  // The tables of the header and of the driver, in word numbers.

  /** Words 0, 1, 15, 16 and 19 of a fresh device are set, all others are 0. */
  lemma InitialTable(w: nat)
    requires w < 32
    ensures InitialBars().sys[w] ==
            if w == 1 then 10 else if w == 15 then 0x444D_4D59 else if w == 16 then 1 else if w == 19 then 0x4C else 0
    ensures forall k :: 0 <= k < 1024 ==> InitialBars().dma[k] == 0
  {
  }

  /** What word w holds after the reaction to a store in register r. */
  lemma ReactionTable(b: Bars, r: nat, spiFail: bool, w: nat)
    requires r < 32 && w < 32
    ensures var accepted := b.sys[22] == 0xFF && !spiFail;
            React(b, r, spiFail).sys[w] ==
            if r == 16 && b.sys[16] != 0 && (w == 4 || w == 5 || 8 <= w <= 11) then 0
            else if r == 17 && b.sys[17] != 0 && w == 4 then 25
            else if r == 17 && b.sys[17] != 0 && w == 16 then 0
            else if r == 0 && w == 0 then 0
            else if r == 1 && w == 1 then 10
            else if r == 15 && w == 15 then 0x444D_4D59
            else if r == 20 && w == 21 && accepted then b.sys[20]
            else if r == 20 && w == 22 then if accepted then 0 else 0xAA
            else b.sys[w]
  {
  }

  lemma SampleTable(b: Bars, r: nat, spiFail: bool, k: nat)
    requires r < 32 && k < 1024
    ensures React(b, r, spiFail).dma[k] == if r == 17 && b.sys[17] != 0 && k < 25 then k * k else b.dma[k]
  {
    assert k < 25 ==> Parabola(b.dma)[k] == Sample(k);
  }

  /** Registers 18 and 19 break on writing, register 18 on reading. */
  lemma BrokenTable(a: Cell)
    ensures WriteBreaks(a) <==> a == Addr(SystemBar, 18) || a == Addr(SystemBar, 19)
    ensures ReadBreaks(a) <==> a == Addr(SystemBar, 18)
  {
  }

  datatype Step = Step(bars: Bars, status: int)

  /** performActionOnWrite on values: an interrupted lock or a broken register leaves the raw word. */
  function Action(b: Bars, a: Cell, control: Control): Step {
    if a.bar.DmaBar? then Step(b, 0)
    else if control.Interrupted? then Step(b, ERESTARTSYS)
    else if WriteBreaks(a) then Step(b, -1)
    else Step(React(b, a.word, control.flag), 0)
  }

  /** devMutex and controlMutex as the one thread that is executing sees them. */
  class Mutex {
    var held: bool

    constructor ()
      ensures !held
    { held := false; }

    method LockInterruptible(interrupted: bool) returns (status: int)
      requires !held
      modifies this
      ensures status == if interrupted then ERESTARTSYS else 0
      ensures held == !interrupted
    {
      if interrupted { return ERESTARTSYS; }
      held := true;
      status := 0;
    }

    method Unlock()
      requires held
      modifies this
      ensures !held
    { held := false; }
  }

  class Device {
    const slotNr: nat
    const systemBar: array<Word>
    const dmaBar: array<Word>
    const devMutex: Mutex
    var inUse: int

    constructor (slotNr: nat, systemBar: array<Word>, dmaBar: array<Word>)
      ensures this.slotNr == slotNr && this.systemBar == systemBar && this.dmaBar == dmaBar
      ensures fresh(devMutex) && !devMutex.held && inUse == 0
    {
      this.slotNr := slotNr;
      this.systemBar := systemBar;
      this.dmaBar := dmaBar;
      devMutex := new Mutex();
      inUse := 0;
    }

    ghost predicate Valid() {
      systemBar.Length == N_REGISTERS && dmaBar.Length == DMA_WORDS && systemBar != dmaBar
    }

    ghost function Contents(): Bars
      requires Valid()
      reads systemBar, dmaBar
    {
      Memory(systemBar[..], dmaBar[..])
    }
  }

  method InitialiseSystemBar(systemBar: array<Word>)
    requires systemBar.Length == N_REGISTERS
    requires forall k :: 0 <= k < N_REGISTERS ==> systemBar[k] == 0
    modifies systemBar
    ensures systemBar[..] == InitialBars().sys
  {
    systemBar[FIRMWARE] := VERSION_MAJ;
    systemBar[COMPILATION] := VERSION_MIN;
    systemBar[STATUS] := 0;
    systemBar[USER] := 0;
    systemBar[DUMMY] := DMMY_AS_ASCII;
    systemBar[CLK_RST] := 1;
    systemBar[BROKEN_WRITE] := 0x4C;
  }

  /** The sampling loop of an ADC trigger. */
  method TakeSamples(dmaBar: array<Word>)
    requires dmaBar.Length == DMA_WORDS
    modifies dmaBar
    ensures dmaBar[..] == Parabola(old(dmaBar[..]))
  {
    ghost var was := dmaBar[..];
    var sample := 0;
    while sample < N_SAMPLES
      invariant sample <= N_SAMPLES
      invariant forall k :: 0 <= k < sample ==> dmaBar[k] == Sample(k)
      invariant forall k :: sample <= k < DMA_WORDS ==> dmaBar[k] == was[k]
    {
      assert sample * sample == Sample(sample);
      dmaBar[sample] := sample * sample;
      sample := sample + 1;
    }
  }

  method ResetClocks(systemBar: array<Word>)
    requires systemBar.Length == N_REGISTERS
    modifies systemBar
    ensures forall dma :: |dma| == DMA_WORDS ==>
      Memory(systemBar[..], dma) == React(Memory(old(systemBar[..]), dma), CLK_RST, false)
  {
    if systemBar[CLK_RST] != 0 {
      systemBar[CLK_CNT_0] := 0;
      systemBar[CLK_CNT_1] := 0;
      systemBar[CLK_MUX_0] := 0;
      systemBar[CLK_MUX_1] := 0;
      systemBar[CLK_MUX_2] := 0;
      systemBar[CLK_MUX_3] := 0;
    }
  }

  method TriggerAdc(systemBar: array<Word>, dmaBar: array<Word>)
    requires systemBar.Length == N_REGISTERS && dmaBar.Length == DMA_WORDS && systemBar != dmaBar
    modifies systemBar, dmaBar
    ensures Memory(systemBar[..], dmaBar[..]) == React(Memory(old(systemBar[..]), old(dmaBar[..])), ADC_ENA, false)
  {
    if systemBar[ADC_ENA] != 0 {
      TakeSamples(dmaBar);
      systemBar[CLK_CNT_0] := N_SAMPLES;
      systemBar[CLK_RST] := 0;
    }
  }

  method HandshakeSpi(systemBar: array<Word>, spiFail: bool)
    requires systemBar.Length == N_REGISTERS
    modifies systemBar
    ensures forall dma :: |dma| == DMA_WORDS ==>
      Memory(systemBar[..], dma) == React(Memory(old(systemBar[..]), dma), SPI_WRITE, spiFail)
  {
    if systemBar[SPI_SYNC] == SYNC_REQUESTED && !spiFail {
      systemBar[SPI_READ] := systemBar[SPI_WRITE];
      systemBar[SPI_SYNC] := SYNC_OK;
    } else {
      systemBar[SPI_SYNC] := SYNC_ERROR;
    }
  }

  /** Valid devices in slot order that share nothing. */
  ghost predicate Separate(devices: seq<Device>) {
    && (forall i :: 0 <= i < |devices| ==> devices[i].Valid() && devices[i].slotNr == i)
    && (forall i, j :: 0 <= i < j < |devices| ==>
          && devices[i] != devices[j]
          && devices[i].devMutex != devices[j].devMutex
          && {devices[i].systemBar, devices[i].dmaBar} !! {devices[j].systemBar, devices[j].dmaBar})
  }

  /** The global device table and the lock shared by all devices. */
  class Driver {
    const devices: seq<Device>
    const controlMutex: Mutex

    constructor (devices: seq<Device>)
      ensures this.devices == devices && fresh(controlMutex) && !controlMutex.held
    {
      this.devices := devices;
      controlMutex := new Mutex();
    }

    ghost predicate Valid() { Separate(devices) && forall d <- devices :: d.devMutex != controlMutex }

    ghost predicate Idle()
      reads controlMutex, set d <- devices :: d.devMutex
    {
      !controlMutex.held && forall d <- devices :: !d.devMutex.held
    }

    ghost predicate Serves(dev: Device) {
      dev.slotNr < |devices| && devices[dev.slotNr] == dev && dev.Valid() && dev.devMutex != controlMutex
    }

    /** The device is found again through its slot number. */
    method PerformActionOnWrite(offset: Word, barNumber: Word, slotNumber: nat, control: Control) returns (status: int)
      requires slotNumber < |devices| && Serves(devices[slotNumber]) && !controlMutex.held
      modifies devices[slotNumber].systemBar, devices[slotNumber].dmaBar, controlMutex
      ensures !controlMutex.held
      ensures var d := devices[slotNumber];
              if barNumber != 0 then d.Contents() == old(d.Contents()) && status == 0
              else if offset % 4 != 0 || offset >= 4 * N_REGISTERS then
                d.Contents() == old(d.Contents()) && status == if control.Interrupted? then ERESTARTSYS else 0
              else Step(d.Contents(), status) == Action(old(d.Contents()), Addr(SystemBar, offset / 4), control)
    {
      if barNumber != 0 { return 0; }
      status := controlMutex.LockInterruptible(control.Interrupted?);
      if status != 0 { return ERESTARTSYS; }
      var spiFail := control.flag;
      controlMutex.Unlock();

      var systemBar := devices[slotNumber].systemBar;
      var dmaBar := devices[slotNumber].dmaBar;

      if offset == 0x40 {
        ResetClocks(systemBar);
      } else if offset == 0x44 {
        TriggerAdc(systemBar, dmaBar);
      } else if offset == 0x00 {
        systemBar[FIRMWARE] := VERSION_MAJ;
      } else if offset == 0x04 {
        systemBar[COMPILATION] := VERSION_MIN;
      } else if offset == 0x3C {
        systemBar[DUMMY] := DMMY_AS_ASCII;
      } else if offset == 0x48 || offset == 0x4C {
        return -1;
      } else if offset == 0x50 {
        HandshakeSpi(systemBar, spiFail);
      }
      return 0;
    }
  }

  method PerformPreReadAction(offset: Word, barNumber: Word) returns (status: int)
    ensures status == if barNumber == 0 && offset == 4 * BROKEN_REGISTER then -1 else 0
  {
    if barNumber != 0 { return 0; }
    if offset == 0x48 { return -1; }
    return 0;
  }
}
