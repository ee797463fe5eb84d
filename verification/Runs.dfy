/** Runs of single-word writes, the order in which they matter, and what the registers remember of them. */
module Runs {
  import opened Layout
  import opened Firmware

  /** One uninterrupted write; spiFail is the flag the firmware saw under controlMutex. */
  datatype Write = Write(cell: Cell, value: Word, spiFail: bool)

  function Apply(b: Bars, w: Write): Bars { Put(b, w.cell, w.value, w.spiFail) }

  /** The bars after the first n writes. */
  function RunTo(b: Bars, ws: seq<Write>, n: nat): Bars
    requires n <= |ws|
  {
    if n == 0 then b else Apply(RunTo(b, ws, n - 1), ws[n - 1])
  }

  function Run(b: Bars, ws: seq<Write>): Bars { RunTo(b, ws, |ws|) }

  lemma {:induction false} RunPrefix(b: Bars, u: seq<Write>, v: seq<Write>, n: nat)
    requires n <= |u| && n <= |v| && u[..n] == v[..n]
    ensures RunTo(b, u, n) == RunTo(b, v, n)
  {
    if n > 0 {
      assert u[..n][..n - 1] == u[..n - 1] && v[..n][..n - 1] == v[..n - 1];
      assert u[n - 1] == u[..n][n - 1] && v[n - 1] == v[..n][n - 1];
      RunPrefix(b, u, v, n - 1);
    }
  }

  lemma {:induction false} RunConcatTo(b: Bars, u: seq<Write>, v: seq<Write>, n: nat)
    requires n <= |v|
    ensures RunTo(b, u + v, |u| + n) == RunTo(Run(b, u), v, n)
  {
    hide Apply;
    if n == 0 {
      assert (u + v)[..|u|] == u[..|u|];
      RunPrefix(b, u + v, u, |u|);
    } else {
      assert (u + v)[|u| + n - 1] == v[n - 1];
      RunConcatTo(b, u, v, n - 1);
    }
  }

  lemma RunConcat(b: Bars, u: seq<Write>, v: seq<Write>)
    ensures Run(b, u + v) == Run(Run(b, u), v)
  {
    RunConcatTo(b, u, v, |v|);
  }

  lemma RunCons(b: Bars, w: Write, v: seq<Write>)
    ensures Run(b, [w] + v) == Run(Apply(b, w), v)
  {
    RunConcat(b, [w], v);
    assert RunTo(b, [w], 0) == b;
  }

  // ---------------------------------------------------------------------------------------------
  // Read-only words
  // ---------------------------------------------------------------------------------------------

  predicate Identified(b: Bars) {
    b.sys[FIRMWARE] == VERSION_MAJ && b.sys[COMPILATION] == VERSION_MIN && b.sys[DUMMY] == DMMY_AS_ASCII
  }

  lemma {:induction false} ReadOnlyWords(b: Bars, ws: seq<Write>, n: nat)
    requires n <= |ws| && Identified(b)
    ensures Identified(RunTo(b, ws, n))
  {
    if n > 0 { ReadOnlyWords(b, ws, n - 1); }
  }

  // ---------------------------------------------------------------------------------------------
  // SPI: what the handshake registers say about the history
  // ---------------------------------------------------------------------------------------------

  /** Of the first n writes, the last one to SPI_WRITE or SPI_SYNC is a request in SPI_SYNC. */
  predicate Armed(ws: seq<Write>, n: nat)
    requires n <= |ws|
  {
    n > 0 &&
    (if ws[n - 1].cell == Addr(SystemBar, SPI_SYNC) then ws[n - 1].value == SYNC_REQUESTED
     else ws[n - 1].cell != Addr(SystemBar, SPI_WRITE) && Armed(ws, n - 1))
  }

  /** Write k is a transfer that was requested and not made to fail. */
  predicate TransferAccepted(ws: seq<Write>, k: nat)
    requires k < |ws|
  {
    ws[k].cell == Addr(SystemBar, SPI_WRITE) && !ws[k].spiFail && Armed(ws, k)
  }

  /** The value of the latest direct write to SPI_READ or accepted transfer, else 0. */
  function LatestSpiData(ws: seq<Write>, n: nat): Word
    requires n <= |ws|
  {
    if n == 0 then 0
    else if ws[n - 1].cell == Addr(SystemBar, SPI_READ) || TransferAccepted(ws, n - 1) then ws[n - 1].value
    else LatestSpiData(ws, n - 1)
  }

  function AcceptedTransfers(ws: seq<Write>, n: nat): nat
    requires n <= |ws|
  {
    if n == 0 then 0 else AcceptedTransfers(ws, n - 1) + if TransferAccepted(ws, n - 1) then 1 else 0
  }

  function Requests(ws: seq<Write>, n: nat): nat
    requires n <= |ws|
  {
    if n == 0 then 0
    else Requests(ws, n - 1)
         + if ws[n - 1].cell == Addr(SystemBar, SPI_SYNC) && ws[n - 1].value == SYNC_REQUESTED then 1 else 0
  }

  lemma {:induction false} SpiHistory(ws: seq<Write>, n: nat)
    requires n <= |ws|
    ensures var b := RunTo(InitialBars(), ws, n);
            && b.sys[SPI_READ] == LatestSpiData(ws, n)
            && (b.sys[SPI_SYNC] == SYNC_REQUESTED <==> Armed(ws, n))
            && (n > 0 && ws[n - 1].cell == Addr(SystemBar, SPI_WRITE) ==>
                  b.sys[SPI_SYNC] == if TransferAccepted(ws, n - 1) then SYNC_OK else SYNC_ERROR)
  {
    if n > 0 {
      SpiHistory(ws, n - 1);
      SpiStep(RunTo(InitialBars(), ws, n - 1), ws[n - 1]);
      hide Apply;
    }
  }

  /** What one write does to the handshake words. */
  lemma SpiStep(b: Bars, w: Write)
    ensures var taken := b.sys[SPI_SYNC] == SYNC_REQUESTED && !w.spiFail;
            Apply(b, w).sys[SPI_READ]
              == if w.cell == Addr(SystemBar, SPI_READ) || (w.cell == Addr(SystemBar, SPI_WRITE) && taken) then w.value
                 else b.sys[SPI_READ]
    ensures Apply(b, w).sys[SPI_SYNC]
              == if w.cell == Addr(SystemBar, SPI_SYNC) then w.value
                 else if w.cell != Addr(SystemBar, SPI_WRITE) then b.sys[SPI_SYNC]
                 else if b.sys[SPI_SYNC] == SYNC_REQUESTED && !w.spiFail then SYNC_OK else SYNC_ERROR
  {
  }

  /** Every accepted transfer uses up a request of its own. */
  lemma {:induction false} TransfersNeedRequests(ws: seq<Write>, n: nat)
    requires n <= |ws|
    ensures AcceptedTransfers(ws, n) + (if Armed(ws, n) then 1 else 0) <= Requests(ws, n)
  {
    if n > 0 { TransfersNeedRequests(ws, n - 1); }
  }

  // ---------------------------------------------------------------------------------------------
  // Clock and ADC
  // ---------------------------------------------------------------------------------------------

  predicate ClockWord(w: nat) { w == CLK_CNT_0 || w == CLK_CNT_1 || CLK_MUX_0 <= w <= CLK_MUX_3 }

  /** Writes that leave the clock words and bar 2 to the firmware. */
  predicate LeavesClockAlone(w: Write) { w.cell.bar.SystemBar? && !ClockWord(w.cell.word) }

  predicate Triggers(w: Write, register: nat) { w.cell == Addr(SystemBar, register) && w.value != 0 }

  /** The last effective write to CLK_RST or ADC_ENA among the first n started the ADC. */
  predicate SampledSinceReset(ws: seq<Write>, n: nat)
    requires n <= |ws|
  {
    n > 0 && (Triggers(ws[n - 1], ADC_ENA) || (!Triggers(ws[n - 1], CLK_RST) && SampledSinceReset(ws, n - 1)))
  }

  predicate EverSampled(ws: seq<Write>, n: nat)
    requires n <= |ws|
  {
    exists k :: 0 <= k < n && Triggers(ws[k], ADC_ENA)
  }

  /** Every clock word except CLK_CNT_0 is zero. */
  predicate OthersZero(b: Bars) {
    b.sys[CLK_CNT_1] == b.sys[CLK_MUX_0] == b.sys[CLK_MUX_1] == b.sys[CLK_MUX_2] == b.sys[CLK_MUX_3] == 0
  }

  lemma OthersStayZero(b: Bars, w: Write)
    requires LeavesClockAlone(w) && OthersZero(b)
    ensures OthersZero(Apply(b, w))
  {
  }

  /** What one write does to the clock words. */
  lemma ClockStep(b: Bars, w: Write)
    requires LeavesClockAlone(w) && OthersZero(b)
    ensures OthersZero(Apply(b, w))
    ensures Apply(b, w).sys[CLK_CNT_0]
            == if Triggers(w, ADC_ENA) then N_SAMPLES else if Triggers(w, CLK_RST) then 0 else b.sys[CLK_CNT_0]
    ensures Triggers(w, ADC_ENA) ==> Apply(b, w).sys[CLK_RST] == 0
    ensures Apply(b, w).sys[CLK_RST] != 0 ==> Triggers(w, CLK_RST) || b.sys[CLK_RST] != 0
  {
    OthersStayZero(b, w);
    hide OthersZero;
  }

  lemma {:induction false} ClockHistory(ws: seq<Write>, n: nat)
    requires n <= |ws| && forall k :: 0 <= k < n ==> LeavesClockAlone(ws[k])
    ensures var b := RunTo(InitialBars(), ws, n);
            && b.sys[CLK_CNT_0] == (if SampledSinceReset(ws, n) then N_SAMPLES else 0)
            && OthersZero(b)
            && (b.sys[CLK_RST] != 0 ==> !SampledSinceReset(ws, n))
  {
    if n > 0 {
      ClockHistory(ws, n - 1);
      ClockStep(RunTo(InitialBars(), ws, n - 1), ws[n - 1]);
      hide Apply;
    }
  }

  /** CLK_RST: the value last written, 0 if the ADC has run since, 1 if neither ever happened. */
  function LatestReset(ws: seq<Write>, n: nat): Word
    requires n <= |ws|
  {
    if n == 0 then 1
    else if ws[n - 1].cell == Addr(SystemBar, CLK_RST) then ws[n - 1].value
    else if Triggers(ws[n - 1], ADC_ENA) then 0
    else LatestReset(ws, n - 1)
  }

  lemma ResetStep(b: Bars, w: Write)
    ensures Apply(b, w).sys[CLK_RST]
         == if w.cell == Addr(SystemBar, CLK_RST) then w.value
            else if Triggers(w, ADC_ENA) then 0 else b.sys[CLK_RST]
  {
  }

  lemma {:induction false} ResetHistory(ws: seq<Write>, n: nat)
    requires n <= |ws|
    ensures RunTo(InitialBars(), ws, n).sys[CLK_RST] == LatestReset(ws, n)
  {
    if n > 0 {
      ResetHistory(ws, n - 1);
      ResetStep(RunTo(InitialBars(), ws, n - 1), ws[n - 1]);
      hide Apply;
    }
  }

  lemma DmaStep(b: Bars, w: Write)
    requires w.cell.bar.SystemBar?
    ensures Apply(b, w).dma == if Triggers(w, ADC_ENA) then Parabola(b.dma) else b.dma
  {
  }

  lemma {:induction false} DmaHistory(ws: seq<Write>, n: nat)
    requires n <= |ws| && forall k :: 0 <= k < n ==> LeavesClockAlone(ws[k])
    ensures RunTo(InitialBars(), ws, n).dma
            == if EverSampled(ws, n) then Parabola(InitialBars().dma) else InitialBars().dma
  {
    if n > 0 {
      hide Parabola;
      DmaHistory(ws, n - 1);
      DmaStep(RunTo(InitialBars(), ws, n - 1), ws[n - 1]);
      assert EverSampled(ws, n) <==> EverSampled(ws, n - 1) || Triggers(ws[n - 1], ADC_ENA);
      ParabolaTwice(InitialBars().dma);
      hide Apply;
    }
  }

  lemma ParabolaTwice(dma: seq<Word>)
    requires |dma| == DMA_WORDS
    ensures Parabola(Parabola(dma)) == Parabola(dma)
  {
    assert forall k :: 0 <= k < DMA_WORDS ==> Parabola(Parabola(dma))[k] == Parabola(dma)[k];
  }

  lemma {:induction false} SampledOnce(ws: seq<Write>, n: nat)
    requires n <= |ws|
    ensures SampledSinceReset(ws, n) ==> EverSampled(ws, n)
  {
    if n > 0 { SampledOnce(ws, n - 1); }
  }

  /** What a user of the clock registers relies on: after a reset everything is 0, and a full counter means that
      the samples are there and nothing else is. */
  predicate ClockInOrder(b: Bars) {
    && (b.sys[CLK_RST] != 0 ==> OthersZero(b) && b.sys[CLK_CNT_0] == 0)
    && (b.sys[CLK_CNT_0] == 0 || b.sys[CLK_CNT_0] == N_SAMPLES)
    && (b.sys[CLK_CNT_0] == N_SAMPLES ==>
          forall k :: 0 <= k < DMA_WORDS ==> b.dma[k] == if k < N_SAMPLES then k * k else 0)
  }

  lemma ClockInvariant(ws: seq<Write>, n: nat)
    requires n <= |ws| && forall k :: 0 <= k < n ==> LeavesClockAlone(ws[k])
    ensures ClockInOrder(RunTo(InitialBars(), ws, n))
  {
    ClockHistory(ws, n);
    DmaHistory(ws, n);
    SampledOnce(ws, n);
    forall k | 0 <= k < N_SAMPLES ensures Parabola(InitialBars().dma)[k] == k * k {
      assert Parabola(InitialBars().dma)[k] == Sample(k);
    }
    hide RunTo;
  }
}
