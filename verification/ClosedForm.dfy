/** The registers after a block write to bar 0, as a formula of the old registers and the data. */
module ClosedForm {
  import opened Layout
  import opened Firmware
  import opened Transfer
  import opened Chunking
  import opened Runs
  import opened BlockLaws
  import opened Commutation

  /** n words of data written to registers lo, lo + 1, ... */
  datatype Block = Block(lo: nat, n: nat, data: seq<Word>, env: seq<WordEnv>) {
    ghost predicate Valid() {
      n <= |data| == |env| && lo + n <= N_REGISTERS && Clean(env)
    }
    /** There is another word, and a register for it. */
    ghost predicate More() { Valid() && n < |data| && lo + n < N_REGISTERS }
    predicate Avoids() { !(n > 0 && lo <= BROKEN_WRITE && BROKEN_REGISTER < lo + n) }
    predicate Covers(w: nat) { lo <= w < lo + n }
    function At(w: nat): Word
      requires n <= |data| && Covers(w)
    {
      data[w - lo]
    }
    predicate Resets() requires n <= |data| { Covers(CLK_RST) && At(CLK_RST) != 0 }
    predicate Samples() requires n <= |data| { Covers(ADC_ENA) && At(ADC_ENA) != 0 }
    /** The transfer is judged on the SYNC word from before the block. */
    predicate Transfers(b: Bars)
      requires n <= |data| == |env| && Clean(env)
    {
      Covers(SPI_WRITE) && b.sys[SPI_SYNC] == SYNC_REQUESTED && !env[SPI_WRITE - lo].control.flag
    }
    function Raw(b: Bars, w: nat): Word
      requires n <= |data| && w < N_REGISTERS
    {
      if Covers(w) then At(w) else b.sys[w]
    }
  }

  function FinalRegister(b: Bars, k: Block, w: nat): Word
    requires k.Valid() && w < N_REGISTERS
  {
    if w == FIRMWARE && k.Covers(w) then VERSION_MAJ
    else if w == COMPILATION && k.Covers(w) then VERSION_MIN
    else if w == DUMMY && k.Covers(w) then DMMY_AS_ASCII
    else if w == CLK_CNT_0 && k.Samples() then N_SAMPLES
    else if ClockWord(w) && k.Resets() then 0
    else if w == CLK_RST && k.Samples() then 0
    else if w == SPI_READ && !k.Covers(w) && k.Transfers(b) then k.At(SPI_WRITE)
    else if w == SPI_SYNC && !k.Covers(w) && k.Covers(SPI_WRITE) then
      if k.Transfers(b) then SYNC_OK else SYNC_ERROR
    else k.Raw(b, w)
  }

  function Final(b: Bars, k: Block): Bars
    requires k.Valid()
  {
    Memory(seq(N_REGISTERS, w requires 0 <= w < N_REGISTERS => FinalRegister(b, k, w)),
           if k.Samples() then Parabola(b.dma) else b.dma)
  }

  /** The last write of the block that is one word longer. */
  function NextWrite(k: Block): Write
    requires k.More()
  {
    Write(Addr(SystemBar, k.lo + k.n), k.data[k.n], k.env[k.n].control.flag)
  }

  lemma StepDma(b: Bars, k: Block)
    requires k.More()
    ensures Apply(Final(b, k), NextWrite(k)).dma == Final(b, k.(n := k.n + 1)).dma
  {
    DmaStep(Final(b, k), NextWrite(k));
    hide Apply;
  }

  lemma StepPlain(b: Bars, k: Block, w: nat)
    requires k.More() && k.(n := k.n + 1).Avoids() && Plain(NextWrite(k).cell) && w < N_REGISTERS
    ensures Apply(Final(b, k), NextWrite(k)).sys[w] == FinalRegister(b, k.(n := k.n + 1), w)
  {
    hide Apply, Clean, Parabola;
    ApplyPlain(Final(b, k), NextWrite(k));
  }

  lemma ClkRstEffect(b: Bars, e: Write, w: nat)
    requires IsReg(e.cell, CLK_RST) && w < N_REGISTERS
    ensures Apply(b, e).sys[w]
         == if w == CLK_RST then e.value else if ClockWord(w) && e.value != 0 then 0 else b.sys[w]
  {
  }

  lemma StepClkRst(b: Bars, k: Block, w: nat)
    requires k.More() && k.lo + k.n == CLK_RST && w < N_REGISTERS
    ensures Apply(Final(b, k), NextWrite(k)).sys[w] == FinalRegister(b, k.(n := k.n + 1), w)
  {
    hide Apply, Clean, Parabola;
    ClkRstEffect(Final(b, k), NextWrite(k), w);
  }

  lemma AdcEffect(b: Bars, e: Write, w: nat)
    requires IsReg(e.cell, ADC_ENA) && w < N_REGISTERS
    ensures Apply(b, e).sys[w]
         == if w == ADC_ENA then e.value
            else if w == CLK_CNT_0 && e.value != 0 then N_SAMPLES
            else if w == CLK_RST && e.value != 0 then 0
            else b.sys[w]
  {
  }

  lemma StepAdc(b: Bars, k: Block, w: nat)
    requires k.More() && k.lo + k.n == ADC_ENA && w < N_REGISTERS
    ensures Apply(Final(b, k), NextWrite(k)).sys[w] == FinalRegister(b, k.(n := k.n + 1), w)
  {
    hide Apply, Clean, Parabola;
    AdcEffect(Final(b, k), NextWrite(k), w);
  }

  lemma StepSpi(b: Bars, k: Block, w: nat)
    requires k.More() && k.lo + k.n == SPI_WRITE && k.(n := k.n + 1).Avoids() && w < N_REGISTERS
    ensures Apply(Final(b, k), NextWrite(k)).sys[w] == FinalRegister(b, k.(n := k.n + 1), w)
  {
    hide Apply, Clean, Parabola;
    ApplySpi(Final(b, k), NextWrite(k));
  }

  lemma FinalStep(b: Bars, k: Block)
    requires k.More() && k.(n := k.n + 1).Avoids()
    ensures Apply(Final(b, k), NextWrite(k)) == Final(b, k.(n := k.n + 1))
  {
    hide Apply, FinalRegister;
    StepDma(b, k);
    forall w | 0 <= w < N_REGISTERS
      ensures Apply(Final(b, k), NextWrite(k)).sys[w] == FinalRegister(b, k.(n := k.n + 1), w)
    {
      if k.lo + k.n == CLK_RST { StepClkRst(b, k, w); }
      else if k.lo + k.n == ADC_ENA { StepAdc(b, k, w); }
      else if k.lo + k.n == SPI_WRITE { StepSpi(b, k, w); }
      else { StepPlain(b, k, w); }
    }
    assert Apply(Final(b, k), NextWrite(k)).sys == Final(b, k.(n := k.n + 1)).sys;
  }

  lemma EmptyBlock(b: Bars, k: Block)
    requires k.Valid() && k.n == 0
    ensures Final(b, k) == b
  {
    assert Final(b, k).sys == b.sys;
  }

  lemma {:induction false} RunHasClosedForm(b: Bars, k: Block)
    requires k.Valid() && k.Avoids()
    ensures Run(b, WritesOf(SystemBar, k.lo, k.data, k.env, 0, k.n)) == Final(b, k)
    decreases k.n
  {
    hide Final, Apply;
    var ws := WritesOf(SystemBar, k.lo, k.data, k.env, 0, k.n);
    if k.n == 0 {
      EmptyBlock(b, k);
    } else {
      var k' := k.(n := k.n - 1);
      RunHasClosedForm(b, k');
      RunPrefix(b, ws, WritesOf(SystemBar, k.lo, k.data, k.env, 0, k.n - 1), k.n - 1);
      FinalStep(b, k');
    }
  }

  /** An accepted block write to bar 0 whose clipped range avoids the two broken registers goes through, and has
      the closed form. */
  lemma BlockWriteClosedForm(b: Bars, pos: FilePos, count: Count, data: seq<Word>, env: seq<WordEnv>)
    requires count / 4 == |data| == |env| && Clean(env)
    requires Decode(count, pos).Accepted? && Decode(count, pos).bar.SystemBar?
    requires Block(Decode(count, pos).first, Decode(count, pos).n, data, env).Avoids()
    ensures var r := Decode(count, pos);
            BlockWrite(b, pos, count, data, 0, Open(env))
              == Written(Final(b, Block(r.first, r.n, data, env)), pos + 4 * r.n, 4 * r.n)
  {
    hide Run, Final, WritesOf, Decode;
    var r := Decode(count, pos);
    BlockWriteFailsExactly(b, pos, count, data, env);
    RunHasClosedForm(b, Block(r.first, r.n, data, env));
    hide BlockWrite;
  }
}
