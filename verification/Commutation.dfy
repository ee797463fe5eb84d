/** Which writes may change places, and that nothing but the order of conflicting writes matters. */
module Commutation {
  import opened Layout
  import opened Firmware
  import opened Runs

  predicate IsReg(a: Cell, w: nat) { a == Addr(SystemBar, w) }

  predicate ReadOnly(a: Cell) { IsReg(a, FIRMWARE) || IsReg(a, COMPILATION) || IsReg(a, DUMMY) }

  /** The firmware's reaction to x looks at or changes y. */
  predicate Reaches(x: Cell, y: Cell) {
    || (IsReg(x, CLK_RST) && y.bar.SystemBar? && (ClockWord(y.word) || y.word == ADC_ENA))
    || (IsReg(x, ADC_ENA) && (IsReg(y, CLK_CNT_0) || (y.bar.DmaBar? && y.word < N_SAMPLES)))
    || (IsReg(x, SPI_WRITE) && (IsReg(y, SPI_READ) || IsReg(y, SPI_SYNC)))
  }

  predicate Conflict(x: Cell, y: Cell) {
    (x == y && !ReadOnly(x)) || Reaches(x, y) || Reaches(y, x)
  }

  ghost predicate Swap(b: Bars, e: Write, f: Write) { Apply(Apply(b, e), f) == Apply(Apply(b, f), e) }

  /** No reaction beyond the written word itself. */
  predicate Plain(a: Cell) { !IsReg(a, CLK_RST) && !IsReg(a, ADC_ENA) && !IsReg(a, SPI_WRITE) }

  lemma ApplyPlain(b: Bars, e: Write)
    requires Plain(e.cell)
    ensures exists v :: Apply(b, e) == Store(b, e.cell, v)
    ensures !ReadOnly(e.cell) ==> Apply(b, e) == Store(b, e.cell, e.value)
    ensures ReadOnly(e.cell) ==>
      Apply(b, e) == Store(b, e.cell, if e.cell.word == FIRMWARE then VERSION_MAJ
                                      else if e.cell.word == COMPILATION then VERSION_MIN else DMMY_AS_ASCII)
  {
    assert Apply(b, e) == Store(b, e.cell, Load(Apply(b, e), e.cell));
  }

  /** A store to a word the write f neither looks at nor changes may be moved across f. */
  lemma StoreAcross(b: Bars, c: Cell, v: Word, f: Write)
    requires c != f.cell && !Reaches(f.cell, c) && !IsReg(c, CLK_RST)
    ensures Apply(Store(b, c, v), f) == Store(Apply(b, f), c, v)
  {
    if Plain(f.cell) {
      ApplyPlain(b, f);
      ApplyPlain(Store(b, c, v), f);
      hide Apply;
    } else if IsReg(f.cell, SPI_WRITE) {
      StoreAcrossSpi(b, c, v, f);
      hide Apply;
    } else if IsReg(f.cell, ADC_ENA) {
      StoreAcrossAdc(b, c, v, f);
      hide Apply;
    } else {
      StoreAcrossClkRst(b, c, v, f);
      hide Apply;
    }
  }

  lemma StoreAcrossSpi(b: Bars, c: Cell, v: Word, f: Write)
    requires IsReg(f.cell, SPI_WRITE) && c != f.cell && !Reaches(f.cell, c)
    ensures Apply(Store(b, c, v), f) == Store(Apply(b, f), c, v)
  {
    var x, y := Apply(Store(b, c, v), f), Store(Apply(b, f), c, v);
    assert x.dma == y.dma;
    assert x.sys == y.sys;
  }

  lemma StoreAcrossAdc(b: Bars, c: Cell, v: Word, f: Write)
    requires IsReg(f.cell, ADC_ENA) && c != f.cell && !Reaches(f.cell, c) && !IsReg(c, CLK_RST)
    ensures Apply(Store(b, c, v), f) == Store(Apply(b, f), c, v)
  {
    var x, y := Apply(Store(b, c, v), f), Store(Apply(b, f), c, v);
    assert x.dma == y.dma;
    assert x.sys == y.sys;
  }

  lemma StoreAcrossClkRst(b: Bars, c: Cell, v: Word, f: Write)
    requires IsReg(f.cell, CLK_RST) && c != f.cell && !Reaches(f.cell, c)
    ensures Apply(Store(b, c, v), f) == Store(Apply(b, f), c, v)
  {
    var x, y := Apply(Store(b, c, v), f), Store(Apply(b, f), c, v);
    assert x.dma == y.dma;
    assert x.sys == y.sys;
  }

  lemma SwapPlain(b: Bars, e: Write, f: Write)
    requires Plain(e.cell) && !Conflict(e.cell, f.cell)
    ensures Swap(b, e, f)
  {
    hide Apply;
    ApplyPlain(b, e);
    ApplyPlain(Apply(b, f), e);
    if e.cell == f.cell {
      ApplyPlain(b, f);
      ApplyPlain(Apply(b, e), f);
    } else {
      StoreAcross(b, e.cell, Load(Apply(b, e), e.cell), f);
    }
  }

  lemma ApplySpi(b: Bars, e: Write)
    requires IsReg(e.cell, SPI_WRITE)
    ensures var raw := Store(b, e.cell, e.value);
            Apply(b, e) == if b.sys[SPI_SYNC] == SYNC_REQUESTED && !e.spiFail
                           then Store(Store(raw, Addr(SystemBar, SPI_READ), e.value),
                                       Addr(SystemBar, SPI_SYNC), SYNC_OK)
                           else Store(raw, Addr(SystemBar, SPI_SYNC), SYNC_ERROR)
  {
  }

  lemma KeepsSync(b: Bars, f: Write)
    requires IsReg(f.cell, CLK_RST) || IsReg(f.cell, ADC_ENA)
    ensures Apply(b, f).sys[SPI_SYNC] == b.sys[SPI_SYNC]
  {
  }

  lemma SwapSpi(b: Bars, e: Write, f: Write)
    requires IsReg(e.cell, SPI_WRITE) && (IsReg(f.cell, CLK_RST) || IsReg(f.cell, ADC_ENA))
    ensures Swap(b, e, f)
  {
    hide Apply;
    ApplySpi(b, e);
    ApplySpi(Apply(b, f), e);
    KeepsSync(b, f);
    var read, sync := Addr(SystemBar, SPI_READ), Addr(SystemBar, SPI_SYNC);
    var raw := Store(b, e.cell, e.value);
    StoreAcross(b, e.cell, e.value, f);
    StoreAcross(raw, sync, SYNC_ERROR, f);
    StoreAcross(raw, read, e.value, f);
    StoreAcross(Store(raw, read, e.value), sync, SYNC_OK, f);
    hide Store;
  }

  lemma SwapIndependent(b: Bars, e: Write, f: Write)
    requires !Conflict(e.cell, f.cell)
    ensures Swap(b, e, f)
  {
    if Plain(e.cell) { SwapPlain(b, e, f); }
    else if Plain(f.cell) { SwapPlain(b, f, e); }
    else if IsReg(e.cell, SPI_WRITE) { SwapSpi(b, e, f); }
    else { SwapSpi(b, f, e); }
    hide Apply;
  }

  // ---------------------------------------------------------------------------------------------
  // The relation is exact
  // ---------------------------------------------------------------------------------------------

  ghost predicate SwapsAlways(x: Cell, y: Cell) {
    forall b: Bars, e: Write, f: Write :: e.cell == x && f.cell == y ==> Swap(b, e, f)
  }

  lemma LastValueStays(b: Bars, e: Write)
    requires !ReadOnly(e.cell)
    ensures Load(Apply(b, e), e.cell) == e.value
  {
  }

  lemma SameCellClash(x: Cell)
    requires !ReadOnly(x)
    ensures !SwapsAlways(x, x)
  {
    var b, e, f := InitialBars(), Write(x, 1, false), Write(x, 2, false);
    LastValueStays(Apply(b, e), f);
    LastValueStays(Apply(b, f), e);
    hide Apply;
    assert !Swap(b, e, f);
  }

  lemma ClkRstClash(x: Cell, y: Cell)
    requires IsReg(x, CLK_RST) && Reaches(x, y)
    ensures !SwapsAlways(x, y)
  {
    hide Apply, InitialBars;
    var b, e, f := InitialBars(), Write(x, 1, false), Write(y, 7, false);
    if y.word == ADC_ENA {
      AdcClearsReset(Apply(b, e), f);
      LastValueStays(Apply(b, f), e);
    } else {
      LastValueStays(Apply(b, e), f);
      ResetClears(Apply(b, f), e, y.word);
    }
    assert !Swap(b, e, f);
  }

  lemma ResetClears(b: Bars, e: Write, w: nat)
    requires IsReg(e.cell, CLK_RST) && e.value != 0 && ClockWord(w)
    ensures Apply(b, e).sys[w] == 0
  {
  }

  lemma AdcClearsReset(b: Bars, e: Write)
    requires IsReg(e.cell, ADC_ENA) && e.value != 0
    ensures Apply(b, e).sys[CLK_RST] == 0
  {
  }

  lemma AdcClash(x: Cell, y: Cell)
    requires IsReg(x, ADC_ENA) && Reaches(x, y)
    ensures !SwapsAlways(x, y)
  {
    hide Apply, InitialBars, Sample, Parabola;
    var b, e, f := InitialBars(), Write(x, 1, false), Write(y, 7000, false);
    LastValueStays(Apply(b, e), f);
    AdcOverwrites(Apply(b, f), e, y);
    assert !Swap(b, e, f);
  }

  /** What the ADC leaves in the words it writes. */
  lemma AdcOverwrites(b: Bars, e: Write, y: Cell)
    requires IsReg(e.cell, ADC_ENA) && e.value != 0 && Reaches(e.cell, y)
    ensures Load(Apply(b, e), y) < 7000
  {
    hide Sample;
    if y.bar.DmaBar? {
      DmaStep(b, e);
      hide Apply;
      assert Parabola(b.dma)[y.word] == Sample(y.word);
    }
  }

  lemma SpiClash(x: Cell, y: Cell)
    requires IsReg(x, SPI_WRITE) && Reaches(x, y)
    ensures !SwapsAlways(x, y)
  {
    var b := Store(InitialBars(), Addr(SystemBar, SPI_SYNC), SYNC_REQUESTED);
    var e, f := Write(x, 9, false), Write(y, SYNC_REQUESTED, false);
    LastValueStays(Apply(b, e), f);
    assert Apply(Apply(b, f), e).sys[y.word] != SYNC_REQUESTED;
    assert !Swap(b, e, f);
  }

  /** A reaction that overwrites y undoes a write to y that comes first, and not one that comes later. */
  lemma ReactionClash(x: Cell, y: Cell)
    requires Reaches(x, y)
    ensures !SwapsAlways(x, y)
  {
    if IsReg(x, CLK_RST) { ClkRstClash(x, y); }
    else if IsReg(x, ADC_ENA) { AdcClash(x, y); }
    else { SpiClash(x, y); }
    hide Apply;
  }

  /** Two words conflict exactly when some pair of writes to them gives different bars in the two orders. */
  lemma ConflictIsExact(x: Cell, y: Cell)
    ensures Conflict(x, y) <==> !SwapsAlways(x, y)
  {
    if Conflict(x, y) {
      if Reaches(x, y) { ReactionClash(x, y); }
      else if Reaches(y, x) {
        ReactionClash(y, x);
        var b: Bars, e: Write, f: Write :| e.cell == y && f.cell == x && !Swap(b, e, f);
        assert !Swap(b, f, e);
      } else { SameCellClash(x); }
    } else {
      forall b: Bars, e: Write, f: Write | e.cell == x && f.cell == y ensures Swap(b, e, f) {
        SwapIndependent(b, e, f);
      }
    }
  }

  // ---------------------------------------------------------------------------------------------
  // Whole runs
  // ---------------------------------------------------------------------------------------------

  lemma WithoutInTail<T>(t: seq<T>, k: nat)
    requires 0 < k < |t|
    ensures t[1..][..k - 1] + t[1..][k..] == t[1..k] + t[k + 1..]
    ensures [t[0]] + (t[1..k] + t[k + 1..]) == t[..k] + t[k + 1..]
  {
  }

  lemma {:induction false} MoveToFront(b: Bars, t: seq<Write>, k: nat)
    requires k < |t| && forall j :: 0 <= j < k ==> !Conflict(t[j].cell, t[k].cell)
    ensures Run(b, t) == Run(Apply(b, t[k]), t[..k] + t[k + 1..])
    decreases k
  {
    hide Run, Apply, Conflict;
    assert t == [t[0]] + t[1..];
    RunCons(b, t[0], t[1..]);
    if k == 0 {
      assert t[..k] + t[k + 1..] == t[1..];
    } else {
      var rest := t[1..k] + t[k + 1..];
      WithoutInTail(t, k);
      MoveToFront(Apply(b, t[0]), t[1..], k - 1);
      SwapIndependent(b, t[0], t[k]);
      RunCons(Apply(b, t[k]), t[0], rest);
    }
  }

  /** u is t rearranged: its i-th write is number p[i] of t, q is the inverse of p, and two conflicting
      writes keep their order. */
  predicate Rearranged(t: seq<Write>, u: seq<Write>, p: seq<nat>, q: seq<nat>) {
    && |t| == |u| == |p| == |q|
    && (forall i :: 0 <= i < |p| ==> p[i] < |p| && q[p[i]] == i && u[i] == t[p[i]])
    && (forall j :: 0 <= j < |q| ==> q[j] < |q| && p[q[j]] == j)
    && (forall i, j :: 0 <= i < j < |u| && Conflict(u[i].cell, u[j].cell) ==> p[i] < p[j])
  }

  function Without<T>(s: seq<T>, k: nat): (r: seq<T>)
    requires k < |s|
    ensures |r| == |s| - 1
  {
    s[..k] + s[k + 1..]
  }

  /** The numbering once element k is gone. */
  function Close(k: nat, j: nat): nat { if j <= k then j else j - 1 }

  function RestP(p: seq<nat>): (r: seq<nat>)
    requires p != []
    ensures |r| == |p| - 1
  {
    seq(|p| - 1, i requires 0 <= i < |p| - 1 => Close(p[0], p[i + 1]))
  }

  function RestQ(q: seq<nat>, k: nat): (r: seq<nat>)
    requires k < |q| && forall j :: 0 <= j < |q| && j != k ==> q[j] > 0
    ensures |r| == |q| - 1
  {
    seq(|q| - 1, j requires 0 <= j < |q| - 1 => if j < k then q[j] - 1 else q[j + 1] - 1)
  }

  lemma InverseFacts(t: seq<Write>, u: seq<Write>, p: seq<nat>, q: seq<nat>)
    requires Rearranged(t, u, p, q) && u != []
    ensures forall j :: 0 <= j < |q| && j != p[0] ==> q[j] > 0
    ensures forall i :: 0 < i < |p| ==> p[i] != p[0]
  {
    forall j | 0 <= j < |q| && j != p[0] ensures q[j] > 0 { assert p[q[j]] == j; }
    forall i | 0 < i < |p| ensures p[i] != p[0] { assert q[p[i]] == i; }
  }

  lemma RestForward(t: seq<Write>, u: seq<Write>, p: seq<nat>, q: seq<nat>, i: nat)
    requires Rearranged(t, u, p, q) && i + 1 < |u|
    requires forall j :: 0 <= j < |q| && j != p[0] ==> q[j] > 0
    ensures RestP(p)[i] < |u| - 1
    ensures RestQ(q, p[0])[RestP(p)[i]] == i
    ensures Without(t, p[0])[RestP(p)[i]] == u[i + 1]
  {
    assert q[p[i + 1]] == i + 1 && q[p[0]] == 0;
  }

  lemma RestBackward(t: seq<Write>, u: seq<Write>, p: seq<nat>, q: seq<nat>, j: nat)
    requires Rearranged(t, u, p, q) && j + 1 < |u|
    requires forall j :: 0 <= j < |q| && j != p[0] ==> q[j] > 0
    ensures RestQ(q, p[0])[j] < |u| - 1
    ensures RestP(p)[RestQ(q, p[0])[j]] == j
  {
    var j' := if j < p[0] then j else j + 1;
    assert p[q[j']] == j';
  }

  lemma RestOrder(p: seq<nat>, i: nat, j: nat)
    requires i + 1 < |p| && j + 1 < |p| && p[i + 1] < p[j + 1] && p[i + 1] != p[0] && p[j + 1] != p[0]
    ensures RestP(p)[i] < RestP(p)[j]
  {
  }

  lemma RearrangedRest(t: seq<Write>, u: seq<Write>, p: seq<nat>, q: seq<nat>)
    requires Rearranged(t, u, p, q) && u != []
    requires forall j :: 0 <= j < |q| && j != p[0] ==> q[j] > 0
    ensures Rearranged(Without(t, p[0]), u[1..], RestP(p), RestQ(q, p[0]))
  {
    hide Conflict, RestP, RestQ, Without;
    InverseFacts(t, u, p, q);
    forall i | 0 <= i < |u| - 1
      ensures RestP(p)[i] < |u| - 1 && RestQ(q, p[0])[RestP(p)[i]] == i && u[1..][i] == Without(t, p[0])[RestP(p)[i]]
    {
      RestForward(t, u, p, q, i);
    }
    forall j | 0 <= j < |u| - 1
      ensures RestQ(q, p[0])[j] < |u| - 1 && RestP(p)[RestQ(q, p[0])[j]] == j
    {
      RestBackward(t, u, p, q, j);
    }
    forall i, j | 0 <= i < j < |u| - 1 && Conflict(u[1..][i].cell, u[1..][j].cell)
      ensures RestP(p)[i] < RestP(p)[j]
    {
      assert p[i + 1] < p[j + 1];
      RestOrder(p, i, j);
    }
  }

  /** Whatever comes before u's first write in t does not conflict with it. */
  lemma FrontIsFree(t: seq<Write>, u: seq<Write>, p: seq<nat>, q: seq<nat>, j: nat)
    requires Rearranged(t, u, p, q) && u != [] && j < p[0]
    ensures !Conflict(t[j].cell, t[p[0]].cell)
  {
    assert p[q[j]] == j && u[q[j]] == t[j] && u[0] == t[p[0]];
  }

  /** u's first write may be done first. */
  lemma FirstToFront(b: Bars, t: seq<Write>, u: seq<Write>, p: seq<nat>, q: seq<nat>)
    requires Rearranged(t, u, p, q) && u != []
    ensures p[0] < |t| && Run(b, t) == Run(Apply(b, u[0]), Without(t, p[0]))
  {
    hide Conflict, Run, Apply;
    forall j | 0 <= j < p[0] ensures !Conflict(t[j].cell, t[p[0]].cell) { FrontIsFree(t, u, p, q, j); }
    MoveToFront(b, t, p[0]);
  }

  lemma RunFirst(b: Bars, u: seq<Write>)
    requires u != []
    ensures Run(b, u) == Run(Apply(b, u[0]), u[1..])
  {
    hide Run, Apply;
    assert u == [u[0]] + u[1..];
    RunCons(b, u[0], u[1..]);
  }

  /** Only the order of conflicting writes matters. */
  lemma {:induction false} RearrangedRunsAgree(b: Bars, t: seq<Write>, u: seq<Write>, p: seq<nat>, q: seq<nat>)
    requires Rearranged(t, u, p, q)
    ensures Run(b, t) == Run(b, u)
    decreases |t|
  {
    hide Run, Apply, Without, RestP, RestQ, Conflict;
    if u == [] {
      assert t == u;
    } else {
      InverseFacts(t, u, p, q);
      RearrangedRest(t, u, p, q);
      FirstToFront(b, t, u, p, q);
      RunFirst(b, u);
      hide Rearranged;
      RearrangedRunsAgree(Apply(b, u[0]), Without(t, p[0]), u[1..], RestP(p), RestQ(q, p[0]));
    }
  }
}
