/** Every sequence of calls, by record or by block, is a history of single stored words, and the registers are
    functions of that history. Here the firmware's lock may be interrupted. */
module Reachable {
  import opened Layout
  import opened Firmware
  import opened Transfer
  import opened Chunking
  import opened Runs
  import opened StructPath

  // ---------------------------------------------------------------------------------------------
  // Histories of stored words
  // ---------------------------------------------------------------------------------------------

  /** One stored word, and how the firmware that runs after it fares with controlMutex. */
  datatype Attempt = Attempt(cell: Cell, value: Word, control: Control)

  function Effect(b: Bars, a: Attempt): Bars { Action(Store(b, a.cell, a.value), a.cell, a.control).bars }

  /** The bars after the first n attempts. */
  function After(b: Bars, h: seq<Attempt>, n: nat): Bars
    requires n <= |h|
  {
    if n == 0 then b else Effect(After(b, h, n - 1), h[n - 1])
  }

  lemma {:induction false} AfterPrefix(b: Bars, g: seq<Attempt>, h: seq<Attempt>, n: nat)
    requires n <= |g|
    ensures After(b, g + h, n) == After(b, g, n)
  {
    if n > 0 { AfterPrefix(b, g, h, n - 1); }
  }

  lemma {:induction false} AfterConcat(b: Bars, g: seq<Attempt>, h: seq<Attempt>, n: nat)
    requires n <= |h|
    ensures After(b, g + h, |g| + n) == After(After(b, g, |g|), h, n)
  {
    hide Effect;
    if n == 0 { AfterPrefix(b, g, h, |g|); } else { AfterConcat(b, g, h, n - 1); }
  }

  lemma AfterCons(b: Bars, a: Attempt, h: seq<Attempt>)
    ensures After(b, [a] + h, 1 + |h|) == After(Effect(b, a), h, |h|)
  {
    AfterConcat(b, [a], h, |h|);
    assert After(b, [a], 0) == b;
    hide Effect;
  }

  /** Attempt k is the latest of the first n on this word. */
  predicate IsLast(h: seq<Attempt>, c: Cell, n: nat, k: nat)
    requires n <= |h|
  {
    k < n && h[k].cell == c && forall j :: k < j < n ==> h[j].cell != c
  }

  predicate Never(h: seq<Attempt>, c: Cell, n: nat)
    requires n <= |h|
  {
    forall k :: 0 <= k < n ==> h[k].cell != c
  }

  lemma {:induction false} NeverOrLast(h: seq<Attempt>, c: Cell, n: nat) returns (k: nat)
    requires n <= |h|
    ensures Never(h, c, n) || IsLast(h, c, n, k)
  {
    if n == 0 { k := 0; } else if h[n - 1].cell == c { k := n - 1; } else { k := NeverOrLast(h, c, n - 1); }
  }

  lemma SameLast(h: seq<Attempt>, c: Cell, n: nat)
    requires 0 < n <= |h| && h[n - 1].cell != c
    ensures forall k: nat :: IsLast(h, c, n, k) <==> IsLast(h, c, n - 1, k)
  {
  }

  /** If register w was stored to at all, the latest store was of v. */
  ghost predicate LatestIs(h: seq<Attempt>, n: nat, w: nat, v: Word)
    requires n <= |h| && w < N_REGISTERS
  {
    forall k: nat :: IsLast(h, Addr(SystemBar, w), n, k) ==> h[k].value == v
  }

  /** Registers no reaction ever changes. */
  predicate Passive(w: nat) {
    w < N_REGISTERS && w != FIRMWARE && w != COMPILATION && w != DUMMY && !ClockWord(w) && w != CLK_RST
    && w != SPI_READ && w != SPI_SYNC
  }

  lemma PassiveEffect(b: Bars, a: Attempt, w: nat)
    requires Passive(w)
    ensures Effect(b, a).sys[w] == if a.cell == Addr(SystemBar, w) then a.value else b.sys[w]
  {
  }

  /** Such a register holds what the latest store to it stored, and else what it held at first; whether the
      store was answered with an error plays no part. */
  lemma {:induction false} PassiveHistory(b: Bars, h: seq<Attempt>, n: nat, w: nat)
    requires n <= |h| && Passive(w)
    ensures forall k: nat :: IsLast(h, Addr(SystemBar, w), n, k) ==> After(b, h, n).sys[w] == h[k].value
    ensures Never(h, Addr(SystemBar, w), n) ==> After(b, h, n).sys[w] == b.sys[w]
  {
    if n > 0 {
      PassiveHistory(b, h, n - 1, w);
      PassiveEffect(After(b, h, n - 1), h[n - 1], w);
      hide Effect, After;
      if h[n - 1].cell == Addr(SystemBar, w) {
        assert IsLast(h, Addr(SystemBar, w), n, n - 1);
      } else {
        SameLast(h, Addr(SystemBar, w), n);
      }
    }
  }

  /** The constant of a read-only register. */
  function Constant(w: nat): Word {
    if w == FIRMWARE then VERSION_MAJ else if w == COMPILATION then VERSION_MIN else DMMY_AS_ASCII
  }

  predicate ReadOnlyWord(w: nat) { w == FIRMWARE || w == COMPILATION || w == DUMMY }

  /** The firmware was kept from restoring the word. */
  predicate Spoils(a: Attempt, w: nat) { a.control.Interrupted? && a.value != Constant(w) }

  ghost predicate LatestSpoils(h: seq<Attempt>, n: nat, w: nat)
    requires n <= |h| && w < N_REGISTERS
  {
    exists k: nat :: IsLast(h, Addr(SystemBar, w), n, k) && Spoils(h[k], w)
  }

  lemma ReadOnlyEffect(b: Bars, a: Attempt, w: nat)
    requires ReadOnlyWord(w)
    ensures Effect(b, a).sys[w] ==
            if a.cell != Addr(SystemBar, w) then b.sys[w] else if a.control.Interrupted? then a.value else Constant(w)
  {
  }

  /** A read-only register holds its constant, unless the latest store to it was interrupted: then it holds what
      was stored. */
  lemma {:induction false} ReadOnlyHistory(b: Bars, h: seq<Attempt>, n: nat, w: nat)
    requires n <= |h| && ReadOnlyWord(w)
    ensures forall k: nat :: IsLast(h, Addr(SystemBar, w), n, k) ==>
              After(b, h, n).sys[w] == if h[k].control.Interrupted? then h[k].value else Constant(w)
    ensures Never(h, Addr(SystemBar, w), n) ==> After(b, h, n).sys[w] == b.sys[w]
  {
    if n > 0 {
      ReadOnlyHistory(b, h, n - 1, w);
      ReadOnlyEffect(After(b, h, n - 1), h[n - 1], w);
      hide Effect, After;
      if h[n - 1].cell == Addr(SystemBar, w) {
        assert IsLast(h, Addr(SystemBar, w), n, n - 1);
      } else {
        SameLast(h, Addr(SystemBar, w), n);
      }
    }
  }

  // ---------------------------------------------------------------------------------------------
  // Histories without interruption are runs of writes
  // ---------------------------------------------------------------------------------------------

  predicate Granted(a: Attempt) { a.cell.bar.DmaBar? || a.control.Sampled? }

  predicate Uninterrupted(h: seq<Attempt>) { forall k :: 0 <= k < |h| ==> Granted(h[k]) }

  function WriteOf(a: Attempt): Write { Write(a.cell, a.value, a.control.Sampled? && a.control.flag) }

  function WritesOfHistory(h: seq<Attempt>): (ws: seq<Write>)
    ensures |ws| == |h| && forall k :: 0 <= k < |h| ==> ws[k] == WriteOf(h[k])
  {
    seq(|h|, k requires 0 <= k < |h| => WriteOf(h[k]))
  }

  lemma GrantedEffect(b: Bars, a: Attempt)
    requires Granted(a)
    ensures Effect(b, a) == Apply(b, WriteOf(a))
  {
  }

  lemma {:induction false} UninterruptedIsRun(b: Bars, h: seq<Attempt>, n: nat)
    requires n <= |h| && Uninterrupted(h)
    ensures After(b, h, n) == RunTo(b, WritesOfHistory(h), n)
  {
    hide Effect, Apply;
    if n > 0 {
      UninterruptedIsRun(b, h, n - 1);
      GrantedEffect(After(b, h, n - 1), h[n - 1]);
    }
  }

  // ---------------------------------------------------------------------------------------------
  // Calls
  // ---------------------------------------------------------------------------------------------

  /** A write by record or by block, or a call that only reads. Copies may fail, locks may be interrupted, error
      flags may be set, the request may be nonsense. */
  datatype Call =
    | ByRecord(q: DeviceRw, count: Count, e: StructEnv)
    | ByBlock(pos: FilePos, count: Count, data: seq<Word>, be: CallEnv)
    | OnlyReads
  {
    /** The caller's buffer covers the request. */
    ghost predicate Valid() { ByBlock? ==> count / 4 == |data| == |be.words| }
  }

  function AfterCall(b: Bars, c: Call): Bars
    requires c.Valid()
  {
    match c
    case ByRecord(q, count, e) => StructWrite(b, q, count, e).bars
    case ByBlock(pos, count, data, be) => BlockWrite(b, pos, count, data, 0, be).bars
    case OnlyReads => b
  }

  /** The words a block stores: up to the first failing copy, or through the first word that fails after its
      store. */
  function StoredWords(bar: Bar, base: int, data: seq<Word>, env: seq<WordEnv>, i: nat, n: nat): seq<Attempt>
    requires i <= n <= |data| == |env| && 0 <= base + i && base + n <= bar.Words()
    decreases n - i
  {
    if i == n || !env[i].copyOk then []
    else
      var a := Attempt(Addr(bar, base + i), data[i], env[i].control);
      [a] + if WriteBreaks(a.cell) || !Granted(a) then [] else StoredWords(bar, base, data, env, i + 1, n)
  }

  lemma StoredWord(b: Bars, a: Attempt)
    ensures WriteWord(b, a.cell, a.value, WordEnv(true, a.control))
            == Step(Effect(b, a), if WriteBreaks(a.cell) || !Granted(a) then EIO else 0)
  {
  }

  lemma {:induction false} LoopIsHistory(b: Bars, bar: Bar, base: int, data: seq<Word>, env: seq<WordEnv>,
                                         i: nat, n: nat)
    requires i <= n <= |data| == |env| && 0 <= base + i && base + n <= bar.Words()
    ensures var h := StoredWords(bar, base, data, env, i, n);
            WriteRange(b, bar, base, data, env, i, n).bars == After(b, h, |h|)
    decreases n - i
  {
    hide Effect, Action, Granted;
    if i < n && env[i].copyOk {
      hide WriteWord;
      var a := Attempt(Addr(bar, base + i), data[i], env[i].control);
      var ends := WriteBreaks(a.cell) || !Granted(a);
      StoredWord(b, a);
      AfterCons(b, a, if ends then [] else StoredWords(bar, base, data, env, i + 1, n));
      if !ends { LoopIsHistory(Effect(b, a), bar, base, data, env, i + 1, n); }
    }
  }

  /** The words a call stores. */
  function HistoryOf(c: Call): seq<Attempt>
    requires c.Valid()
  {
    match c
    case ByRecord(q, count, e) =>
      if StructEntry(count, e) != 0 || q.mode != RW_D32 then []
      else
        (match Locate(q.bar, q.offset)
         case Bad => []
         case Good(bar, w) => [Attempt(Addr(bar, w), q.data, e.control)])
    case ByBlock(pos, count, data, be) =>
      var r := Decode(count, pos);
      if BlockEntry(be, r) != 0 then [] else StoredWords(r.bar, r.first, data, be.words, 0, r.n)
    case OnlyReads => []
  }

  lemma RecordIsHistory(b: Bars, c: Call)
    requires c.ByRecord?
    ensures AfterCall(b, c) == After(b, HistoryOf(c), |HistoryOf(c)|)
  {
    hide Locate;
    if StructEntry(c.count, c.e) == 0 && c.q.mode == RW_D32 {
      match Locate(c.q.bar, c.q.offset)
      case Bad =>
      case Good(bar, w) =>
        var a := Attempt(Addr(bar, w), c.q.data, c.e.control);
        AfterCons(b, a, []);
        assert [a] + [] == [a];
    }
  }

  lemma CallIsHistory(b: Bars, c: Call)
    requires c.Valid()
    ensures AfterCall(b, c) == After(b, HistoryOf(c), |HistoryOf(c)|)
  {
    hide Decode, StructWrite, WriteRange, StoredWords;
    if c.ByRecord? {
      RecordIsHistory(b, c);
    } else if c.ByBlock? {
      var r := Decode(c.count, c.pos);
      if BlockEntry(c.be, r) == 0 { LoopIsHistory(b, r.bar, r.first, c.data, c.be.words, 0, r.n); }
    }
  }

  ghost predicate Calls(cs: seq<Call>) { forall k :: 0 <= k < |cs| ==> cs[k].Valid() }

  /** The bars after the first n calls. */
  function AfterCalls(b: Bars, cs: seq<Call>, n: nat): Bars
    requires n <= |cs| && Calls(cs)
  {
    if n == 0 then b else AfterCall(AfterCalls(b, cs, n - 1), cs[n - 1])
  }

  function History(cs: seq<Call>, n: nat): seq<Attempt>
    requires n <= |cs| && Calls(cs)
  {
    if n == 0 then [] else History(cs, n - 1) + HistoryOf(cs[n - 1])
  }

  lemma {:induction false} CallsAreHistory(b: Bars, cs: seq<Call>, n: nat)
    requires n <= |cs| && Calls(cs)
    ensures AfterCalls(b, cs, n) == After(b, History(cs, n), |History(cs, n)|)
  {
    hide AfterCall, HistoryOf, Effect;
    if n > 0 {
      CallsAreHistory(b, cs, n - 1);
      CallIsHistory(AfterCalls(b, cs, n - 1), cs[n - 1]);
      AfterConcat(b, History(cs, n - 1), HistoryOf(cs[n - 1]), |HistoryOf(cs[n - 1])|);
    }
  }

  // ---------------------------------------------------------------------------------------------
  // What holds of a device in use
  // ---------------------------------------------------------------------------------------------

  lemma FreshDevice()
    ensures Identified(InitialBars()) && InitialBars().sys[BROKEN_WRITE] == 4 * BROKEN_WRITE
  {
  }

  /** BROKEN_WRITE holds its offset exactly when no store reached it, or the latest one stored just that. */
  lemma BrokenWriteExactly(cs: seq<Call>, n: nat)
    requires n <= |cs| && Calls(cs)
    ensures var h := History(cs, n);
            AfterCalls(InitialBars(), cs, n).sys[BROKEN_WRITE] == 4 * BROKEN_WRITE <==>
            LatestIs(h, |h|, BROKEN_WRITE, 4 * BROKEN_WRITE)
  {
    hide AfterCalls, After, History, InitialBars, IsLast, Never;
    CallsAreHistory(InitialBars(), cs, n);
    FreshDevice();
    PassiveHistory(InitialBars(), History(cs, n), |History(cs, n)|, BROKEN_WRITE);
    var _ := NeverOrLast(History(cs, n), Addr(SystemBar, BROKEN_WRITE), |History(cs, n)|);
  }

  /** A write that is refused and changes the word all the same. */
  lemma BrokenWriteCanBeWritten()
    ensures var w := BlockWrite(InitialBars(), 4 * BROKEN_WRITE, 4, [1], 0, Open([WordEnv(true, Sampled(false))]));
            w.ret == EIO && w.pos == 4 * BROKEN_WRITE && w.bars.sys[BROKEN_WRITE] == 1
  {
    hide InitialBars;
    var b, a, e := InitialBars(), Addr(SystemBar, BROKEN_WRITE), WordEnv(true, Sampled(false));
    assert Decode(4, 4 * BROKEN_WRITE) == Accepted(SystemBar, BROKEN_WRITE, 1);
    assert WriteWord(b, a, 1, e) == Step(Store(b, a, 1), EIO);
    assert WriteRange(b, SystemBar, BROKEN_WRITE, [1], [e], 0, 1) == Progress(Store(b, a, 1), 0, EIO);
  }

  /** A signal at the wrong moment: the write is refused and the read-only word keeps what was stored. */
  lemma ReadOnlyWordCanBeLost()
    ensures var w := BlockWrite(InitialBars(), 4 * FIRMWARE, 4, [1], 0, Open([WordEnv(true, Interrupted)]));
            w.ret == EIO && w.bars.sys[FIRMWARE] == 1 && !Identified(w.bars)
  {
    hide InitialBars;
    var b, a, e := InitialBars(), Addr(SystemBar, FIRMWARE), WordEnv(true, Interrupted);
    assert Decode(4, 4 * FIRMWARE) == Accepted(SystemBar, FIRMWARE, 1);
    assert WriteWord(b, a, 1, e) == Step(Store(b, a, 1), EIO);
    assert WriteRange(b, SystemBar, FIRMWARE, [1], [e], 0, 1) == Progress(Store(b, a, 1), 0, EIO);
  }

  /** The read-only words hold their constants exactly when no latest store to one of them was an interrupted
      store of something else; calls that stop early are no exception. */
  lemma ReadOnlyWordsExactly(cs: seq<Call>, n: nat)
    requires n <= |cs| && Calls(cs)
    ensures var h := History(cs, n);
            Identified(AfterCalls(InitialBars(), cs, n)) <==>
            forall w: nat | ReadOnlyWord(w) :: !LatestSpoils(h, |h|, w)
  {
    hide AfterCalls, After, History, InitialBars, IsLast;
    CallsAreHistory(InitialBars(), cs, n);
    FreshDevice();
    forall w: nat | ReadOnlyWord(w)
      ensures AfterCalls(InitialBars(), cs, n).sys[w] == Constant(w) <==>
              !LatestSpoils(History(cs, n), |History(cs, n)|, w)
    {
      ReadOnlyHistory(InitialBars(), History(cs, n), |History(cs, n)|, w);
      var _ := NeverOrLast(History(cs, n), Addr(SystemBar, w), |History(cs, n)|);
    }
    assert ReadOnlyWord(FIRMWARE) && ReadOnlyWord(COMPILATION) && ReadOnlyWord(DUMMY);
  }

  /** As long as the firmware is not interrupted they always do. */
  lemma ReadOnlyWordsReachable(cs: seq<Call>, n: nat)
    requires n <= |cs| && Calls(cs) && Uninterrupted(History(cs, n))
    ensures Identified(AfterCalls(InitialBars(), cs, n))
  {
    hide InitialBars, AfterCalls, History;
    ReadOnlyWordsExactly(cs, n);
    assert forall k: nat | k < |History(cs, n)| :: Granted(History(cs, n)[k]);
  }

  lemma CallsAreRun(b: Bars, cs: seq<Call>, n: nat)
    requires n <= |cs| && Calls(cs) && Uninterrupted(History(cs, n))
    ensures AfterCalls(b, cs, n) == Run(b, WritesOfHistory(History(cs, n)))
  {
    hide AfterCalls, History;
    CallsAreHistory(b, cs, n);
    UninterruptedIsRun(b, History(cs, n), |History(cs, n)|);
  }

  lemma SpiReachable(cs: seq<Call>, n: nat)
    requires n <= |cs| && Calls(cs) && Uninterrupted(History(cs, n))
    ensures var ws := WritesOfHistory(History(cs, n));
            var b := AfterCalls(InitialBars(), cs, n);
            && b.sys[SPI_READ] == LatestSpiData(ws, |ws|)
            && (b.sys[SPI_SYNC] == SYNC_REQUESTED <==> Armed(ws, |ws|))
            && AcceptedTransfers(ws, |ws|) <= Requests(ws, |ws|)
  {
    hide AfterCalls, RunTo, History, LatestSpiData, AcceptedTransfers, Requests, InitialBars, Armed;
    var ws := WritesOfHistory(History(cs, n));
    CallsAreRun(InitialBars(), cs, n);
    SpiHistory(ws, |ws|);
    TransfersNeedRequests(ws, |ws|);
  }

  lemma ResetReachable(cs: seq<Call>, n: nat)
    requires n <= |cs| && Calls(cs) && Uninterrupted(History(cs, n))
    ensures var ws := WritesOfHistory(History(cs, n));
            AfterCalls(InitialBars(), cs, n).sys[CLK_RST] == LatestReset(ws, |ws|)
  {
    hide AfterCalls, RunTo, History, InitialBars, LatestReset;
    CallsAreRun(InitialBars(), cs, n);
    ResetHistory(WritesOfHistory(History(cs, n)), |History(cs, n)|);
  }

  lemma ClockReachable(cs: seq<Call>, n: nat)
    requires n <= |cs| && Calls(cs) && Uninterrupted(History(cs, n))
    requires forall k :: 0 <= k < |History(cs, n)| ==> LeavesClockAlone(WriteOf(History(cs, n)[k]))
    ensures ClockInOrder(AfterCalls(InitialBars(), cs, n))
  {
    hide AfterCalls, RunTo, History, InitialBars, ClockInOrder;
    CallsAreRun(InitialBars(), cs, n);
    ClockInvariant(WritesOfHistory(History(cs, n)), |History(cs, n)|);
  }

  /** One write of a word loses a read-only word exactly when it is an interrupted store of something else. */
  lemma ReadOnlyWordsLostExactly(b: Bars, a: Cell, v: Word, e: WordEnv)
    requires Identified(b)
    ensures !Identified(WriteWord(b, a, v, e).bars) <==>
            && e.copyOk && a.bar.SystemBar? && ReadOnlyWord(a.word) && Spoils(Attempt(a, v, e.control), a.word)
  {
    if e.copyOk {
      StoredWord(b, Attempt(a, v, e.control));
      forall w: nat | ReadOnlyWord(w) { ReadOnlyEffect(b, Attempt(a, v, e.control), w); }
      assert ReadOnlyWord(FIRMWARE) && ReadOnlyWord(COMPILATION) && ReadOnlyWord(DUMMY);
      hide WriteWord, Effect;
    }
  }
}
