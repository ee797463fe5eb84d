/** From interleaved threads to the registers: every run ends in the bars of a sequence of whole calls, and what
    holds of such sequences holds of every interleaving. */
module EndToEnd {
  import opened Layout
  import opened Firmware
  import opened Transfer
  import opened Chunking
  import opened Runs
  import opened StructPath
  import opened Locking
  import opened Serial
  import opened Interleaving
  import opened SerialCalls
  import R = Reachable
  import P = ProcOptions

  /** The surroundings of all n words, those the call never reached being arbitrary. */
  function Padded(env: seq<WordEnv>, n: nat): (r: seq<WordEnv>)
    ensures |r| == n && (|env| <= n ==> env <= r)
    ensures forall k :: |env| <= k < n ==> r[k] == WordEnv(true, Sampled(false))
  {
    if |env| <= n then env + seq(n - |env|, _ => WordEnv(true, Sampled(false))) else env[..n]
  }

  /** A logged call as a call on its own. */
  function WholeCall(op: Op, env: seq<WordEnv>): R.Call {
    if op.BlockWriteOp? then
      R.ByBlock(op.pos, op.count, op.data, Open(Padded(env, op.count / 4)))
    else if op.StructWriteOp? then R.ByRecord(op.q, op.count, RecordWriteOf(op.copyIn, env))
    else R.OnlyReads
  }

  lemma EntryIsCall(b: Bars, op: Op, e: Entry)
    requires op.Enters() && op.PreCheck() == 0 && op.Valid(op.dev + 1) && e.job == JobOf(op) && Explained(b, e)
    ensures WholeCall(op, e.env).Valid()
    ensures R.AfterCall(b, WholeCall(op, e.env)) == Alone(b, e.job, e.env).bars
  {
    hide BlockWrite, StructWrite, StoreAlone, LoadAlone, Padded;
    if op.BlockWriteOp? {
      FitsBlock(op, e);
      BlockWriteEntry(b, op, e, Padded(e.env, op.count / 4));
    } else if op.StructWriteOp? {
      StructWriteEntry(b, op, e);
    }
  }

  lemma FitsBlock(op: Op, e: Entry)
    requires op.BlockWriteOp? && op.PreCheck() == 0 && op.Valid(op.dev + 1) && e.job == JobOf(op) && Fits(e)
    ensures |e.env| <= op.count / 4
  {
  }

  /** The finished calls on device d, in order. */
  function CallsOn(r: State, d: nat): (cs: seq<R.Call>)
    requires d < |r.devs| && forall k :: 0 <= k < |r.devs[d].log| ==> r.devs[d].log[k].t < |r.threads|
    ensures |cs| == |r.devs[d].log|
  {
    var log := r.devs[d].log;
    seq(|log|, k requires 0 <= k < |log| => WholeCall(r.threads[log[k].t].op, log[k].env))
  }

  lemma SerializedThreads(b: Bars, r: State, d: nat)
    requires d < |r.devs| && Serialized(b, r, d)
    ensures forall k :: 0 <= k < |r.devs[d].log| ==> r.devs[d].log[k].t < |r.threads|
  {
    hide Explained, FlagsHonored, Replay, TurnedAway;
    forall k | 0 <= k < |r.devs[d].log| ensures r.devs[d].log[k].t < |r.threads| {
      assert Recorded(r.threads, d, r.devs[d].log[k]);
    }
  }

  lemma CallAt(b: Bars, r: State, d: nat, k: nat)
    requires d < |r.devs| && Serialized(b, r, d) && k < |r.devs[d].log|
    requires forall i :: 0 <= i < |r.devs[d].log| ==> r.devs[d].log[i].t < |r.threads|
    ensures var log := r.devs[d].log;
            CallsOn(r, d)[k].Valid() && R.AfterCall(Replay(b, log, k), CallsOn(r, d)[k]) == Replay(b, log, k + 1)
  {
    hide WholeCall, R.AfterCall, Alone, R.Call.Valid, FlagsHonored, Complete, TurnedAway, JobOf;
    var log := r.devs[d].log;
    assert Recorded(r.threads, d, log[k]) && Explained(Replay(b, log, k), log[k]);
    EntryIsCall(Replay(b, log, k), r.threads[log[k].t].op, log[k]);
  }

  lemma {:induction false} ReplayIsCalls(b: Bars, r: State, d: nat, n: nat)
    requires d < |r.devs| && Serialized(b, r, d) && n <= |r.devs[d].log|
    requires forall i :: 0 <= i < |r.devs[d].log| ==> r.devs[d].log[i].t < |r.threads|
    ensures R.Calls(CallsOn(r, d)) && R.AfterCalls(b, CallsOn(r, d), n) == Replay(b, r.devs[d].log, n)
  {
    hide Serialized, CallsOn, R.AfterCall, R.Call.Valid, Replay;
    forall k | 0 <= k < |r.devs[d].log| ensures CallsOn(r, d)[k].Valid() { CallAt(b, r, d, k); }
    if n > 0 {
      ReplayIsCalls(b, r, d, n - 1);
      CallAt(b, r, d, n - 1);
    } else {
      NothingReplayed(b, r.devs[d].log);
    }
  }

  lemma NothingReplayed(b: Bars, log: seq<Entry>)
    ensures Replay(b, log, 0) == b
  {
  }

  /** Whenever devMutex of a device is free, in any run, its bars are those that the whole calls leave which took
      devMutex, each done alone, by the functions of the block path and the record path. */
  lemma RunsAreCalls(s: State, turns: seq<Turn>, r: State, d: nat)
    requires Initial(s) && Execute(s, turns, |turns|) == Next(r)
    requires d < |s.devs| == |r.devs| && r.devs[d].owner == Free
    ensures forall k :: 0 <= k < |r.devs[d].log| ==> r.devs[d].log[k].t < |r.threads|
    ensures var cs := CallsOn(r, d);
            R.Calls(cs) && r.devs[d].bars == R.AfterCalls(s.devs[d].bars, cs, |cs|)
  {
    hide Initial, Execute, CallsOn, R.Call.Valid, Recorded, FlagsHonored, Explained;
    Serializable(s, turns, r, d);
    SerializedThreads(s.devs[d].bars, r, d);
    ReplayIsCalls(s.devs[d].bars, r, d, |r.devs[d].log|);
  }

  // ---------------------------------------------------------------------------------------------
  // What the calls answer and deliver
  // ---------------------------------------------------------------------------------------------

  /** The answer of a block call: the bytes it moved, or the failure. */
  function BlockAnswer(op: Op, status: int): int
    requires op.BlockWriteOp? || op.BlockReadOp?
  {
    if status == 0 && Decode(op.count, op.pos).Accepted? then 4 * Decode(op.count, op.pos).n else status
  }

  /** The record a bulk or word reader puts back. */
  predicate RecordReported(r: Reply, q: DeviceRw, e: Entry) {
    if q.mode == RW_DMA then
      && (e.status == 0 ==> q.size <= 4 * |e.values|)
      && r == if e.status == 0 then Reply(q.size, q, Bytes(e.values)[..q.size]) else Reply(e.status, q, [])
    else
      && r.ret == (if e.status == 0 then RW_SIZE else e.status)
      && (q.mode == RW_D32 && e.status == 0 ==> e.values == [r.record.data])
  }

  /** Answer, data, position and bars of the entry are those of the call done alone on the bars b, by the function
      of its own path. */
  predicate Reported(b: Bars, after: Bars, slotNr: Word, op: Op, e: Entry)
    requires op.Enters() && op.Valid(op.dev + 1)
  {
    match op
    case BlockWriteOp(_, pos, count, data) =>
      pos + 4 * e.moved < MAX_POS &&
      BlockWrite(b, pos, count, data, 0, Open(Padded(e.env, count / 4)))
        == Written(after, pos + 4 * e.moved, BlockAnswer(op, e.status))
    case BlockReadOp(_, pos, count) =>
      var all := Open(Padded(e.env, count / 4));
      pos + 4 * e.moved < MAX_POS && after == b &&
      BlockRead(pos, count, 0, all) == Read(e.moved, pos + 4 * e.moved, BlockAnswer(op, e.status)) &&
      ReadValues(b, pos, count, 0, all) == e.values
    case StructWriteOp(_, q, count, copyIn) =>
      StructWrite(b, q, count, RecordWriteOf(copyIn, e.env)) == Step(after, if e.status == 0 then RW_SIZE else e.status)
    case StructReadOp(_, q, count, copyIn, copyOut) =>
      after == b && RecordReported(StructRead(b, slotNr, q, count, RecordReadOf(copyIn, copyOut)), q, e)
    case IoctlOp(_, offset, size, copyIn, copyOut) =>
      after == b && (e.status == 0 ==> size <= 4 * |e.values|) &&
      if !copyIn then e.status == EFAULT
      else IoctlDma(b, offset, size, copyOut) == Bulk(e.status, if e.status == 0 then Bytes(e.values)[..size] else [])
    case DumpOp(_) => after == b && e.status == 0 && e.values == b.sys + b.dma
  }

  lemma EntryReported(b: Bars, slotNr: Word, op: Op, e: Entry)
    requires op.Enters() && op.PreCheck() == 0 && op.Valid(op.dev + 1) && e.job == JobOf(op) && Explained(b, e)
    ensures Reported(b, Alone(b, e.job, e.env).bars, slotNr, op, e)
  {
    hide BlockWrite, BlockRead, ReadValues, StructWrite, StructRead, IoctlDma, StoreAlone, LoadAlone, Padded, Decode;
    hide Bytes, JobOf, Alone, Complete;
    if op.BlockWriteOp? {
      FitsBlock(op, e);
      BlockWriteEntry(b, op, e, Padded(e.env, op.count / 4));
    } else if op.BlockReadOp? {
      FitsRead(op, e);
      BlockReadEntry(b, op, e, Padded(e.env, op.count / 4));
    } else if op.StructWriteOp? {
      StructWriteEntry(b, op, e);
    } else if op.StructReadOp? {
      if op.q.mode == RW_DMA { BulkReadEntry(b, slotNr, op, e); } else { StructReadEntry(b, slotNr, op, e); }
    } else if op.IoctlOp? {
      IoctlEntry(b, op, e);
    } else {
      DumpEntry(b, op, e);
    }
  }

  lemma FitsRead(op: Op, e: Entry)
    requires op.BlockReadOp? && op.PreCheck() == 0 && op.Valid(op.dev + 1) && e.job == JobOf(op) && Fits(e)
    ensures |e.env| <= op.count / 4
  {
  }

  /** In every run, each call that took devMutex answered, delivered and did what its own path does on the bars that
      the calls before it leave. */
  lemma ResultsAreCalls(s: State, turns: seq<Turn>, r: State, d: nat, k: nat, slotNr: Word)
    requires Initial(s) && Execute(s, turns, |turns|) == Next(r)
    requires d < |s.devs| == |r.devs| && r.devs[d].owner == Free && k < |r.devs[d].log|
    ensures forall i :: 0 <= i < |r.devs[d].log| ==> r.devs[d].log[i].t < |r.threads|
    ensures R.Calls(CallsOn(r, d))
    ensures var e, cs, start := r.devs[d].log[k], CallsOn(r, d), s.devs[d].bars;
            var op := r.threads[e.t].op;
            && op.Enters() && op.Valid(op.dev + 1)
            && Reported(R.AfterCalls(start, cs, k), R.AfterCalls(start, cs, k + 1), slotNr, op, e)
  {
    hide Initial, Execute, CallsOn, R.Call.Valid, R.AfterCalls, Serialized, Reported;
    var start := s.devs[d].bars;
    Serializable(s, turns, r, d);
    SerializedThreads(start, r, d);
    ReplayIsCalls(start, r, d, k);
    ReplayIsCalls(start, r, d, k + 1);
    ReportedAt(start, r, d, k, slotNr);
  }

  lemma ReportedAt(b: Bars, r: State, d: nat, k: nat, slotNr: Word)
    requires d < |r.devs| && Serialized(b, r, d) && k < |r.devs[d].log|
    ensures r.devs[d].log[k].t < |r.threads|
    ensures var log := r.devs[d].log;
            var op := r.threads[log[k].t].op;
            && op.Enters() && op.Valid(op.dev + 1)
            && Reported(Replay(b, log, k), Replay(b, log, k + 1), slotNr, op, log[k])
  {
    hide Alone, FlagsHonored, Complete, TurnedAway, JobOf, Reported;
    var log := r.devs[d].log;
    assert Recorded(r.threads, d, log[k]) && Explained(Replay(b, log, k), log[k]);
    EntryReported(Replay(b, log, k), slotNr, r.threads[log[k].t].op, log[k]);
  }

  // ---------------------------------------------------------------------------------------------
  // What holds of calls holds of every interleaving
  // ---------------------------------------------------------------------------------------------

  /** What BROKEN_WRITE and the read-only words hold after any run on a fresh device. */
  lemma RegistersInEveryRun(s: State, turns: seq<Turn>, r: State, d: nat)
    requires Initial(s) && Execute(s, turns, |turns|) == Next(r)
    requires d < |s.devs| == |r.devs| && r.devs[d].owner == Free && s.devs[d].bars == InitialBars()
    ensures forall k :: 0 <= k < |r.devs[d].log| ==> r.devs[d].log[k].t < |r.threads|
    ensures var cs := CallsOn(r, d);
            R.Calls(cs) &&
            var h := R.History(cs, |cs|);
            && (r.devs[d].bars.sys[BROKEN_WRITE] == 4 * BROKEN_WRITE <==>
                  R.LatestIs(h, |h|, BROKEN_WRITE, 4 * BROKEN_WRITE))
            && (Identified(r.devs[d].bars) <==> forall w: nat | R.ReadOnlyWord(w) :: !R.LatestSpoils(h, |h|, w))
  {
    hide Initial, Execute, CallsOn, R.Call.Valid, R.AfterCalls, R.History, InitialBars, R.LatestIs, R.LatestSpoils;
    RunsAreCalls(s, turns, r, d);
    var cs := CallsOn(r, d);
    R.BrokenWriteExactly(cs, |cs|);
    R.ReadOnlyWordsExactly(cs, |cs|);
  }

  // Schedules in which no lock is interrupted by a signal.

  predicate Quiet(turns: seq<Turn>) { forall k :: 0 <= k < |turns| ==> turns[k].choice != Interrupt }

  /** The firmware ran after the word was stored. */
  predicate Unbroken(a: Cell, e: WordEnv) { !e.copyOk || a.bar.DmaBar? || e.control.Sampled? }

  predicate Calm(th: Thread) {
    th.op.Enters() && th.op.PreCheck() == 0 && th.op.Valid(th.op.dev + 1) && JobOf(th.op).Stores? ==>
      var cells := JobOf(th.op).cells;
      forall k :: 0 <= k < |th.env| && k < |cells| ==> Unbroken(cells[k], th.env[k])
  }

  lemma CalmEntry(t: nat, th: Thread, dev: Dev, control: Owner, flags: P.Flags, now: nat, c: Choice)
    requires Typed(th) && Calm(th) && !th.pc.HoldsDev()
    ensures var m := DeviceStep(t, th, dev, control, flags, now, c);
            m.Move? ==> Calm(m.thread)
  {
    hide JobOf, Op.PreCheck, Op.Valid, Op.GateFlag, Unbroken;
  }

  lemma CalmWork(t: nat, th: Thread, dev: Dev, control: Owner, flags: P.Flags, now: nat, c: Choice)
    requires Typed(th) && Calm(th) && th.pc.HoldsDev() && c != Interrupt
    ensures var m := DeviceStep(t, th, dev, control, flags, now, c);
            m.Move? ==> Calm(m.thread)
  {
    hide JobOf, Op.PreCheck, Op.Valid, Op.GateFlag, React, Store, Load, LoadStatus, WriteBreaks;
  }

  predicate AllCalm(s: State) { forall t :: 0 <= t < |s.threads| ==> Calm(s.threads[t]) }

  lemma CalmStep(s: State, t: nat, c: Choice)
    requires CanStep(s, t) && AllCalm(s) && c != Interrupt
    ensures StepOf(s, t, c).Next? ==> AllCalm(StepOf(s, t, c).s)
  {
    hide DeviceStep, Typed, Calm, Assign;
    var th := s.threads[t];
    if th.op.OptionsOp? {
      forall x: Thread | x.op.OptionsOp? ensures Calm(x) { OptionsAreCalm(x); }
    } else if th.pc.HoldsDev() {
      CalmWork(t, th, s.devs[th.op.dev], s.control, s.flags, |s.options|, c);
    } else {
      CalmEntry(t, th, s.devs[th.op.dev], s.control, s.flags, |s.options|, c);
    }
  }

  lemma OptionsAreCalm(x: Thread)
    requires x.op.OptionsOp?
    ensures Calm(x)
  {
  }

  lemma InitiallyCalm(s: State)
    requires Initial(s)
    ensures AllCalm(s)
  {
    hide JobOf, Op.PreCheck, Op.Valid;
  }

  lemma {:induction false} AlwaysCalm(s: State, turns: seq<Turn>, n: nat)
    requires Initial(s) && Quiet(turns) && n <= |turns|
    ensures Execute(s, turns, n).Next? ==> AllCalm(Execute(s, turns, n).s)
  {
    hide Initial, AllCalm, CanStep, StepOf;
    if n == 0 {
      InitiallyCalm(s);
    } else {
      AlwaysCalm(s, turns, n - 1);
      var r := Execute(s, turns, n - 1);
      if r.Next? && CanStep(r.s, turns[n - 1].t) { CalmStep(r.s, turns[n - 1].t, turns[n - 1].choice); }
    }
  }

  lemma {:induction false} StoredUninterrupted(bar: Bar, base: int, data: seq<Word>, env: seq<WordEnv>, i: nat, n: nat)
    requires i <= n <= |data| == |env| && 0 <= base + i && base + n <= bar.Words()
    requires forall k :: i <= k < n ==> !env[k].copyOk || bar.DmaBar? || env[k].control.Sampled?
    ensures R.Uninterrupted(R.StoredWords(bar, base, data, env, i, n))
    decreases n - i
  {
    if i < n { StoredUninterrupted(bar, base, data, env, i + 1, n); }
  }

  lemma CallUninterrupted(th: Thread)
    requires th.op.Enters() && th.op.PreCheck() == 0 && th.op.Valid(th.op.dev + 1) && Calm(th)
    requires |th.env| <= JobOf(th.op).Size()
    ensures WholeCall(th.op, th.env).Valid() && R.Uninterrupted(R.HistoryOf(WholeCall(th.op, th.env)))
  {
    var op := th.op;
    if op.BlockWriteOp? {
      hide Decode, R.StoredWords;
      var q := Decode(op.count, op.pos);
      assert JobOf(op).cells == Range(q.bar, q.first, q.n);
      forall k | 0 <= k < |th.env| ensures Unbroken(Addr(q.bar, q.first + k), th.env[k]) {
        assert JobOf(op).cells[k] == Addr(q.bar, q.first + k);
      }
      StoredUninterrupted(q.bar, q.first, op.data, Padded(th.env, op.count / 4), 0, q.n);
    } else if op.StructWriteOp? {
      hide Locate;
    }
  }

  lemma CallUninterruptedAt(b: Bars, r: State, d: nat, k: nat)
    requires d < |r.devs| && Serialized(b, r, d) && AllCalm(r) && k < |r.devs[d].log|
    requires forall i :: 0 <= i < |r.devs[d].log| ==> r.devs[d].log[i].t < |r.threads|
    ensures CallsOn(r, d)[k].Valid() && R.Uninterrupted(R.HistoryOf(CallsOn(r, d)[k]))
  {
    hide R.HistoryOf, R.Call.Valid, R.Uninterrupted, Calm, WholeCall, FlagsHonored, JobOf, Alone, Complete, TurnedAway;
    var log := r.devs[d].log;
    assert Recorded(r.threads, d, log[k]) && Explained(Replay(b, log, k), log[k]);
    CallUninterrupted(r.threads[log[k].t]);
  }

  lemma {:induction false} CallsUninterrupted(b: Bars, r: State, d: nat, n: nat)
    requires d < |r.devs| && Serialized(b, r, d) && AllCalm(r) && n <= |r.devs[d].log|
    requires forall k :: 0 <= k < |r.devs[d].log| ==> r.devs[d].log[k].t < |r.threads|
    requires R.Calls(CallsOn(r, d))
    ensures R.Uninterrupted(R.History(CallsOn(r, d), n))
  {
    hide R.HistoryOf, R.Call.Valid, Serialized, AllCalm, CallsOn, R.Granted;
    if n > 0 {
      CallsUninterrupted(b, r, d, n - 1);
      CallUninterruptedAt(b, r, d, n - 1);
    }
  }

  /** On a fresh device, and as long as no lock is interrupted, every interleaving leaves the read-only words
      alone, tells the history of the SPI handshake, and keeps the clock registers in order. */
  lemma RegistersInQuietRuns(s: State, turns: seq<Turn>, r: State, d: nat)
    requires Initial(s) && Execute(s, turns, |turns|) == Next(r) && Quiet(turns)
    requires d < |s.devs| == |r.devs| && r.devs[d].owner == Free && s.devs[d].bars == InitialBars()
    ensures forall k :: 0 <= k < |r.devs[d].log| ==> r.devs[d].log[k].t < |r.threads|
    ensures R.Calls(CallsOn(r, d))
    ensures var b := r.devs[d].bars;
            var ws := R.WritesOfHistory(R.History(CallsOn(r, d), |CallsOn(r, d)|));
            && Identified(b)
            && b.sys[SPI_READ] == LatestSpiData(ws, |ws|)
            && (b.sys[SPI_SYNC] == SYNC_REQUESTED <==> Armed(ws, |ws|))
            && AcceptedTransfers(ws, |ws|) <= Requests(ws, |ws|)
            && b.sys[CLK_RST] == LatestReset(ws, |ws|)
            && ((forall k :: 0 <= k < |ws| ==> LeavesClockAlone(ws[k])) ==> ClockInOrder(b))
  {
    hide Initial, Execute, CallsOn, R.Call.Valid, R.AfterCalls, R.History, InitialBars, Serialized, AllCalm;
    hide LatestSpiData, LatestReset, Armed, AcceptedTransfers, Requests, ClockInOrder, R.WriteOf;
    RunsAreCalls(s, turns, r, d);
    Serializable(s, turns, r, d);
    AlwaysCalm(s, turns, |turns|);
    var cs := CallsOn(r, d);
    CallsUninterrupted(s.devs[d].bars, r, d, |cs|);
    R.ReadOnlyWordsReachable(cs, |cs|);
    R.SpiReachable(cs, |cs|);
    R.ResetReachable(cs, |cs|);
    var h := R.History(cs, |cs|);
    if forall k :: 0 <= k < |h| ==> LeavesClockAlone(R.WriteOf(h[k])) {
      R.ClockReachable(cs, |cs|);
    }
  }
}
