/** What the serial order of the interleaved calls means in terms of the calls' own specifications. */
module SerialCalls {
  import opened Layout
  import opened Firmware
  import opened Transfer
  import opened Chunking
  import opened StructPath
  import opened Locking
  import opened Serial
  import opened Interleaving
  import opened Timeline
  import P = ProcOptions

  // ---------------------------------------------------------------------------------------------
  // A job done word by word is the loop of the call
  // ---------------------------------------------------------------------------------------------

  lemma {:induction false} StoresAreWriteRange(b: Bars, bar: Bar, first: nat, n: nat, data: seq<Word>,
                                               env: seq<WordEnv>, all: seq<WordEnv>, m: nat)
    requires first + n <= bar.Words() && n <= |data| == |all| && m <= |env| <= n && env <= all
    ensures var s := StoreAlone(b, Range(bar, first, n), data[..n], env, m);
            var w := WriteRange(b, bar, first, data, all, 0, n);
            if s.status == 0 then s.done == m && w == WriteRange(s.bars, bar, first, data, all, m, n) else w == s
  {
    hide WriteWord;
    if m > 0 {
      StoresAreWriteRange(b, bar, first, n, data, env, all, m - 1);
      assert env[m - 1] == all[m - 1] && data[..n][m - 1] == data[m - 1];
    }
  }

  lemma {:induction false} LoadsDeliver(b: Bars, bar: Bar, first: nat, n: nat, env: seq<WordEnv>, m: nat)
    requires first + n <= bar.Words() && m <= |env| <= n
    ensures var s := LoadAlone(b, Range(bar, first, n), WordReader, env, m);
            && |s.values| <= m && (s.status == 0 ==> |s.values| == m)
            && s.values == Content(b, bar)[first..first + |s.values|]
  {
    hide LoadStatus, Content;
    var c := Content(b, bar);
    if m > 0 {
      LoadsDeliver(b, bar, first, n, env, m - 1);
      assert c[first..first + m - 1] + [c[first + m - 1]] == c[first..first + m];
    }
  }

  lemma {:induction false} LoadsAreReadRange(b: Bars, bar: Bar, first: nat, n: nat, env: seq<WordEnv>,
                                             all: seq<WordEnv>, m: nat)
    requires first + n <= bar.Words() && n <= |all| && m <= |env| <= n && env <= all
    ensures var s := LoadAlone(b, Range(bar, first, n), WordReader, env, m);
            var r := ReadRange(bar, first, all, 0, n);
            if s.status == 0 then r == ReadRange(bar, first, all, m, n) else r == Fetched(|s.values|, s.status)
  {
    hide ReadBreaks, LoadStatus, ReadStatus, Load;
    if m > 0 {
      LoadsAreReadRange(b, bar, first, n, env, all, m - 1);
      LoadsDeliver(b, bar, first, n, env, m - 1);
      assert env[m - 1] == all[m - 1];
      SameStatus(Addr(bar, first + m - 1), env[m - 1]);
    }
  }

  lemma SameStatus(a: Cell, e: WordEnv)
    ensures LoadStatus(a, WordReader, e) == ReadStatus(a, e)
  {
  }

  /** A plain loop of loads never fails and delivers every word. */
  lemma {:induction false} PlainLoads(b: Bars, cells: seq<Cell>, env: seq<WordEnv>, m: nat)
    requires m <= |env| <= |cells|
    ensures LoadAlone(b, cells, PlainReader, env, m) == Loaded(seq(m, k requires 0 <= k < m => Load(b, cells[k])), 0)
  {
    if m > 0 { PlainLoads(b, cells, env, m - 1); }
  }

  lemma BulkLoads(b: Bars, offset: Word, size: Word, env: seq<WordEnv>)
    requires offset + size <= DMA_SIZE && |env| == BulkJob(offset, size).Size()
    ensures var first := offset / 4;
            Alone(b, BulkJob(offset, size), env) == Outcome(b, b.dma[first..first + (size + 3) / 4], |env|, 0)
  {
    hide LoadAlone;
    PlainLoads(b, BulkJob(offset, size).cells, env, |env|);
  }

  // ---------------------------------------------------------------------------------------------
  // Log entries as calls
  // ---------------------------------------------------------------------------------------------

  /** A logged block write returned, moved the position and left the bars as mtcaDummy_write_no_struct does on its
      own. */
  lemma BlockWriteEntry(b: Bars, op: Op, e: Entry, all: seq<WordEnv>)
    requires op.BlockWriteOp? && op.Valid(op.dev + 1) && op.PreCheck() == 0 && e.job == JobOf(op) && Explained(b, e)
    requires |all| == op.count / 4 && e.env <= all
    ensures e.moved <= Decode(op.count, op.pos).n
    ensures BlockWrite(b, op.pos, op.count, op.data, 0, Open(all))
         == Written(Alone(b, e.job, e.env).bars, op.pos + 4 * e.moved,
                    if e.status == 0 then 4 * Decode(op.count, op.pos).n else e.status)
  {
    hide StoreAlone, WriteRange, Decode;
    var r := Decode(op.count, op.pos);
    StoresAreWriteRange(b, r.bar, r.first, r.n, op.data, e.env, all, |e.env|);
    NoMoreWords(Alone(b, e.job, e.env).bars, r.bar, r.first, op.data, all, r.n);
  }

  lemma NoMoreWords(b: Bars, bar: Bar, first: nat, data: seq<Word>, all: seq<WordEnv>, n: nat)
    requires first + n <= bar.Words() && n <= |data| == |all|
    ensures WriteRange(b, bar, first, data, all, n, n) == Progress(b, n, 0)
  {
  }

  lemma BlockReadEntry(b: Bars, op: Op, e: Entry, all: seq<WordEnv>)
    requires op.BlockReadOp? && op.Valid(op.dev + 1) && op.PreCheck() == 0 && e.job == JobOf(op) && Explained(b, e)
    requires |all| == op.count / 4 && e.env <= all
    ensures e.moved <= Decode(op.count, op.pos).n
    ensures BlockRead(op.pos, op.count, 0, Open(all))
         == Read(e.moved, op.pos + 4 * e.moved,
                 if e.status == 0 then 4 * Decode(op.count, op.pos).n else e.status)
    ensures ReadValues(b, op.pos, op.count, 0, Open(all)) == e.values
    ensures Alone(b, e.job, e.env).bars == b
  {
    hide LoadAlone, Decode, Content;
    var r := Decode(op.count, op.pos);
    LoadsAreReadRange(b, r.bar, r.first, r.n, e.env, all, |e.env|);
    LoadsDeliver(b, r.bar, r.first, r.n, e.env, |e.env|);
    assert r.first <= r.first + |e.values| <= |Content(b, r.bar)|;
  }

  /** The surroundings of a logged record write; env says what its one word met. */
  function RecordWriteOf(copyIn: bool, env: seq<WordEnv>): StructEnv {
    if env == [] then StructEnv(Sampled(false), false, copyIn, true, Sampled(false))
    else StructEnv(Sampled(false), false, copyIn && env[0].copyOk, true, env[0].control)
  }

  lemma StructWriteEntry(b: Bars, op: Op, e: Entry)
    requires op.StructWriteOp? && e.job == JobOf(op) && Explained(b, e)
    ensures StructWrite(b, op.q, op.count, RecordWriteOf(op.copyIn, e.env)) ==
            Step(Alone(b, e.job, e.env).bars, if e.status == 0 then RW_SIZE else e.status)
  {
    hide React, Store, Locate;
    StoreOnce(b, e.job, e.env);
  }

  /** A job of one word. */
  lemma StoreOnce(b: Bars, j: Job, env: seq<WordEnv>)
    requires j.Valid() && |env| <= j.Size() <= 1
    ensures j.Stores? && |env| == 1 ==>
      (var s := WriteWord(b, j.cells[0], j.data[0], env[0]);
       Alone(b, j, env) == Outcome(s.bars, [], if s.status == 0 then 1 else 0, s.status))
    ensures |env| == 0 ==> Alone(b, j, env) == Outcome(b, [], 0, if j.Nothing? then j.status else 0)
  {
    hide WriteWord, Load;
    if j.Stores? { assert StoreAlone(b, j.cells, j.data, env, 0) == Progress(b, 0, 0); }
    if j.Loads? { assert LoadAlone(b, j.cells, j.reader, env, 0) == Loaded([], 0); }
  }

  function RecordReadOf(copyIn: bool, copyOut: bool): StructEnv {
    StructEnv(Sampled(false), false, copyIn, copyOut, Interrupted)
  }

  /** A logged read of a word, of the driver's information, or one that is refused. */
  lemma StructReadEntry(b: Bars, slotNr: Word, op: Op, e: Entry)
    requires op.StructReadOp? && op.Valid(op.dev + 1) && e.job == JobOf(op) && Explained(b, e) && op.q.mode != RW_DMA
    ensures var r := StructRead(b, slotNr, op.q, op.count, RecordReadOf(op.copyIn, op.copyOut));
            && r.ret == (if e.status == 0 then RW_SIZE else e.status)
            && (op.q.mode == RW_D32 && e.status == 0 ==> e.values == [r.record.data])
    ensures Alone(b, e.job, e.env).bars == b
  {
    hide Load, LoadAlone, Locate;
    if e.job.Loads? { PlainLoads(b, e.job.cells, e.env, |e.env|); }
  }

  /** A logged bulk read, or one that is refused. */
  lemma BulkReadEntry(b: Bars, slotNr: Word, op: Op, e: Entry)
    requires op.StructReadOp? && op.Valid(op.dev + 1) && e.job == JobOf(op) && Explained(b, e) && op.q.mode == RW_DMA
    ensures e.status == 0 ==> op.q.size <= 4 * |e.values|
    ensures StructRead(b, slotNr, op.q, op.count, RecordReadOf(op.copyIn, op.copyOut)) ==
            if e.status == 0 then Reply(op.q.size, op.q, Bytes(e.values)[..op.q.size]) else Reply(e.status, op.q, [])
    ensures Alone(b, e.job, e.env).bars == b
  {
    hide LoadAlone, Bytes, BulkJob;
    if e.job.Loads? {
      PlainLoads(b, e.job.cells, e.env, |e.env|);
      BulkLoads(b, op.q.offset, op.q.size, e.env);
      BulkBytes(b, op.q.offset, op.q.size);
    }
  }

  lemma BulkBytes(b: Bars, offset: Word, size: Word)
    requires offset + size <= DMA_SIZE
    ensures var first := offset / 4;
            Bytes(b.dma)[4 * first..4 * first + size] == Bytes(b.dma[first..first + (size + 3) / 4])[..size]
  {
    hide Bytes;
    var first, n := offset / 4, (size + 3) / 4;
    BytesOfSlice(b.dma, first, first + n);
    assert Bytes(b.dma)[4 * first..4 * first + size] == Bytes(b.dma)[4 * first..4 * (first + n)][..size];
  }

  /** A logged READ_DMA ioctl. */
  lemma IoctlEntry(b: Bars, op: Op, e: Entry)
    requires op.IoctlOp? && op.Valid(op.dev + 1) && e.job == JobOf(op) && Explained(b, e)
    ensures e.status == 0 ==> op.size <= 4 * |e.values|
    ensures !op.copyIn ==> e.status == EFAULT
    ensures op.copyIn ==>
              IoctlDma(b, op.offset, op.size, op.copyOut)
                == Bulk(e.status, if e.status == 0 then Bytes(e.values)[..op.size] else [])
    ensures Alone(b, e.job, e.env).bars == b
  {
    hide LoadAlone, Bytes, BulkJob;
    if e.job.Loads? {
      PlainLoads(b, e.job.cells, e.env, |e.env|);
      BulkLoads(b, op.offset, op.size, e.env);
      BulkBytes(b, op.offset, op.size);
    }
  }

  /** A dump never fails, and shows every word of both bars. */
  lemma DumpEntry(b: Bars, op: Op, e: Entry)
    requires op.DumpOp? && e.job == JobOf(op) && Explained(b, e)
    ensures e.status == 0 && e.values == b.sys + b.dma
    ensures Alone(b, e.job, e.env).bars == b
  {
    hide LoadAlone;
    PlainLoads(b, e.job.cells, e.env, |e.env|);
  }

  // ---------------------------------------------------------------------------------------------
  // Serializability
  // ---------------------------------------------------------------------------------------------

  /** What no step changes. */
  predicate Continues(s: State, r: State) {
    && |r.threads| == |s.threads| && |r.devs| == |s.devs| && r.initial == s.initial && s.options <= r.options
    && (forall t :: 0 <= t < |s.threads| ==> r.threads[t].op == s.threads[t].op)
    && (forall d :: 0 <= d < |s.devs| ==> r.devs[d].start == s.devs[d].start && s.devs[d].log <= r.devs[d].log)
  }

  lemma StepContinues(s: State, t: nat, c: Choice)
    requires CanStep(s, t) && Inv(s)
    ensures StepOf(s, t, c).Next? ==> Continues(s, StepOf(s, t, c).s)
  {
    hide DeviceStep, Typed, ControlOk, DevOk, Assign;
    var th := s.threads[t];
    assert ThreadOk(s, t);
    if !th.op.OptionsOp? {
      StepTyped(t, th, s.devs[th.op.dev], s.control, s.flags, |s.options|, c);
      StepSeated(t, th, s.devs[th.op.dev], s.control, s.flags, |s.options|, c);
      StepLog(t, th, s.devs[th.op.dev], s.control, s.flags, |s.options|, c);
    }
  }

  lemma {:induction false} RunContinues(s: State, turns: seq<Turn>, n: nat)
    requires Initial(s) && n <= |turns|
    ensures Execute(s, turns, n).Next? ==> Continues(s, Execute(s, turns, n).s)
  {
    hide Inv, Initial, CanStep, StepOf;
    if n > 0 {
      RunContinues(s, turns, n - 1);
      InvAlways(s, turns, n - 1);
      var r := Execute(s, turns, n - 1);
      if r.Next? && CanStep(r.s, turns[n - 1].t) { StepContinues(r.s, turns[n - 1].t, turns[n - 1].choice); }
    }
  }

  /** Only the owner of devMutex changes the bars or gets words from them. */
  lemma BarsOnlyUnderDevMutex(s: State, t: nat, c: Choice, s': State, d: nat)
    requires CanStep(s, t) && Inv(s) && StepOf(s, t, c) == Next(s') && d < |s.devs| == |s'.devs|
    ensures s'.devs[d].bars != s.devs[d].bars ==> s.devs[d].owner == By(t)
    ensures |s'.threads| == |s.threads|
    ensures s'.threads[t].values != s.threads[t].values ==>
              !s.threads[t].op.OptionsOp? && s.devs[s.threads[t].op.dev].owner == By(t)
  {
    hide JobOf, React, Store, Load, LoadStatus, WriteBreaks, DevOk, ControlOk, Honest;
    assert ThreadOk(s, t);
  }

  /** The state of device d in the serial order of its log, started on the bars b. */
  predicate Serialized(b: Bars, r: State, d: nat)
    requires d < |r.devs|
  {
    var log := r.devs[d].log;
    && r.devs[d].bars == Replay(b, log, |log|)
    && r.devs[d].acquired == Order(log) && Distinct(Order(log))
    && (forall k :: 0 <= k < |log| ==> Explained(Replay(b, log, k), log[k]))
    && (forall k :: 0 <= k < |log| ==> Recorded(r.threads, d, log[k]))
    && (forall k :: 0 <= k < |log| ==> FlagsHonored(r, log[k])) && LogInOrder(log)
    && (forall t :: 0 <= t < |r.threads| && CallOn(r.threads[t], d) && r.threads[t].pc.Finished? ==>
          t in Order(log) || (r.threads[t].values == [] && TurnedAway(r.initial, r.options, r.threads[t])))
  }

  /** The flags the call met were flags between two whole option writes, never an older one after a newer one, and
      its own error flag, seen before them, was off. */
  predicate FlagsHonored(r: State, e: Entry) {
    && SamplesHonest(r.initial, r.options, e.env, e.at)
    && e.t < |r.threads| && PassedGate(r.initial, r.options, r.threads[e.t])
    && Ascending(e.at, r.threads[e.t].gateAt, |r.options|)
  }

  predicate CallOn(th: Thread, d: nat) { !th.op.OptionsOp? && th.op.dev == d }

  /** Whenever devMutex of device d is free, in any run: the bars are those of the finished calls done one at a
      time in the order in which they took devMutex, and each of them returned what it returns then, also when it
      failed half-way. The flags they met are flags between two whole option writes, and no word saw an older one
      than a word before it, in its own call or in an earlier one. Every other finished call on the device was
      turned away before devMutex, for a reason, and has no data. */
  lemma Serializable(s: State, turns: seq<Turn>, r: State, d: nat)
    requires Initial(s) && Execute(s, turns, |turns|) == Next(r)
    requires d < |s.devs| == |r.devs| && r.devs[d].owner == Free
    ensures Serialized(s.devs[d].bars, r, d)
  {
    hide Inv, Initial, Explained, Replay, Recorded, FlagsHonored, LogInOrder, TurnedAway, AllInTime;
    hide Execute, Distinct, Order;
    InvAlways(s, turns, |turns|);
    RunContinues(s, turns, |turns|);
    AlwaysInTime(s, turns, |turns|);
    InitialBarsOf(s, d);
    FreeDevice(r, d);
    LogsInOrder(r, d);
    forall k | 0 <= k < |r.devs[d].log|
      ensures FlagsHonored(r, r.devs[d].log[k])
    {
      EntryHonored(r, d, k);
    }
    forall t: nat | t < |r.threads| && CallOn(r.threads[t], d) && r.threads[t].pc.Finished?
      ensures t in r.devs[d].acquired
              || (r.threads[t].values == [] && TurnedAway(r.initial, r.options, r.threads[t]))
    {
      FinishedCall(r, t);
    }
  }

  lemma InitialBarsOf(s: State, d: nat)
    requires Initial(s) && d < |s.devs|
    ensures s.devs[d].start == s.devs[d].bars
  {
  }

  lemma FreeDevice(r: State, d: nat)
    requires Inv(r) && d < |r.devs| && r.devs[d].owner == Free
    ensures var dev := r.devs[d];
            && dev.bars == Replay(dev.start, dev.log, |dev.log|) && LogExplained(dev.start, dev.log)
            && dev.acquired == Order(dev.log) && Distinct(dev.acquired)
            && forall k :: 0 <= k < |dev.log| ==> Recorded(r.threads, d, dev.log[k])
  {
    hide ThreadOk, ControlOk, Replay, Explained, Recorded, Distinct, Order;
    assert DevOk(r.threads, d, r.devs[d]);
  }

  lemma LogsInOrder(r: State, d: nat)
    requires AllInTime(r) && d < |r.devs|
    ensures LogInOrder(r.devs[d].log)
  {
    hide InTime, AllBefore, LogInOrder, Follows;
    assert DevInTime(r.threads, r.devs[d], |r.options|);
  }

  lemma EntryHonored(r: State, d: nat, k: nat)
    requires Inv(r) && AllInTime(r) && d < |r.devs| && r.devs[d].owner == Free && k < |r.devs[d].log|
    ensures FlagsHonored(r, r.devs[d].log[k])
  {
    hide ControlOk, LogExplained, JobOf, SamplesHonest, PassedGate, TurnedAway, Op.Valid, Op.PreCheck, Distinct;
    hide DevInTime, Ascending;
    assert DevOk(r.threads, d, r.devs[d]);
    assert Recorded(r.threads, d, r.devs[d].log[k]);
    assert ThreadOk(r, r.devs[d].log[k].t);
    assert r.devs[d].acquired[k] == r.devs[d].log[k].t;
    assert InTime(r.threads[r.devs[d].log[k].t], |r.options|);
  }

  lemma FinishedCall(r: State, t: nat)
    requires Inv(r) && t < |r.threads| && !r.threads[t].op.OptionsOp? && r.threads[t].pc.Finished?
    ensures r.threads[t].op.dev < |r.devs|
    ensures t in r.devs[r.threads[t].op.dev].acquired
            || (r.threads[t].values == [] && TurnedAway(r.initial, r.options, r.threads[t]))
  {
    hide ControlOk, DevOk, JobOf, SamplesHonest, PassedGate, TurnedAway, Op.Valid, Op.PreCheck;
    assert ThreadOk(r, t);
  }

  // ---------------------------------------------------------------------------------------------
  // Which flag stops which call
  // ---------------------------------------------------------------------------------------------

  /** The error flags a call sampled at its gate. */
  function FlagsAtGate(s: State, th: Thread): P.Flags
    requires th.gateAt <= |s.options|
  {
    FlagsAfter(s.initial, s.options, th.gateAt)
  }

  /** Writes obey the write error flag, reads the read error flag, opens the open error flag: whoever got past it saw
      it off, and whoever was answered with its error saw it on. */
  lemma GatesByName(s: State, t: nat)
    requires Inv(s) && t < |s.threads| && !s.threads[t].op.OptionsOp?
    ensures var th := s.threads[t];
            && th.gateAt <= |s.options|
            && var f, op := FlagsAtGate(s, th), th.op;
               && (th.entered && (op.BlockWriteOp? || op.StructWriteOp?) ==> !f.write)
               && (th.entered && (op.BlockReadOp? || op.StructReadOp?) ==> !f.read)
               && (op.OpenOp? && th.pc == Finished(0) ==> !f.open)
               && (!th.entered && th.pc == Finished(-14) ==>
                     && (op.StructWriteOp? ==> f.write)
                     && (op.BlockWriteOp? ==> f.write || Decode(op.count, op.pos).Refused?)
                     && (op.StructReadOp? ==> f.read)
                     && (op.BlockReadOp? ==> f.read || Decode(op.count, op.pos).Refused?)
                     && !op.OpenOp? && !op.IoctlOp? && !op.DumpOp?)
               && (op.OpenOp? && th.pc == Finished(-22) ==> f.open)
               && (!th.entered && th.pc.Finished? ==>
                     || th.pc.status == -512
                     || th.pc.status == if !op.OpenOp? then -14 else if f.open then -22 else 0)
  {
    hide ControlOk, DevOk, JobOf, SamplesHonest, Op.Valid, FlagsAfter;
    assert ThreadOk(s, t);
  }

  /** What one option write leaves in each flag, by name. */
  lemma FlagsByName(f: P.Flags, options: seq<P.Settings>, n: nat)
    requires n < |options|
    ensures var before, after, o := FlagsAfter(f, options, n), FlagsAfter(f, options, n + 1), options[n];
            && after.open == (if o.open >= 0 then o.open != 0 else before.open)
            && after.read == (if o.read >= 0 then o.read != 0 else before.read)
            && after.write == (if o.write >= 0 then o.write != 0 else before.write)
            && after.spi == (if o.spi >= 0 then o.spi != 0 else before.spi)
    ensures FlagsAfter(f, options, 0) == f
  {
  }

  lemma GatesInEveryRun(s: State, turns: seq<Turn>, r: State, t: nat)
    requires Initial(s) && Execute(s, turns, |turns|) == Next(r) && t < |r.threads| && !r.threads[t].op.OptionsOp?
    ensures var th := r.threads[t];
            && th.gateAt <= |r.options|
            && var f := FlagsAtGate(r, th);
               && (th.entered && (th.op.BlockWriteOp? || th.op.StructWriteOp?) ==> !f.write)
               && (th.entered && (th.op.BlockReadOp? || th.op.StructReadOp?) ==> !f.read)
               && (th.op.OpenOp? && th.pc == Finished(0) ==> !f.open)
               && (th.op.OpenOp? && th.pc == Finished(-22) ==> f.open)
               && (!th.entered && th.pc == Finished(-14) && th.op.StructWriteOp? ==> f.write)
               && (!th.entered && th.pc == Finished(-14) && th.op.StructReadOp? ==> f.read)
  {
    hide Initial, Execute, Inv, FlagsAtGate;
    InvAlways(s, turns, |turns|);
    GatesByName(r, t);
  }
}
