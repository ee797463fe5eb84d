/** Every interleaving of the calls amounts to doing them one at a time in the order of devMutex. */
module Serial {
  import opened Layout
  import opened Firmware
  import opened Transfer
  import opened Locking
  import P = ProcOptions

  // ---------------------------------------------------------------------------------------------
  // The finished calls, done one at a time
  // ---------------------------------------------------------------------------------------------

  predicate Fits(e: Entry) { e.job.Valid() && |e.env| <= e.job.Size() && |e.at| == |e.env| }

  /** The bars once the first n finished calls have been done one after the other. */
  function Replay(start: Bars, log: seq<Entry>, n: nat): Bars
    requires n <= |log|
  {
    if n == 0 then start
    else if !Fits(log[n - 1]) then Replay(start, log, n - 1)
    else Alone(Replay(start, log, n - 1), log[n - 1].job, log[n - 1].env).bars
  }

  /** The job ran to its end or to a failure. */
  predicate Complete(j: Job, env: seq<WordEnv>, status: int) { status != 0 || |env| == j.Size() }

  /** The call returned what it returns when it is done alone on these bars. */
  predicate Explained(b: Bars, e: Entry) {
    && Fits(e) && Complete(e.job, e.env, e.status)
    && Alone(b, e.job, e.env).values == e.values && Alone(b, e.job, e.env).done == e.moved
    && Alone(b, e.job, e.env).status == e.status
  }

  predicate LogExplained(start: Bars, log: seq<Entry>) {
    forall k :: 0 <= k < |log| ==> Explained(Replay(start, log, k), log[k])
  }

  function Now(dev: Dev): Bars { Replay(dev.start, dev.log, |dev.log|) }

  lemma {:induction false} ReplayPrefix(start: Bars, log: seq<Entry>, e: Entry, n: nat)
    requires n <= |log|
    ensures Replay(start, log + [e], n) == Replay(start, log, n)
  {
    if n > 0 { ReplayPrefix(start, log, e, n - 1); }
  }

  lemma LogExtends(start: Bars, log: seq<Entry>, e: Entry)
    requires LogExplained(start, log) && Explained(Replay(start, log, |log|), e)
    ensures LogExplained(start, log + [e])
    ensures Replay(start, log + [e], |log| + 1) == Alone(Replay(start, log, |log|), e.job, e.env).bars
  {
    hide Alone, Complete;
    forall k | 0 <= k < |log| + 1 ensures Explained(Replay(start, log + [e], k), (log + [e])[k]) {
      ReplayPrefix(start, log, e, k);
    }
    ReplayPrefix(start, log, e, |log|);
  }

  // ---------------------------------------------------------------------------------------------
  // One more word of a job
  // ---------------------------------------------------------------------------------------------

  lemma {:induction false} StorePrefix(b: Bars, cells: seq<Cell>, data: seq<Word>, env: seq<WordEnv>, e: WordEnv,
                                       n: nat)
    requires n <= |env| <= |cells| == |data|
    ensures StoreAlone(b, cells, data, env + [e], n) == StoreAlone(b, cells, data, env, n)
  {
    if n > 0 { StorePrefix(b, cells, data, env, e, n - 1); }
  }

  lemma {:induction false} LoadPrefix(b: Bars, cells: seq<Cell>, reader: Reader, env: seq<WordEnv>, e: WordEnv, n: nat)
    requires n <= |env| <= |cells|
    ensures LoadAlone(b, cells, reader, env + [e], n) == LoadAlone(b, cells, reader, env, n)
  {
    if n > 0 { LoadPrefix(b, cells, reader, env, e, n - 1); }
  }

  lemma StoreMore(b: Bars, j: Job, env: seq<WordEnv>, e: WordEnv)
    requires j.Valid() && j.Stores? && |env| < j.Size() && Alone(b, j, env).status == 0
    ensures var s := WriteWord(Alone(b, j, env).bars, j.cells[|env|], j.data[|env|], e);
            var done := Alone(b, j, env).done;
            Alone(b, j, env + [e]) == Outcome(s.bars, [], if s.status == 0 then done + 1 else done, s.status)
    ensures Alone(b, j, env).values == []
  {
    hide WriteWord;
    StorePrefix(b, j.cells, j.data, env, e, |env|);
  }

  lemma LoadMore(b: Bars, j: Job, env: seq<WordEnv>, e: WordEnv)
    requires j.Valid() && j.Loads? && |env| < j.Size() && Alone(b, j, env).status == 0
    ensures var status := LoadStatus(j.cells[|env|], j.reader, e);
            var r := Alone(b, j, env);
            Alone(b, j, env + [e]) ==
            if status != 0 then Outcome(b, r.values, r.done, status)
            else Outcome(b, r.values + [Load(b, j.cells[|env|])], r.done + 1, 0)
    ensures Alone(b, j, env).bars == b
  {
    hide LoadStatus, Load;
    LoadPrefix(b, j.cells, j.reader, env, e, |env|);
  }

  // ---------------------------------------------------------------------------------------------
  // The owner of devMutex
  // ---------------------------------------------------------------------------------------------

  /** How far the owner of devMutex has come, told in terms of doing its job alone. */
  predicate Doing(th: Thread, j: Job, base: Bars, bars: Bars)
    requires Typed(th) && th.pc.HoldsDev() && j == JobOf(th.op)
  {
    var r := Alone(base, j, th.env);
    && r.values == th.values && r.done == th.moved
    && if th.pc.Word? then r.status == 0 && bars == r.bars
       else if th.pc.Leaving? then r.status == th.pc.status && bars == r.bars && Complete(j, th.env, th.pc.status)
       else r.status == 0 && bars == Store(r.bars, j.cells[th.pc.i], j.data[th.pc.i])
  }

  /** The bars are those of the finished calls, or the owner's work on top of them. */
  predicate Accounted(th: Thread, dev: Dev)
    requires Typed(th)
  {
    && LogExplained(dev.start, dev.log)
    && (dev.owner == Free ==> dev.bars == Now(dev))
    && (th.pc.HoldsDev() ==> Doing(th, JobOf(th.op), Now(dev), dev.bars))
  }

  /** Program counter and locks agree. */
  predicate Seated(t: nat, th: Thread, dev: Dev, control: Owner) {
    && (th.pc.HoldsControl() <==> control == By(t))
    && (th.pc.HoldsDev() <==> dev.owner == By(t))
    && (th.entered <==> t in dev.acquired)
  }

  /** What one step may do to a lock. */
  predicate Handover(t: nat, before: Owner, after: Owner) {
    before == after || (before == Free && after == By(t)) || (before == By(t) && after == Free)
  }

  lemma EntryTyped(t: nat, th: Thread, dev: Dev, control: Owner, flags: P.Flags, now: nat, c: Choice)
    requires Typed(th) && !th.pc.HoldsDev()
    ensures var m := DeviceStep(t, th, dev, control, flags, now, c);
            m.Move? ==> Typed(m.thread) && m.thread.op == th.op && !th.pc.Finished?
  {
    hide React, Load, Store, LoadStatus, WriteBreaks;
    hide Op.PreCheck, JobOf, Op.Valid, Op.GateFlag;
  }

  lemma WorkTyped(t: nat, th: Thread, dev: Dev, control: Owner, flags: P.Flags, now: nat, c: Choice)
    requires Typed(th) && th.pc.HoldsDev()
    ensures var m := DeviceStep(t, th, dev, control, flags, now, c);
            m.Move? ==> Typed(m.thread) && m.thread.op == th.op && !th.pc.Finished?
  {
    hide React, Load, Store, LoadStatus, WriteBreaks;
    hide Op.PreCheck, JobOf, Op.Valid, Op.GateFlag;
  }

  lemma StepTyped(t: nat, th: Thread, dev: Dev, control: Owner, flags: P.Flags, now: nat, c: Choice)
    requires Typed(th)
    ensures var m := DeviceStep(t, th, dev, control, flags, now, c);
            m.Move? ==> Typed(m.thread) && m.thread.op == th.op && !th.pc.Finished?
  {
    hide DeviceStep, Typed;
    if th.pc.HoldsDev() {
      WorkTyped(t, th, dev, control, flags, now, c);
    } else {
      EntryTyped(t, th, dev, control, flags, now, c);
    }
  }

  lemma EntrySeated(t: nat, th: Thread, dev: Dev, control: Owner, flags: P.Flags, now: nat, c: Choice)
    requires Typed(th) && Seated(t, th, dev, control) && !th.pc.HoldsDev()
    ensures var m := DeviceStep(t, th, dev, control, flags, now, c);
            m.Move? ==>
              && Seated(t, m.thread, m.dev, m.control)
              && Handover(t, control, m.control) && Handover(t, dev.owner, m.dev.owner)
              && m.dev.start == dev.start
              && (m.dev.acquired == dev.acquired || m.dev.acquired == dev.acquired + [t])
              && (dev.owner != By(t) && m.dev.owner != By(t) ==> m.dev == dev)
  {
    hide React, Load, Store, LoadStatus, WriteBreaks;
    hide Op.PreCheck, JobOf, Op.Valid, Op.GateFlag;
  }

  lemma WorkSeated(t: nat, th: Thread, dev: Dev, control: Owner, flags: P.Flags, now: nat, c: Choice)
    requires Typed(th) && Seated(t, th, dev, control) && th.pc.HoldsDev()
    ensures var m := DeviceStep(t, th, dev, control, flags, now, c);
            m.Move? ==>
              && Seated(t, m.thread, m.dev, m.control)
              && Handover(t, control, m.control) && Handover(t, dev.owner, m.dev.owner)
              && m.dev.start == dev.start
              && (m.dev.acquired == dev.acquired || m.dev.acquired == dev.acquired + [t])
              && (dev.owner != By(t) && m.dev.owner != By(t) ==> m.dev == dev)
  {
    hide React, Load, Store, LoadStatus, WriteBreaks;
    hide Op.PreCheck, JobOf, Op.Valid, Op.GateFlag;
  }

  lemma StepSeated(t: nat, th: Thread, dev: Dev, control: Owner, flags: P.Flags, now: nat, c: Choice)
    requires Typed(th) && Seated(t, th, dev, control)
    ensures var m := DeviceStep(t, th, dev, control, flags, now, c);
            m.Move? ==>
              && Seated(t, m.thread, m.dev, m.control)
              && Handover(t, control, m.control) && Handover(t, dev.owner, m.dev.owner)
              && m.dev.start == dev.start
              && (m.dev.acquired == dev.acquired || m.dev.acquired == dev.acquired + [t])
              && (dev.owner != By(t) && m.dev.owner != By(t) ==> m.dev == dev)
  {
    hide DeviceStep, Typed, Seated, Handover;
    if th.pc.HoldsDev() {
      WorkSeated(t, th, dev, control, flags, now, c);
    } else {
      EntrySeated(t, th, dev, control, flags, now, c);
    }
  }

  /** The log grows when devMutex is released, the order of acquisition when it is taken. */
  lemma StepLog(t: nat, th: Thread, dev: Dev, control: Owner, flags: P.Flags, now: nat, c: Choice)
    requires Typed(th) && (th.pc.HoldsDev() <==> dev.owner == By(t))
    ensures var m := DeviceStep(t, th, dev, control, flags, now, c);
            m.Move? ==>
              && m.dev.acquired == (if th.pc.HoldsDev() || m.dev.owner == dev.owner then dev.acquired
                                    else dev.acquired + [t])
              && (th.pc.Leaving? <==> th.pc.HoldsDev() && m.dev.owner == Free)
              && (th.pc.Leaving? ==> m.thread == th.(pc := Finished(th.pc.status)))
              && m.dev.log == if th.pc.Leaving?
                              then dev.log + [EntryOf(t, th, JobOf(th.op), th.pc.status)]
                              else dev.log
  {
    hide React, Load, Store, LoadStatus, WriteBreaks;
    hide Op.PreCheck, JobOf, Op.Valid, Op.GateFlag;
  }

  // One lemma for each place the owner of devMutex can be at; base is what the bars held when it came in.

  lemma EntryAccounted(t: nat, th: Thread, dev: Dev, control: Owner, flags: P.Flags, now: nat, c: Choice)
    requires Typed(th) && Accounted(th, dev) && !th.pc.HoldsDev()
    ensures var m := DeviceStep(t, th, dev, control, flags, now, c);
            m.Move? ==> Typed(m.thread) && Accounted(m.thread, m.dev)
  {
    hide LogExplained, Replay, React, Load, Store, LoadStatus, WriteBreaks, Op.PreCheck, JobOf, Op.Valid, Op.GateFlag;
    EntryTyped(t, th, dev, control, flags, now, c);
  }

  lemma LoadDoing(t: nat, th: Thread, j: Job, dev: Dev, control: Owner, spi: bool, now: nat, c: Choice, base: Bars)
    requires Typed(th) && th.pc.Word? && j == JobOf(th.op) && j.Loads? && Doing(th, j, base, dev.bars)
    ensures var m := WorkStep(t, th, j, dev, control, spi, now, c);
            m.Move? && Typed(m.thread) && m.dev == dev && m.thread.op == th.op && m.thread.pc.HoldsDev() &&
            Doing(m.thread, j, base, m.dev.bars)
  {
    hide Alone, JobOf, Load, LoadStatus, Op.PreCheck, Op.Valid;
    var e := if c == CopyFail then NO_COPY else OK;
    if th.pc.i < j.Size() { LoadMore(base, j, th.env, e); }
  }

  lemma StoreDoing(t: nat, th: Thread, j: Job, dev: Dev, control: Owner, spi: bool, now: nat, c: Choice, base: Bars)
    requires Typed(th) && th.pc.Word? && j == JobOf(th.op) && j.Stores? && Doing(th, j, base, dev.bars)
    ensures var m := WorkStep(t, th, j, dev, control, spi, now, c);
            m.Move? && Typed(m.thread) && m.dev == dev.(bars := m.dev.bars) && m.thread.op == th.op &&
            m.thread.pc.HoldsDev() && Doing(m.thread, j, base, m.dev.bars)
  {
    hide Alone, JobOf, Store, Op.PreCheck, Op.Valid;
    if th.pc.i < j.Size() && c == CopyFail { StoreMore(base, j, th.env, NO_COPY); }
  }

  lemma ReactDoing(t: nat, th: Thread, j: Job, dev: Dev, control: Owner, spi: bool, now: nat, c: Choice, base: Bars)
    requires Typed(th) && th.pc.Acting?
    requires j == JobOf(th.op) && Doing(th, j, base, dev.bars)
    ensures var m := WorkStep(t, th, j, dev, control, spi, now, c);
            m.Move? ==>
              Typed(m.thread) && m.dev == dev.(bars := m.dev.bars) && m.thread.op == th.op &&
              m.thread.pc.HoldsDev() && Doing(m.thread, j, base, m.dev.bars)
  {
    hide Alone, JobOf, Store, React, Op.PreCheck, Op.Valid, Op.GateFlag, LogExplained, Replay;
    StoreMore(base, j, th.env, WordEnv(true, Sampled(th.pc.flag)));
  }

  lemma LockDoing(t: nat, th: Thread, j: Job, dev: Dev, control: Owner, spi: bool, now: nat, c: Choice, base: Bars)
    requires Typed(th) && (th.pc.Stored? || th.pc.ActHeld? || th.pc.ActSampled?)
    requires j == JobOf(th.op) && Doing(th, j, base, dev.bars)
    ensures var m := WorkStep(t, th, j, dev, control, spi, now, c);
            m.Move? ==>
              Typed(m.thread) && m.dev == dev.(bars := m.dev.bars) && m.thread.op == th.op &&
              m.thread.pc.HoldsDev() && Doing(m.thread, j, base, m.dev.bars)
  {
    hide Alone, JobOf, Store, Op.PreCheck, Op.Valid, Op.GateFlag, LogExplained, Replay;
    StoreMore(base, j, th.env, OK);
  }

  lemma ActDoing(t: nat, th: Thread, j: Job, dev: Dev, control: Owner, spi: bool, now: nat, c: Choice, base: Bars)
    requires Typed(th) && th.pc.HoldsDev() && !th.pc.Word? && !th.pc.Leaving?
    requires j == JobOf(th.op) && Doing(th, j, base, dev.bars)
    ensures var m := WorkStep(t, th, j, dev, control, spi, now, c);
            m.Move? ==>
              Typed(m.thread) && m.dev == dev.(bars := m.dev.bars) && m.thread.op == th.op &&
              m.thread.pc.HoldsDev() && Doing(m.thread, j, base, m.dev.bars)
  {
    hide WorkStep, Doing, JobOf, Op.PreCheck, Op.Valid;
    if th.pc.Acting? {
      ReactDoing(t, th, j, dev, control, spi, now, c, base);
    } else {
      LockDoing(t, th, j, dev, control, spi, now, c, base);
    }
  }

  lemma LeaveAccounted(t: nat, th: Thread, dev: Dev, control: Owner, flags: P.Flags, now: nat, c: Choice)
    requires Typed(th) && Accounted(th, dev) && th.pc.Leaving?
    ensures var m := DeviceStep(t, th, dev, control, flags, now, c);
            m.Move? && Typed(m.thread) && Accounted(m.thread, m.dev)
  {
    hide Alone, Complete, Replay, JobOf, Op.PreCheck, Op.Valid, Op.GateFlag, LogExplained;
    var j := JobOf(th.op);
    var e := EntryOf(t, th, j, th.pc.status);
    assert Explained(Now(dev), e);
    LogExtends(dev.start, dev.log, e);
  }

  lemma StepAccounted(t: nat, th: Thread, dev: Dev, control: Owner, flags: P.Flags, now: nat, c: Choice)
    requires Typed(th) && Accounted(th, dev) && (th.pc.HoldsDev() <==> dev.owner == By(t))
    ensures var m := DeviceStep(t, th, dev, control, flags, now, c);
            m.Move? ==> Typed(m.thread) && Accounted(m.thread, m.dev)
  {
    hide Alone, Doing, Complete, Replay, JobOf, Op.PreCheck, Op.Valid, Op.GateFlag, LogExplained, WorkStep, EntryStep;
    if !th.pc.HoldsDev() {
      EntryAccounted(t, th, dev, control, flags, now, c);
    } else if th.pc.Leaving? {
      LeaveAccounted(t, th, dev, control, flags, now, c);
    } else if !th.pc.Word? {
      ActDoing(t, th, JobOf(th.op), dev, control, flags.spi, now, c, Now(dev));
    } else if JobOf(th.op).Loads? {
      LoadDoing(t, th, JobOf(th.op), dev, control, flags.spi, now, c, Now(dev));
    } else {
      StoreDoing(t, th, JobOf(th.op), dev, control, flags.spi, now, c, Now(dev));
    }
  }

  // ---------------------------------------------------------------------------------------------
  // The sampled flags
  // ---------------------------------------------------------------------------------------------

  /** Every flag a word was given is the flag after some number of whole option writes. */
  predicate SamplesHonest(f: P.Flags, options: seq<P.Settings>, env: seq<WordEnv>, at: seq<nat>) {
    && |env| == |at|
    && forall k :: 0 <= k < |env| ==>
      at[k] <= |options| && (env[k].control.Sampled? ==> env[k].control.flag == FlagsAfter(f, options, at[k]).spi)
  }

  predicate Honest(f: P.Flags, options: seq<P.Settings>, th: Thread)
    requires Typed(th)
  {
    && SamplesHonest(f, options, th.env, th.at)
    && th.gateAt <= |options|
    && (th.pc.ActSampled? || th.pc.Acting? ==>
          th.stamp <= |options| && th.pc.flag == FlagsAfter(f, options, th.stamp).spi)
    && (th.pc.GateSampled? ==> th.pc.flag == th.op.GateFlag(FlagsAfter(f, options, th.gateAt)))
    && (th.pc.WaitDev? || th.entered ==> PassedGate(f, options, th))
    && (th.pc.Finished? && !th.entered ==> TurnedAway(f, options, th))
  }

  /** The error flag of the call was off when it was sampled, after gateAt whole option writes. */
  predicate PassedGate(f: P.Flags, options: seq<P.Settings>, th: Thread) {
    th.op.Gated() ==> th.gateAt <= |options| && !th.op.GateFlag(FlagsAfter(f, options, th.gateAt))
  }

  /** Why a call ended without taking devMutex: a signal, its error flag, a refused request, or because it is an
      open, which needs nothing else. */
  predicate TurnedAway(f: P.Flags, options: seq<P.Settings>, th: Thread)
    requires th.pc.Finished?
  {
    || th.pc.status == ERESTARTSYS
    || (&& th.op.Gated() && th.gateAt <= |options| && th.op.GateFlag(FlagsAfter(f, options, th.gateAt))
        && th.pc.status == th.op.GateStatus())
    || (PassedGate(f, options, th) && th.pc.status == th.op.PreCheck() != 0)
    || (PassedGate(f, options, th) && th.op.OpenOp? && th.pc.status == 0)
  }

  lemma SampleAdded(f: P.Flags, options: seq<P.Settings>, env: seq<WordEnv>, at: seq<nat>, e: WordEnv, n: nat)
    requires SamplesHonest(f, options, env, at) && n <= |options|
    requires e.control.Sampled? ==> e.control.flag == FlagsAfter(f, options, n).spi
    ensures SamplesHonest(f, options, env + [e], at + [n])
  {
    hide FlagsAfter;
  }

  lemma EntryHonest(f: P.Flags, options: seq<P.Settings>, t: nat, th: Thread, dev: Dev, control: Owner,
                    flags: P.Flags, c: Choice)
    requires Typed(th) && Honest(f, options, th) && !th.pc.HoldsDev()
    requires th.pc.HoldsControl() ==> flags == FlagsAfter(f, options, |options|)
    ensures var m := DeviceStep(t, th, dev, control, flags, |options|, c);
            m.Move? ==> Typed(m.thread) && Honest(f, options, m.thread)
  {
    hide FlagsAfter, Op.PreCheck, Op.Valid, Op.GateFlag, JobOf;
    EntryTyped(t, th, dev, control, flags, |options|, c);
  }

  lemma WorkHonest(f: P.Flags, options: seq<P.Settings>, t: nat, th: Thread, dev: Dev, control: Owner,
                   flags: P.Flags, c: Choice)
    requires Typed(th) && Honest(f, options, th) && th.pc.HoldsDev()
    requires th.pc.HoldsControl() ==> flags == FlagsAfter(f, options, |options|)
    ensures var m := DeviceStep(t, th, dev, control, flags, |options|, c);
            m.Move? ==> Typed(m.thread) && Honest(f, options, m.thread)
  {
    hide FlagsAfter, Op.PreCheck, Op.Valid, Op.GateFlag, JobOf;
    hide React, Store, Load, LoadStatus, WriteBreaks, SamplesHonest;
    WorkTyped(t, th, dev, control, flags, |options|, c);
    if th.pc.Acting? {
      SampleAdded(f, options, th.env, th.at, WordEnv(true, Sampled(th.pc.flag)), th.stamp);
    } else if th.pc.Word? || th.pc.Stored? {
      SampleAdded(f, options, th.env, th.at, OK, |options|);
      SampleAdded(f, options, th.env, th.at, NO_COPY, |options|);
    }
  }

  lemma {:induction false} FlagsPrefix(f: P.Flags, options: seq<P.Settings>, x: P.Settings, n: nat)
    requires n <= |options|
    ensures FlagsAfter(f, options + [x], n) == FlagsAfter(f, options, n)
  {
    if n > 0 { FlagsPrefix(f, options, x, n - 1); }
  }

  lemma HonestGrows(f: P.Flags, options: seq<P.Settings>, x: P.Settings, th: Thread)
    requires Typed(th) && Honest(f, options, th)
    ensures Honest(f, options + [x], th)
  {
    hide FlagsAfter, Op.GateFlag, JobOf, Op.Valid, Op.PreCheck;
    forall n: nat | n <= |options| ensures FlagsAfter(f, options + [x], n) == FlagsAfter(f, options, n) {
      FlagsPrefix(f, options, x, n);
    }
  }

  /** The four assignments of a commit, one at a time. */
  lemma CommitInParts(f: P.Flags, t: P.Settings)
    ensures Partly(f, t, 0) == f && Partly(f, t, 4) == P.Commit(f, t)
    ensures forall k: nat | k < 4 :: Partly(f, t, k + 1) == Assign(Partly(f, t, k), t, k)
  {
  }
}
