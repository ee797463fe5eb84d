/** No deadlock, and every schedule ends: a measure bounded by the words of the calls falls with every step. */
module Progress {
  import opened Layout
  import opened Firmware
  import opened StructPath
  import opened Locking
  import opened Serial
  import opened Interleaving
  import P = ProcOptions

  // ---------------------------------------------------------------------------------------------
  // The measure
  // ---------------------------------------------------------------------------------------------

  /** The words a call moves at most. */
  function WordsOf(op: Op): nat {
    if !op.Enters() || op.PreCheck() != 0 || !op.Valid(op.dev + 1) then 0 else JobOf(op).Size()
  }

  lemma WordsAreClipped(op: Op)
    ensures WordsOf(op) <= match op
                           case BlockWriteOp(_, _, count, _) => Min(count / 4, DMA_WORDS)
                           case BlockReadOp(_, _, count) => Min(count / 4, DMA_WORDS)
                           case StructWriteOp(_, _, _, _) => 1
                           case StructReadOp(_, q, _, _, _) =>
                             if q.mode == RW_DMA then Min((q.size + 3) / 4, DMA_WORDS) else 1
                           case IoctlOp(_, _, size, _, _) => Min((size + 3) / 4, DMA_WORDS)
                           case OpenOp(_) => 0
                           case DumpOp(_) => N_REGISTERS + DMA_WORDS
                           case OptionsOp(_) => 0
  {
  }

  /** At most this many more steps. */
  function Rank(th: Thread): nat {
    var n := WordsOf(th.op);
    match th.pc
    case Finished(_) => 0
    case Leaving(_) => 1
    case Commit(k) => if k < 5 then 5 - k else 0
    case Start => 5 * n + 6
    case GateHeld => 5 * n + 5
    case GateSampled(_) => 5 * n + 4
    case WaitDev => 5 * n + 3
    case Word(i) => if i <= n then 5 * (n - i) + 2 else 0
    case Stored(i) => if i < n then 5 * (n - i) + 1 else 0
    case ActHeld(i) => if i < n then 5 * (n - i) else 0
    case ActSampled(i, _) => if i < n then 5 * (n - i) - 1 else 0
    case Acting(i, _) => if i < n then 5 * (n - i) - 2 else 0
  }

  lemma EntryRank(t: nat, th: Thread, dev: Dev, control: Owner, flags: P.Flags, now: nat, c: Choice)
    requires Typed(th) && !th.pc.HoldsDev()
    ensures var m := DeviceStep(t, th, dev, control, flags, now, c); m.Move? ==> Rank(m.thread) < Rank(th)
  {
    hide JobOf, Op.PreCheck, Op.Valid, Op.GateFlag;
  }

  lemma WorkRank(t: nat, th: Thread, dev: Dev, control: Owner, flags: P.Flags, now: nat, c: Choice)
    requires Typed(th) && th.pc.HoldsDev()
    ensures var m := DeviceStep(t, th, dev, control, flags, now, c); m.Move? ==> Rank(m.thread) < Rank(th)
  {
    hide JobOf, Op.PreCheck, Op.Valid, Op.GateFlag, React, Store, Load, LoadStatus, WriteBreaks;
  }

  lemma OptionRank(s: State, t: nat, c: Choice, s': State)
    requires t < |s.threads| && s.threads[t].op.OptionsOp? && ThreadOk(s, t) && OptionStep(s, t, c) == Next(s')
    ensures |s'.threads| == |s.threads| && s'.threads == s.threads[t := s'.threads[t]]
    ensures Rank(s'.threads[t]) < Rank(s.threads[t])
  {
    hide WordsOf;
  }

  function TotalRank(threads: seq<Thread>, n: nat): nat
    requires n <= |threads|
  {
    if n == 0 then 0 else TotalRank(threads, n - 1) + Rank(threads[n - 1])
  }

  lemma {:induction false} TotalFalls(threads: seq<Thread>, t: nat, x: Thread, n: nat)
    requires t < |threads| && n <= |threads| && Rank(x) < Rank(threads[t])
    ensures if n <= t then TotalRank(threads[t := x], n) == TotalRank(threads, n)
            else TotalRank(threads[t := x], n) < TotalRank(threads, n)
  {
    hide Rank;
    if n > 0 { TotalFalls(threads, t, x, n - 1); }
  }

  lemma StepFalls(s: State, t: nat, c: Choice, s': State)
    requires CanStep(s, t) && Inv(s) && StepOf(s, t, c) == Next(s')
    ensures TotalRank(s'.threads, |s'.threads|) < TotalRank(s.threads, |s.threads|)
  {
    hide TotalRank, Rank, DeviceStep, Typed, ControlOk, DevOk, OptionStep;
    var th := s.threads[t];
    assert ThreadOk(s, t);
    if th.op.OptionsOp? {
      StepIsOption(s, t, c);
      OptionRank(s, t, c, s');
    } else if th.pc.HoldsDev() {
      WorkRank(t, th, s.devs[th.op.dev], s.control, s.flags, |s.options|, c);
    } else {
      EntryRank(t, th, s.devs[th.op.dev], s.control, s.flags, |s.options|, c);
    }
    TotalFalls(s.threads, t, s'.threads[t], |s.threads|);
  }

  /** No schedule is longer than the measure of its first state. */
  lemma {:induction false} SchedulesAreBounded(s: State, turns: seq<Turn>, n: nat)
    requires Initial(s) && n <= |turns| && Execute(s, turns, n).Next?
    ensures var r := Execute(s, turns, n).s;
            n + TotalRank(r.threads, |r.threads|) <= TotalRank(s.threads, |s.threads|)
  {
    hide Inv, Initial, CanStep, StepOf, TotalRank;
    if n > 0 {
      var r := Execute(s, turns, n - 1);
      SchedulesAreBounded(s, turns, n - 1);
      InvAlways(s, turns, n - 1);
      StepFalls(r.s, turns[n - 1].t, turns[n - 1].choice, Execute(s, turns, n).s);
    }
  }

  // ---------------------------------------------------------------------------------------------
  // No deadlock
  // ---------------------------------------------------------------------------------------------

  predicate Enabled(s: State, t: nat) { CanStep(s, t) && StepOf(s, t, Go).Next? }

  lemma HolderMoves(s: State, t: nat)
    requires Inv(s) && t < |s.threads| && s.control == By(t)
    ensures Enabled(s, t)
  {
    hide JobOf, Op.PreCheck, Op.Valid, DevOk, Honest, ControlOk;
    assert ThreadOk(s, t);
  }

  lemma OwnerMoves(s: State, t: nat, d: nat)
    requires Inv(s) && d < |s.devs| && s.devs[d].owner == By(t) && s.control == Free
    ensures Enabled(s, t)
  {
    hide JobOf, Op.PreCheck, Op.Valid, Honest, ControlOk, Doing, LogExplained, Recorded;
    assert DevOk(s.threads, d, s.devs[d]);
    assert ThreadOk(s, t);
  }

  lemma WaiterMoves(s: State, t: nat)
    requires Inv(s) && t < |s.threads| && !s.threads[t].pc.Finished? && s.control == Free
    requires forall d :: 0 <= d < |s.devs| ==> s.devs[d].owner == Free
    ensures Enabled(s, t)
  {
    hide JobOf, Op.PreCheck, Op.Valid, Honest, ControlOk, DevOk;
    assert ThreadOk(s, t);
  }

  /** As long as a call is unfinished, some thread can move without a signal and without a failing copy. */
  lemma NoDeadlock(s: State, t: nat) returns (u: nat)
    requires Inv(s) && t < |s.threads| && !s.threads[t].pc.Finished?
    ensures Enabled(s, u)
  {
    hide DevOk, ThreadOk, Enabled;
    if s.control.By? {
      u := s.control.t;
      HolderMoves(s, u);
    } else if d :| 0 <= d < |s.devs| && s.devs[d].owner != Free {
      u := s.devs[d].owner.t;
      OwnerMoves(s, u, d);
    } else {
      u := t;
      WaiterMoves(s, t);
    }
  }

  /** A run that cannot go on has finished every call and released every lock. */
  lemma RunsEndClean(s: State, turns: seq<Turn>, r: State)
    requires Initial(s) && Execute(s, turns, |turns|) == Next(r)
    requires forall u: nat :: !Enabled(r, u)
    ensures r.control == Free
    ensures forall t :: 0 <= t < |r.threads| ==> r.threads[t].pc.Finished?
    ensures forall d :: 0 <= d < |r.devs| ==> r.devs[d].owner == Free
  {
    hide Enabled, Initial, Execute;
    InvAlways(s, turns, |turns|);
    forall t | 0 <= t < |r.threads| ensures r.threads[t].pc.Finished? {
      if !r.threads[t].pc.Finished? { var u := NoDeadlock(r, t); }
    }
    AllFinished(r);
  }

  lemma AllFinished(r: State)
    requires Inv(r) && forall t :: 0 <= t < |r.threads| ==> r.threads[t].pc.Finished?
    ensures r.control == Free && forall d :: 0 <= d < |r.devs| ==> r.devs[d].owner == Free
  {
    hide Typed, Honest, Doing, LogExplained, Recorded;
    HolderIsBusy(r);
    forall d | 0 <= d < |r.devs| ensures r.devs[d].owner == Free { assert DevOk(r.threads, d, r.devs[d]); }
  }

  lemma HolderIsBusy(s: State)
    requires Inv(s)
    ensures s.control.By? ==> s.control.t < |s.threads| && !s.threads[s.control.t].pc.Finished?
  {
    hide Typed, Honest, DevOk, FlagsAfter;
    if s.control.By? { assert ThreadOk(s, s.control.t); }
  }
}
