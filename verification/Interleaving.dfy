/** The invariant of all reachable states, for any number of threads and devices. */
module Interleaving {
  import opened Locking
  import opened Serial
  import P = ProcOptions

  predicate ThreadOk(s: State, t: nat)
    requires t < |s.threads|
  {
    var th := s.threads[t];
    && (th.pc.HoldsControl() <==> s.control == By(t))
    && if th.op.OptionsOp? then th.pc.Start? || th.pc.Finished? || (th.pc.Commit? && th.pc.k <= 4)
       else
         && th.op.dev < |s.devs| && Typed(th)
         && Seated(t, th, s.devs[th.op.dev], s.control)
         && Honest(s.initial, s.options, th)
  }

  /** The owner of devMutex is a thread at work on this very device. */
  predicate Works(threads: seq<Thread>, d: nat, dev: Dev, t: nat) {
    && t < |threads| && !threads[t].op.OptionsOp? && threads[t].op.dev == d
    && Typed(threads[t]) && threads[t].pc.HoldsDev()
    && Doing(threads[t], JobOf(threads[t].op), Now(dev), dev.bars)
  }

  /** A log entry tells what the call of its thread was and returned. */
  predicate Recorded(threads: seq<Thread>, d: nat, e: Entry) {
    && e.t < |threads|
    && var th := threads[e.t];
    && th.op.Enters() && th.op.dev == d && th.op.PreCheck() == 0 && th.op.Valid(d + 1)
    && e.job == JobOf(th.op) && th.pc == Finished(e.status)
    && e.env == th.env && e.at == th.at && e.values == th.values && e.moved == th.moved
  }

  function Order(log: seq<Entry>): (r: seq<nat>)
    ensures |r| == |log| && forall k :: 0 <= k < |log| ==> r[k] == log[k].t
  {
    seq(|log|, k requires 0 <= k < |log| => log[k].t)
  }

  predicate Distinct(ts: seq<nat>) { forall i, j :: 0 <= i < j < |ts| ==> ts[i] != ts[j] }

  predicate DevOk(threads: seq<Thread>, d: nat, dev: Dev) {
    && LogExplained(dev.start, dev.log) && Distinct(dev.acquired)
    && (dev.owner == Free ==> dev.bars == Now(dev) && dev.acquired == Order(dev.log))
    && (dev.owner.By? ==> Works(threads, d, dev, dev.owner.t) && dev.acquired == Order(dev.log) + [dev.owner.t])
    && forall k :: 0 <= k < |dev.log| ==> Recorded(threads, d, dev.log[k])
  }

  /** Outside a commit the flags are those after some number of whole option writes. */
  predicate ControlOk(s: State) {
    var f := FlagsAfter(s.initial, s.options, |s.options|);
    && (s.control.By? ==> s.control.t < |s.threads|)
    && (s.control.By? && s.threads[s.control.t].pc.Commit? && s.threads[s.control.t].op.OptionsOp? ==>
          s.flags == Partly(f, s.threads[s.control.t].op.settings, s.threads[s.control.t].pc.k))
    && (s.control.By? && !s.threads[s.control.t].op.OptionsOp? ==> s.flags == f)
    && (s.control == Free ==> s.flags == f)
  }

  predicate Inv(s: State) {
    && ControlOk(s)
    && (forall t: nat :: t < |s.threads| ==> ThreadOk(s, t))
    && (forall d: nat :: d < |s.devs| ==> DevOk(s.threads, d, s.devs[d]))
  }

  // ---------------------------------------------------------------------------------------------
  // Steps of device calls
  // ---------------------------------------------------------------------------------------------

  /** A device nobody else touched is still in order when a thread of another device, or one that is only
      getting ready, moves on. */
  lemma DevKept(threads: seq<Thread>, d: nat, dev: Dev, t: nat, x: Thread)
    requires DevOk(threads, d, dev) && t < |threads| && !threads[t].pc.Finished?
    requires dev.owner != By(t)
    ensures DevOk(threads[t := x], d, dev)
  {
    hide Doing, LogExplained, JobOf, Typed, Op.PreCheck, Op.Valid, Replay, Order;
  }

  lemma RecordsKept(threads: seq<Thread>, d: nat, log: seq<Entry>, t: nat, x: Thread)
    requires t < |threads| && !threads[t].pc.Finished?
    requires forall k :: 0 <= k < |log| ==> Recorded(threads, d, log[k])
    ensures forall k :: 0 <= k < |log| ==> Recorded(threads[t := x], d, log[k])
  {
    hide JobOf, Op.PreCheck, Op.Valid;
  }

  /** The step releases devMutex. */
  lemma Leaves(threads: seq<Thread>, t: nat, dev: Dev, x: Thread, dev': Dev)
    requires t < |threads| && !threads[t].op.OptionsOp? && Typed(threads[t]) && threads[t].pc.Leaving?
    requires dev.owner == By(t) && DevOk(threads, threads[t].op.dev, dev)
    requires Typed(x) && x == threads[t].(pc := Finished(threads[t].pc.status))
    requires Accounted(x, dev') && dev'.owner == Free && dev'.acquired == dev.acquired
    requires dev'.log == dev.log + [EntryOf(t, x, JobOf(x.op), x.pc.status)]
    ensures DevOk(threads[t := x], x.op.dev, dev')
  {
    hide Doing, LogExplained, JobOf, Replay;
    RecordsKept(threads, x.op.dev, dev.log, t, x);
    assert Order(dev'.log) == Order(dev.log) + [t];
    var after := threads[t := x];
    assert Recorded(after, x.op.dev, dev'.log[|dev.log|]);
    assert forall k :: 0 <= k < |dev.log| ==> dev'.log[k] == dev.log[k];
  }

  /** The step takes devMutex or works under it. */
  lemma Holds(threads: seq<Thread>, t: nat, dev: Dev, x: Thread, dev': Dev)
    requires t < |threads| && !threads[t].op.OptionsOp? && !threads[t].pc.Finished?
    requires DevOk(threads, threads[t].op.dev, dev) && (dev.owner == Free || dev.owner == By(t))
    requires Typed(x) && x.op == threads[t].op && x.pc.HoldsDev() && Accounted(x, dev') && dev'.owner == By(t)
    requires dev'.acquired == if dev.owner == Free then dev.acquired + [t] else dev.acquired
    requires dev'.log == dev.log
    ensures DevOk(threads[t := x], x.op.dev, dev')
  {
    hide Doing, LogExplained, JobOf, Replay;
    RecordsKept(threads, x.op.dev, dev.log, t, x);
  }

  lemma DevStepped(threads: seq<Thread>, t: nat, dev: Dev, control: Owner, flags: P.Flags, now: nat, c: Choice)
    requires t < |threads| && !threads[t].op.OptionsOp? && Typed(threads[t])
    requires Seated(t, threads[t], dev, control) && DevOk(threads, threads[t].op.dev, dev)
    ensures var m := DeviceStep(t, threads[t], dev, control, flags, now, c);
            m.Move? ==> DevOk(threads[t := m.thread], threads[t].op.dev, m.dev)
  {
    hide Doing, LogExplained, JobOf, Typed, Op.PreCheck, Op.Valid, Replay, DeviceStep, Recorded, Order;
    var th := threads[t];
    var m := DeviceStep(t, th, dev, control, flags, now, c);
    if m.Move? {
      StepTyped(t, th, dev, control, flags, now, c);
      StepSeated(t, th, dev, control, flags, now, c);
      if dev.owner != By(t) && m.dev.owner != By(t) {
        DevKept(threads, th.op.dev, dev, t, m.thread);
      } else {
        StepLog(t, th, dev, control, flags, now, c);
        StepAccounted(t, th, dev, control, flags, now, c);
        if th.pc.Leaving? {
          Leaves(threads, t, dev, m.thread, m.dev);
        } else {
          Holds(threads, t, dev, m.thread, m.dev);
        }
      }
    }
  }

  /** What a step of thread t means to thread u. */
  lemma OtherThread(s: State, t: nat, u: nat, x: Thread, dev': Dev, control': Owner)
    requires t < |s.threads| && u < |s.threads| && u != t && ThreadOk(s, u)
    requires !s.threads[t].op.OptionsOp? && s.threads[t].op.dev < |s.devs| && x.op == s.threads[t].op
    requires var dev := s.devs[x.op.dev];
             && Handover(t, s.control, control') && Handover(t, dev.owner, dev'.owner)
             && (dev'.acquired == dev.acquired || dev'.acquired == dev.acquired + [t])
    ensures ThreadOk(s.(threads := s.threads[t := x], devs := s.devs[x.op.dev := dev'], control := control'), u)
  {
    hide Typed, Honest;
  }

  lemma DeviceStepControl(s: State, t: nat, c: Choice)
    requires CanStep(s, t) && !s.threads[t].op.OptionsOp? && ControlOk(s) && ThreadOk(s, t)
    ensures StepOf(s, t, c).Next? ==> ControlOk(StepOf(s, t, c).s)
  {
    hide Typed, Honest, DeviceStep, FlagsAfter, Partly;
    StepSeated(t, s.threads[t], s.devs[s.threads[t].op.dev], s.control, s.flags, |s.options|, c);
    StepTyped(t, s.threads[t], s.devs[s.threads[t].op.dev], s.control, s.flags, |s.options|, c);
  }

  lemma DeviceStepThread(s: State, t: nat, c: Choice)
    requires CanStep(s, t) && !s.threads[t].op.OptionsOp? && ControlOk(s) && ThreadOk(s, t)
    ensures StepOf(s, t, c).Next? ==> ThreadOk(StepOf(s, t, c).s, t)
  {
    hide Typed, Honest, DeviceStep, FlagsAfter, Partly;
    var th := s.threads[t];
    StepSeated(t, th, s.devs[th.op.dev], s.control, s.flags, |s.options|, c);
    StepTyped(t, th, s.devs[th.op.dev], s.control, s.flags, |s.options|, c);
    if th.pc.HoldsDev() {
      WorkHonest(s.initial, s.options, t, th, s.devs[th.op.dev], s.control, s.flags, c);
    } else {
      EntryHonest(s.initial, s.options, t, th, s.devs[th.op.dev], s.control, s.flags, c);
    }
  }

  lemma DeviceStepInv(s: State, t: nat, c: Choice)
    requires CanStep(s, t) && !s.threads[t].op.OptionsOp? && Inv(s)
    ensures StepOf(s, t, c).Next? ==> Inv(StepOf(s, t, c).s)
  {
    hide Typed, DeviceStep, ThreadOk, DevOk, ControlOk, Seated, Handover;
    var th := s.threads[t];
    var r := StepOf(s, t, c);
    if r.Next? {
      var d := th.op.dev;
      assert ThreadOk(s, t) && DevOk(s.threads, d, s.devs[d]);
      SeatOf(s, t);
      DeviceStepControl(s, t, c);
      DeviceStepThread(s, t, c);
      StepTyped(t, th, s.devs[d], s.control, s.flags, |s.options|, c);
      StepSeated(t, th, s.devs[d], s.control, s.flags, |s.options|, c);
      DevStepped(s.threads, t, s.devs[d], s.control, s.flags, |s.options|, c);
      forall u: nat | u < |r.s.threads| && u != t ensures ThreadOk(r.s, u) {
        OtherThread(s, t, u, r.s.threads[t], r.s.devs[d], r.s.control);
      }
      forall e: nat | e < |r.s.devs| && e != d ensures DevOk(r.s.threads, e, r.s.devs[e]) {
        OwnerElsewhere(s, t, e);
        DevKept(s.threads, e, s.devs[e], t, r.s.threads[t]);
      }
    }
  }

  lemma SeatOf(s: State, t: nat)
    requires CanStep(s, t) && !s.threads[t].op.OptionsOp? && ThreadOk(s, t)
    ensures Seated(t, s.threads[t], s.devs[s.threads[t].op.dev], s.control)
  {
  }

  lemma OwnerElsewhere(s: State, t: nat, e: nat)
    requires t < |s.threads| && e < |s.devs| && DevOk(s.threads, e, s.devs[e])
    requires s.threads[t].op.OptionsOp? || s.threads[t].op.dev != e
    ensures s.devs[e].owner != By(t)
  {
    hide Typed, Doing, LogExplained, Recorded;
  }

  // ---------------------------------------------------------------------------------------------
  // Steps of option writes
  // ---------------------------------------------------------------------------------------------

  lemma OptionStepThreads(s: State, t: nat, c: Choice, u: nat)
    requires t < |s.threads| && s.threads[t].op.OptionsOp? && u < |s.threads|
    requires ThreadOk(s, t) && ThreadOk(s, u)
    ensures OptionStep(s, t, c).Next? ==> ThreadOk(OptionStep(s, t, c).s, u)
  {
    hide Typed, Honest, Assign, FlagsAfter;
    var r := OptionStep(s, t, c);
    if r.Next? && u != t && !s.threads[u].op.OptionsOp? && r.s.options != s.options {
      HonestGrows(s.initial, s.options, s.threads[t].op.settings, s.threads[u]);
    }
  }

  lemma OptionStepControl(s: State, t: nat, c: Choice)
    requires t < |s.threads| && s.threads[t].op.OptionsOp? && ThreadOk(s, t) && ControlOk(s)
    ensures OptionStep(s, t, c).Next? ==> ControlOk(OptionStep(s, t, c).s)
  {
    hide Typed, Honest, Assign, Partly, Seated;
    var th := s.threads[t];
    CommitInParts(FlagsAfter(s.initial, s.options, |s.options|), th.op.settings);
    FlagsPrefix(s.initial, s.options, th.op.settings, |s.options|);
  }

  lemma OptionStepInv(s: State, t: nat, c: Choice)
    requires t < |s.threads| && s.threads[t].op.OptionsOp? && Inv(s)
    ensures OptionStep(s, t, c).Next? ==> Inv(OptionStep(s, t, c).s)
  {
    hide Typed, ThreadOk, DevOk, ControlOk, Assign;
    var r := OptionStep(s, t, c);
    if r.Next? {
      assert ThreadOk(s, t);
      OptionStepControl(s, t, c);
      forall u: nat | u < |r.s.threads| ensures ThreadOk(r.s, u) { OptionStepThreads(s, t, c, u); }
      forall e: nat | e < |r.s.devs| ensures DevOk(r.s.threads, e, r.s.devs[e]) {
        OwnerElsewhere(s, t, e);
        DevKept(s.threads, e, s.devs[e], t, r.s.threads[t]);
      }
    }
  }

  // ---------------------------------------------------------------------------------------------
  // All reachable states
  // ---------------------------------------------------------------------------------------------

  lemma StepKeepsInv(s: State, t: nat, c: Choice)
    requires CanStep(s, t) && Inv(s)
    ensures StepOf(s, t, c).Next? ==> Inv(StepOf(s, t, c).s)
  {
    hide Inv, Typed, DeviceStep, OptionStep;
    if s.threads[t].op.OptionsOp? { StepIsOption(s, t, c); OptionStepInv(s, t, c); } else { DeviceStepInv(s, t, c); }
  }

  lemma StepIsOption(s: State, t: nat, c: Choice)
    requires t < |s.threads| && s.threads[t].op.OptionsOp?
    ensures StepOf(s, t, c) == OptionStep(s, t, c)
  {
  }

  lemma InitialInv(s: State)
    requires Initial(s)
    ensures Inv(s)
  {
  }

  lemma {:induction false} InvAlways(s: State, turns: seq<Turn>, n: nat)
    requires Initial(s) && n <= |turns|
    ensures Execute(s, turns, n).Next? ==> Inv(Execute(s, turns, n).s)
  {
    hide Inv, Initial, CanStep, StepOf;
    if n == 0 {
      InitialInv(s);
    } else {
      InvAlways(s, turns, n - 1);
      var r := Execute(s, turns, n - 1);
      if r.Next? && CanStep(r.s, turns[n - 1].t) { StepKeepsInv(r.s, turns[n - 1].t, turns[n - 1].choice); }
    }
  }
}
