/** In what order the flags are seen: a call never goes back to older option writes, and neither does a call that
    takes devMutex later. */
module Timeline {
  import opened Layout
  import opened Firmware
  import opened Locking
  import opened Serial
  import opened Interleaving
  import P = ProcOptions

  predicate Ascending(at: seq<nat>, lo: nat, hi: nat) {
    && (forall i, j :: 0 <= i < j < |at| ==> at[i] <= at[j])
    && (forall i :: 0 <= i < |at| ==> lo <= at[i] <= hi)
  }

  lemma AscendingMore(at: seq<nat>, lo: nat, hi: nat, x: nat)
    requires Ascending(at, lo, x) && lo <= x <= hi
    ensures Ascending(at + [x], lo, hi)
  {
  }

  /** One call: first its own error flag, then the flags of its words, one after the other, and none from the
      future. */
  predicate InTime(th: Thread, now: nat) {
    && th.gateAt <= now && Ascending(th.at, th.gateAt, now)
    && (th.pc.ActSampled? || th.pc.Acting? ==> th.gateAt <= th.stamp <= now && Ascending(th.at, th.gateAt, th.stamp))
  }

  /** The finished calls saw no flag newer than n. */
  predicate AllBefore(log: seq<Entry>, n: nat) {
    forall k, i :: 0 <= k < |log| && 0 <= i < |log[k].at| ==> log[k].at[i] <= n
  }

  predicate LogInOrder(log: seq<Entry>) {
    forall j, k, i, l :: 0 <= j < k < |log| && 0 <= i < |log[j].at| && 0 <= l < |log[k].at| ==>
      log[j].at[i] <= log[k].at[l]
  }

  /** Whatever the call has seen is no older than what the finished calls saw. */
  predicate Follows(log: seq<Entry>, th: Thread) {
    && (forall i :: 0 <= i < |th.at| ==> AllBefore(log, th.at[i]))
    && (th.pc.ActSampled? || th.pc.Acting? ==> AllBefore(log, th.stamp))
  }

  lemma EntryInTime(t: nat, th: Thread, dev: Dev, control: Owner, flags: P.Flags, now: nat, c: Choice)
    requires Typed(th) && !th.pc.HoldsDev() && InTime(th, now)
    ensures var m := DeviceStep(t, th, dev, control, flags, now, c);
            m.Move? ==> InTime(m.thread, now) && (m.thread.pc.HoldsDev() ==> Follows(dev.log, m.thread))
  {
    hide JobOf, Op.PreCheck, Op.Valid, Op.GateFlag;
  }

  lemma WorkInTime(t: nat, th: Thread, dev: Dev, control: Owner, flags: P.Flags, now: nat, c: Choice)
    requires Typed(th) && th.pc.HoldsDev() && InTime(th, now)
    ensures var m := DeviceStep(t, th, dev, control, flags, now, c);
            m.Move? ==> InTime(m.thread, now)
  {
    hide JobOf, Op.PreCheck, Op.Valid, Op.GateFlag, React, Store, Load, LoadStatus, WriteBreaks, Ascending;
    if th.pc.Acting? {
      AscendingMore(th.at, th.gateAt, now, th.stamp);
    } else {
      AscendingMore(th.at, th.gateAt, now, now);
    }
  }

  lemma WorkFollows(t: nat, th: Thread, dev: Dev, control: Owner, flags: P.Flags, now: nat, c: Choice)
    requires Typed(th) && th.pc.HoldsDev() && Follows(dev.log, th) && AllBefore(dev.log, now)
    ensures var m := DeviceStep(t, th, dev, control, flags, now, c);
            m.Move? ==> Follows(dev.log, m.thread)
  {
    hide JobOf, Op.PreCheck, Op.Valid, Op.GateFlag, React, Store, Load, LoadStatus, WriteBreaks, AllBefore;
  }

  lemma LogStaysInOrder(log: seq<Entry>, th: Thread, e: Entry, now: nat)
    requires LogInOrder(log) && AllBefore(log, now) && Follows(log, th) && InTime(th, now) && e.at == th.at
    ensures LogInOrder(log + [e]) && AllBefore(log + [e], now)
  {
    assert forall i :: 0 <= i < |th.at| ==> AllBefore(log, th.at[i]);
  }

  predicate DevInTime(threads: seq<Thread>, dev: Dev, now: nat) {
    && AllBefore(dev.log, now) && LogInOrder(dev.log)
    && (dev.owner.By? && dev.owner.t < |threads| ==> Follows(dev.log, threads[dev.owner.t]))
  }

  predicate AllInTime(s: State) {
    && (forall t: nat :: t < |s.threads| ==> InTime(s.threads[t], |s.options|))
    && (forall d: nat :: d < |s.devs| ==> DevInTime(s.threads, s.devs[d], |s.options|))
  }

  lemma OwnDevInTime(threads: seq<Thread>, t: nat, dev: Dev, control: Owner, flags: P.Flags, now: nat, c: Choice)
    requires t < |threads| && Typed(threads[t]) && Seated(t, threads[t], dev, control)
    requires InTime(threads[t], now) && DevInTime(threads, dev, now)
    ensures var m := DeviceStep(t, threads[t], dev, control, flags, now, c);
            m.Move? ==> InTime(m.thread, now) && DevInTime(threads[t := m.thread], m.dev, now)
  {
    hide DeviceStep, Typed, InTime, AllBefore, LogInOrder, Follows, JobOf;
    var th := threads[t];
    var m := DeviceStep(t, th, dev, control, flags, now, c);
    if m.Move? {
      StepSeated(t, th, dev, control, flags, now, c);
      StepLog(t, th, dev, control, flags, now, c);
      if th.pc.HoldsDev() {
        WorkInTime(t, th, dev, control, flags, now, c);
        WorkFollows(t, th, dev, control, flags, now, c);
        if th.pc.Leaving? {
          LogStaysInOrder(dev.log, th, m.dev.log[|dev.log|], now);
        }
      } else {
        EntryInTime(t, th, dev, control, flags, now, c);
      }
    }
  }

  lemma LaterInTime(th: Thread, now: nat, later: nat)
    requires InTime(th, now) && now <= later
    ensures InTime(th, later)
  {
  }

  lemma LaterDev(threads: seq<Thread>, dev: Dev, now: nat, later: nat)
    requires DevInTime(threads, dev, now) && now <= later
    ensures DevInTime(threads, dev, later)
  {
    hide Follows, LogInOrder;
  }

  lemma StepInTime(s: State, t: nat, c: Choice, s': State)
    requires CanStep(s, t) && Inv(s) && AllInTime(s) && StepOf(s, t, c) == Next(s')
    ensures AllInTime(s')
  {
    hide DeviceStep, Typed, InTime, AllBefore, LogInOrder, Follows, DevOk, ControlOk, Assign, Honest;
    var th := s.threads[t];
    assert ThreadOk(s, t);
    if th.op.OptionsOp? {
      OptionStepInTime(s, t, c, s');
    } else {
      var d := th.op.dev;
      OwnDevInTime(s.threads, t, s.devs[d], s.control, s.flags, |s.options|, c);
      StepSeated(t, th, s.devs[d], s.control, s.flags, |s.options|, c);
      forall e: nat | e < |s'.devs| && e != d ensures DevInTime(s'.threads, s'.devs[e], |s'.options|) {
        OwnerElsewhere(s, t, e);
      }
    }
  }

  lemma OptionStepInTime(s: State, t: nat, c: Choice, s': State)
    requires t < |s.threads| && s.threads[t].op.OptionsOp? && Inv(s) && AllInTime(s)
    requires OptionStep(s, t, c) == Next(s')
    ensures AllInTime(s')
  {
    hide Typed, AllBefore, LogInOrder, Follows, DevOk, ControlOk, ThreadOk, Assign, Ascending;
    forall u: nat | u < |s'.threads| ensures InTime(s'.threads[u], |s'.options|) {
      LaterInTime(s.threads[u], |s.options|, |s'.options|);
    }
    forall d: nat | d < |s'.devs| ensures DevInTime(s'.threads, s'.devs[d], |s'.options|) {
      OwnerElsewhere(s, t, d);
      LaterDev(s.threads, s.devs[d], |s.options|, |s'.options|);
    }
  }

  lemma {:induction false} AlwaysInTime(s: State, turns: seq<Turn>, n: nat)
    requires Initial(s) && n <= |turns|
    ensures Execute(s, turns, n).Next? ==> AllInTime(Execute(s, turns, n).s)
  {
    hide Inv, CanStep, StepOf;
    if n > 0 {
      hide Initial, AllInTime;
      AlwaysInTime(s, turns, n - 1);
      InvAlways(s, turns, n - 1);
      var r := Execute(s, turns, n - 1);
      if r.Next? && CanStep(r.s, turns[n - 1].t) {
        var next := StepOf(r.s, turns[n - 1].t, turns[n - 1].choice);
        if next.Next? { StepInTime(r.s, turns[n - 1].t, turns[n - 1].choice, next.s); }
      }
    }
  }
}
