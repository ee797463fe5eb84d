/** Option writes among the threads: each takes effect once and as a whole, or not at all. */
module OptionRuns {
  import opened Locking
  import opened Serial
  import opened Interleaving
  import P = ProcOptions

  predicate Succeeded(th: Thread) { th.op.OptionsOp? && th.pc == Finished(0) }

  function Share(th: Thread): multiset<P.Settings> {
    if Succeeded(th) then multiset{th.op.settings} else multiset{}
  }

  /** The settings of the option writes among the first n threads that have succeeded. */
  function Successes(threads: seq<Thread>, n: nat): multiset<P.Settings>
    requires n <= |threads|
  {
    if n == 0 then multiset{} else Successes(threads, n - 1) + Share(threads[n - 1])
  }

  lemma {:induction false} NothingNew(threads: seq<Thread>, t: nat, x: Thread, n: nat)
    requires t < |threads| && n <= |threads| && (n <= t || Share(threads[t]) == Share(x))
    ensures Successes(threads[t := x], n) == Successes(threads, n)
  {
    hide Share;
    if n > 0 { NothingNew(threads, t, x, n - 1); }
  }

  lemma {:induction false} OneMore(threads: seq<Thread>, t: nat, x: Thread, n: nat)
    requires t < n <= |threads| && Share(threads[t]) == multiset{}
    ensures Successes(threads[t := x], n) == Successes(threads, n) + Share(x)
  {
    hide Share;
    if n - 1 == t {
      NothingNew(threads, t, x, t);
    } else {
      OneMore(threads, t, x, n - 1);
      Rearrange(Successes(threads, n - 1), Share(x), Share(threads[n - 1]));
    }
  }

  lemma Rearrange<T>(a: multiset<T>, b: multiset<T>, c: multiset<T>)
    ensures a + b + c == a + c + b
  {
  }

  /** The committed option writes are those of the threads that succeeded, and an unsuccessful one was stopped by a
      signal. */
  predicate Balanced(s: State) {
    && multiset(s.options) == Successes(s.threads, |s.threads|)
    && forall t: nat :: t < |s.threads| ==> Answered(s.threads[t])
  }

  predicate Answered(th: Thread) {
    th.op.OptionsOp? && th.pc.Finished? ==> th.pc.status == 0 || th.pc.status == -11
  }

  lemma OptionStepAccounted(s: State, t: nat, c: Choice, s': State)
    requires t < |s.threads| && s.threads[t].op.OptionsOp? && ThreadOk(s, t) && Balanced(s)
    requires OptionStep(s, t, c) == Next(s')
    ensures Balanced(s')
  {
    hide Assign, Successes;
    var x := s'.threads[t];
    assert s'.threads == s.threads[t := x];
    assert !Succeeded(s.threads[t]);
    if Succeeded(x) {
      OneMore(s.threads, t, x, |s.threads|);
      assert s'.options == s.options + [x.op.settings];
    } else {
      NothingNew(s.threads, t, x, |s.threads|);
    }
  }

  lemma StepAccountedFor(s: State, t: nat, c: Choice, s': State)
    requires CanStep(s, t) && Inv(s) && Balanced(s) && StepOf(s, t, c) == Next(s')
    ensures Balanced(s')
  {
    hide DeviceStep, Typed, ControlOk, DevOk, Assign, Successes;
    var th := s.threads[t];
    assert ThreadOk(s, t);
    if th.op.OptionsOp? {
      OptionStepAccounted(s, t, c, s');
    } else {
      StepTyped(t, th, s.devs[th.op.dev], s.control, s.flags, |s.options|, c);
      NothingNew(s.threads, t, s'.threads[t], |s.threads|);
    }
  }

  lemma {:induction false} NoneAtFirst(threads: seq<Thread>, n: nat)
    requires n <= |threads| && forall th <- threads :: !Succeeded(th)
    ensures Successes(threads, n) == multiset{}
  {
    if n > 0 { NoneAtFirst(threads, n - 1); }
  }

  /** In every run, the option writes that took effect are exactly those that were answered with success. */
  lemma {:induction false} OptionWritesAreWhole(s: State, turns: seq<Turn>, n: nat)
    requires Initial(s) && n <= |turns|
    ensures Execute(s, turns, n).Next? ==> Balanced(Execute(s, turns, n).s)
  {
    hide Inv, CanStep, StepOf;
    if n == 0 {
      NoneAtFirst(s.threads, |s.threads|);
    } else {
      hide Initial, Balanced;
      OptionWritesAreWhole(s, turns, n - 1);
      InvAlways(s, turns, n - 1);
      var r := Execute(s, turns, n - 1);
      if r.Next? && CanStep(r.s, turns[n - 1].t) {
        var next := StepOf(r.s, turns[n - 1].t, turns[n - 1].choice);
        if next.Next? { StepAccountedFor(r.s, turns[n - 1].t, turns[n - 1].choice, next.s); }
      }
    }
  }
}
