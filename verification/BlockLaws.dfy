/** What a block access leaves behind: where it stops, which run of single writes it is, and the registers
    it produces. */
module BlockLaws {
  import opened Layout
  import opened Firmware
  import opened Transfer
  import opened Chunking
  import opened Runs

  /** No copy fails and no lock is interrupted; the flags the firmware sees stay open. */
  predicate Clean(env: seq<WordEnv>) {
    forall k :: 0 <= k < |env| ==> env[k].copyOk && env[k].control.Sampled?
  }

  /** The writes a block write stands for: words i..n of the data, word k going to cell base + k. */
  function WritesOf(bar: Bar, base: int, data: seq<Word>, env: seq<WordEnv>, i: nat, n: nat): (ws: seq<Write>)
    requires i <= n <= |data| == |env| && 0 <= base + i && base + n <= bar.Words() && Clean(env)
    ensures |ws| == n - i
  {
    seq(n - i, k requires 0 <= k < n - i => Write(Addr(bar, base + i + k), data[i + k], env[i + k].control.flag))
  }

  /** Number of the first word in i..n on which a write breaks, or n. */
  function Stop(bar: Bar, base: int, i: nat, n: nat): (r: nat)
    requires i <= n && 0 <= base + i && base + n <= bar.Words()
    ensures i <= r <= n && (r < n ==> WriteBreaks(Addr(bar, base + r)))
  {
    if bar.SystemBar? && base + i <= BROKEN_REGISTER < base + n then BROKEN_REGISTER - base
    else if bar.SystemBar? && base + i <= BROKEN_WRITE < base + n then BROKEN_WRITE - base
    else n
  }

  lemma CleanWord(b: Bars, a: Cell, v: Word, e: WordEnv)
    requires e.copyOk && e.control.Sampled?
    ensures WriteWord(b, a, v, e) == Step(Apply(b, Write(a, v, e.control.flag)), if WriteBreaks(a) then EIO else 0)
  {
  }

  lemma WritesCons(b: Bars, bar: Bar, base: int, data: seq<Word>, env: seq<WordEnv>, i: nat, n: nat)
    requires i < n <= |data| == |env| && 0 <= base + i && base + n <= bar.Words() && Clean(env)
    ensures var w := Write(Addr(bar, base + i), data[i], env[i].control.flag);
            Run(b, WritesOf(bar, base, data, env, i, n)) == Run(Apply(b, w), WritesOf(bar, base, data, env, i + 1, n))
  {
    var w := Write(Addr(bar, base + i), data[i], env[i].control.flag);
    assert WritesOf(bar, base, data, env, i, n) == [w] + WritesOf(bar, base, data, env, i + 1, n);
    RunCons(b, w, WritesOf(bar, base, data, env, i + 1, n));
  }

  lemma WriteRangeHead(b: Bars, bar: Bar, base: int, data: seq<Word>, env: seq<WordEnv>, i: nat, n: nat)
    requires i < n <= |data| == |env| && 0 <= base + i && base + n <= bar.Words() && Clean(env)
    ensures var s := Apply(b, Write(Addr(bar, base + i), data[i], env[i].control.flag));
            WriteRange(b, bar, base, data, env, i, n)
              == if WriteBreaks(Addr(bar, base + i)) then Progress(s, i, EIO)
                 else WriteRange(s, bar, base, data, env, i + 1, n)
  {
    hide WriteWord, Apply, WriteBreaks;
    CleanWord(b, Addr(bar, base + i), data[i], env[i]);
  }

  lemma StopHead(bar: Bar, base: int, i: nat, n: nat)
    requires i < n && 0 <= base + i && base + n <= bar.Words()
    ensures Stop(bar, base, i, n) == if WriteBreaks(Addr(bar, base + i)) then i else Stop(bar, base, i + 1, n)
  {
  }

  /** The loop stops exactly at the first broken word, and has then performed the single writes up to and
      including that word, whose raw store stays although it is reported as failed. */
  lemma {:induction false} BlockWriteIsRun(b: Bars, bar: Bar, base: int, data: seq<Word>, env: seq<WordEnv>,
                                           i: nat, n: nat)
    requires i <= n <= |data| == |env| && 0 <= base + i && base + n <= bar.Words() && Clean(env)
    ensures var stop := Stop(bar, base, i, n);
            var performed := if stop < n then stop + 1 else n;
            WriteRange(b, bar, base, data, env, i, n)
              == Progress(Run(b, WritesOf(bar, base, data, env, i, performed)), stop, if stop < n then EIO else 0)
    decreases n - i
  {
    hide Apply, WriteWord, WriteBreaks;
    var stop := Stop(bar, base, i, n);
    if i == n {
    } else {
      hide Stop, WriteRange;
      StopHead(bar, base, i, n);
      WriteRangeHead(b, bar, base, data, env, i, n);
      WritesCons(b, bar, base, data, env, i, if stop < n then stop + 1 else n);
      hide WritesOf;
      if stop > i {
        hide Run;
        var w := Write(Addr(bar, base + i), data[i], env[i].control.flag);
        BlockWriteIsRun(Apply(b, w), bar, base, data, env, i + 1, n);
      }
    }
  }

  lemma {:induction false} ReadStopsAtBroken(bar: Bar, base: int, env: seq<WordEnv>, i: nat, n: nat)
    requires i <= n <= |env| && 0 <= base + i && base + n <= bar.Words() && Clean(env)
    ensures var k := BROKEN_REGISTER - base;
            ReadRange(bar, base, env, i, n)
              == if bar.SystemBar? && i <= k < n then Fetched(k, EIO) else Fetched(n, 0)
    decreases n - i
  {
    if i < n { ReadStopsAtBroken(bar, base, env, i + 1, n); }
  }

  /** A call that gets as far as its words, on the clipped range first..first + n of a bar, fails exactly when
      that range of bar 0 holds BROKEN_REGISTER or BROKEN_WRITE; the position tells how many words went through. */
  lemma BlockWriteFailsExactly(b: Bars, pos: FilePos, count: Count, data: seq<Word>, env: seq<WordEnv>)
    requires count / 4 == |data| == |env| && Clean(env) && Decode(count, pos).Accepted?
    ensures var r := Decode(count, pos);
            var w := BlockWrite(b, pos, count, data, 0, Open(env));
            var broken := r.bar.SystemBar? && r.n > 0 && r.first <= BROKEN_WRITE && BROKEN_REGISTER < r.first + r.n;
            var k := if r.first <= BROKEN_REGISTER then BROKEN_REGISTER - r.first else 0;
            && w.ret == (if broken then EIO else 4 * r.n)
            && w.pos == pos + 4 * (if broken then k else r.n)
            && w.bars == if broken
                         then Store(Run(b, WritesOf(r.bar, r.first, data, env, 0, k)),
                                    Addr(SystemBar, r.first + k), data[k])
                         else Run(b, WritesOf(r.bar, r.first, data, env, 0, r.n))
  {
    hide Decode, Run, WritesOf, WriteRange, Store;
    var r := Decode(count, pos);
    BlockWriteIsRun(b, r.bar, r.first, data, env, 0, r.n);
    var stop := Stop(r.bar, r.first, 0, r.n);
    if stop < r.n { LastWriteIsRaw(b, r.bar, r.first, data, env, stop); }
  }

  lemma LastWriteIsRaw(b: Bars, bar: Bar, base: nat, data: seq<Word>, env: seq<WordEnv>, k: nat)
    requires k < |data| == |env| && base + k < bar.Words() && Clean(env) && WriteBreaks(Addr(bar, base + k))
    ensures Run(b, WritesOf(bar, base, data, env, 0, k + 1))
         == Store(Run(b, WritesOf(bar, base, data, env, 0, k)), Addr(SystemBar, base + k), data[k])
  {
    var ws := WritesOf(bar, base, data, env, 0, k + 1);
    RunPrefix(b, ws, WritesOf(bar, base, data, env, 0, k), k);
  }

  lemma BlockReadFailsExactly(b: Bars, pos: FilePos, count: Count, env: seq<WordEnv>)
    requires count / 4 == |env| && Clean(env) && Decode(count, pos).Accepted?
    ensures var r := Decode(count, pos);
            var f := BlockRead(pos, count, 0, Open(env));
            var broken := r.bar.SystemBar? && r.first <= BROKEN_REGISTER < r.first + r.n;
            var k := if broken then BROKEN_REGISTER - r.first else r.n;
            && f.ret == (if broken then EIO else 4 * r.n)
            && f.pos == pos + 4 * k
            && ReadValues(b, pos, count, 0, Open(env)) == Content(b, r.bar)[r.first..r.first + k]
  {
    hide Decode;
    var r := Decode(count, pos);
    ReadStopsAtBroken(r.bar, r.first, env, 0, r.n);
  }
}
