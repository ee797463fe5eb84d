/** A block access may be cut into pieces carried on by the file position. */
module Chunking {
  import opened Layout
  import opened Transfer

  // Word level ------------------------------------------------------------------------------------

  /** Words m..n are reached exactly when words i..m all went through, and then start from their result. */
  lemma {:induction false} WriteRangeSplit(b: Bars, bar: Bar, base: int, data: seq<Word>, env: seq<WordEnv>,
                                           i: nat, m: nat, n: nat)
    requires i <= m <= n <= |data| == |env| && 0 <= base + i && base + n <= bar.Words()
    ensures var r := WriteRange(b, bar, base, data, env, i, m);
            WriteRange(b, bar, base, data, env, i, n)
              == if r.status != 0 then r else WriteRange(r.bars, bar, base, data, env, m, n)
    decreases m - i
  {
    if i < m {
      var s := WriteWord(b, Addr(bar, base + i), data[i], env[i]);
      if s.status == 0 { WriteRangeSplit(s.bars, bar, base, data, env, i + 1, m, n); }
    }
  }

  lemma {:induction false} ReadRangeSplit(bar: Bar, base: int, env: seq<WordEnv>, i: nat, m: nat, n: nat)
    requires i <= m <= n <= |env| && 0 <= base + i && base + n <= bar.Words()
    ensures var r := ReadRange(bar, base, env, i, m);
            ReadRange(bar, base, env, i, n) == if r.status != 0 then r else ReadRange(bar, base, env, m, n)
    decreases m - i
  {
    if i < m { ReadRangeSplit(bar, base, env, i + 1, m, n); }
  }

  // Call level ------------------------------------------------------------------------------------

  /** A call whose locks are not interrupted and whose error flag is off. */
  function Open(words: seq<WordEnv>): CallEnv { CallEnv(Sampled(false), false, words) }

  /** The position after the bytes of a first piece decodes to the rest of the request. */
  lemma DecodeRest(pos: FilePos, n1: nat, n2: nat)
    requires 4 * (n1 + n2) < MAX_POS
    ensures var r := Decode(4 * n1, pos);
            var all := Decode(4 * (n1 + n2), pos);
            && (r.Refused? <==> all.Refused?)
            && (r.Accepted? ==>
                  && pos + 4 * r.n < MAX_POS
                  && Decode(4 * n2, pos + 4 * r.n) == Accepted(r.bar, r.first + r.n, all.n - r.n)
                  && all.bar == r.bar && all.first == r.first
                  && (r.n == n1 || all.n == r.n))
  {
  }

  /** Two writes in a row, the second at the position the first has left. */
  function Then(r: Written, next: Written): Written {
    if r.ret < 0 then r else next.(ret := if next.ret < 0 then next.ret else r.ret + next.ret)
  }

  lemma MoveSplit(b: Bars, pos: FilePos, r: Request, rest: Request, data: seq<Word>, at: nat, env: seq<WordEnv>)
    requires r.Accepted? && rest.Accepted? && rest.bar == r.bar && rest.first == r.first + r.n
    requires rest.first + rest.n <= r.bar.Words()
    requires at + r.n + rest.n <= |data| == |env| && pos + 4 * (r.n + rest.n) < MAX_POS
    ensures var m := MoveWords(b, pos, r, data, at, env);
            MoveWords(b, pos, r.(n := r.n + rest.n), data, at, env)
              == if m.ret < 0 then m else Then(m, MoveWords(m.bars, pos + 4 * r.n, rest, data, at + r.n, env))
  {
    hide WriteRange;
    WriteRangeSplit(b, r.bar, r.first - at, data, env, at, at + r.n, at + r.n + rest.n);
  }

  lemma BlockWriteSplit(b: Bars, pos: FilePos, n1: nat, n2: nat, data: seq<Word>, at: nat, env: seq<WordEnv>)
    requires at + n1 + n2 <= |data| == |env| && 4 * (n1 + n2) < MAX_POS
    ensures var r := BlockWrite(b, pos, 4 * n1, data, at, Open(env));
            BlockWrite(b, pos, 4 * (n1 + n2), data, at, Open(env))
              == Then(r, BlockWrite(r.bars, r.pos, 4 * n2, data, at + n1, Open(env)))
  {
    hide Decode;
    DecodeRest(pos, n1, n2);
    var r := Decode(4 * n1, pos);
    if r.Accepted? { MoveSplit(b, pos, r, Decode(4 * n2, pos + 4 * r.n), data, at, env); }
  }

  function Sum(cuts: seq<nat>): nat { if cuts == [] then 0 else cuts[0] + Sum(cuts[1..]) }

  /** The data from word `at` on, written piece by piece; cuts holds the sizes of the pieces in words. */
  function WriteChunks(b: Bars, pos: FilePos, cuts: seq<nat>, data: seq<Word>, at: nat, env: seq<WordEnv>): Written
    requires cuts != [] && at + Sum(cuts) <= |data| == |env| && 4 * Sum(cuts) < MAX_POS
    decreases |cuts|
  {
    var r := BlockWrite(b, pos, 4 * cuts[0], data, at, Open(env));
    if |cuts| == 1 then r else Then(r, WriteChunks(r.bars, r.pos, cuts[1..], data, at + cuts[0], env))
  }

  /** Any cutting gives the bars, the final position and the total (or the failing word) of one write. */
  lemma {:induction false} ChunkedWriteIsOneWrite(b: Bars, pos: FilePos, cuts: seq<nat>, data: seq<Word>, at: nat,
                                                  env: seq<WordEnv>)
    requires cuts != [] && at + Sum(cuts) <= |data| == |env| && 4 * Sum(cuts) < MAX_POS
    ensures WriteChunks(b, pos, cuts, data, at, env) == BlockWrite(b, pos, 4 * Sum(cuts), data, at, Open(env))
    decreases |cuts|
  {
    hide BlockWrite, BlockRead, ReadValues;
    if |cuts| == 1 {
      assert Sum(cuts[1..]) == 0;
    } else {
      var r := BlockWrite(b, pos, 4 * cuts[0], data, at, Open(env));
      ChunkedWriteIsOneWrite(r.bars, r.pos, cuts[1..], data, at + cuts[0], env);
      BlockWriteSplit(b, pos, cuts[0], Sum(cuts[1..]), data, at, env);
    }
  }

  function ThenRead(r: Read, next: Read): Read {
    if r.ret < 0 then r
    else Read(r.nWords + next.nWords, next.pos, if next.ret < 0 then next.ret else r.ret + next.ret)
  }

  lemma FetchSplit(pos: FilePos, r: Request, rest: Request, at: nat, env: seq<WordEnv>)
    requires r.Accepted? && rest.Accepted? && rest.bar == r.bar && rest.first == r.first + r.n
    requires rest.first + rest.n <= r.bar.Words() && at + r.n + rest.n <= |env| && pos + 4 * (r.n + rest.n) < MAX_POS
    ensures var f := Fetch(pos, r, at, env);
            Fetch(pos, r.(n := r.n + rest.n), at, env)
              == if f.ret < 0 then f else ThenRead(f, Fetch(pos + 4 * r.n, rest, at + r.n, env))
  {
    ReadRangeSplit(r.bar, r.first - at, env, at, at + r.n, at + r.n + rest.n);
  }

  lemma BlockReadSplit(pos: FilePos, n1: nat, n2: nat, at: nat, env: seq<WordEnv>)
    requires at + n1 + n2 <= |env| && 4 * (n1 + n2) < MAX_POS
    ensures var r := BlockRead(pos, 4 * n1, at, Open(env));
            BlockRead(pos, 4 * (n1 + n2), at, Open(env)) == ThenRead(r, BlockRead(r.pos, 4 * n2, at + n1, Open(env)))
  {
    hide Decode;
    DecodeRest(pos, n1, n2);
    var r := Decode(4 * n1, pos);
    if r.Accepted? { FetchSplit(pos, r, Decode(4 * n2, pos + 4 * r.n), at, env); }
  }

  /** How many words the two pieces deliver. */
  lemma WordsSplit(pos: FilePos, n1: nat, n2: nat, at: nat, env: seq<WordEnv>)
    requires at + n1 + n2 <= |env| && 4 * (n1 + n2) < MAX_POS
    ensures var r := BlockRead(pos, 4 * n1, at, Open(env));
            BlockRead(pos, 4 * (n1 + n2), at, Open(env)).nWords
              == r.nWords + if r.ret < 0 then 0 else BlockRead(r.pos, 4 * n2, at + n1, Open(env)).nWords
  {
    hide BlockRead;
    BlockReadSplit(pos, n1, n2, at, env);
  }

  /** Where the second piece begins. */
  lemma RestBegins(pos: FilePos, n1: nat, n2: nat, at: nat, env: seq<WordEnv>)
    requires at + n1 + n2 <= |env| && 4 * (n1 + n2) < MAX_POS
    ensures var r := BlockRead(pos, 4 * n1, at, Open(env));
            var d, all := Decode(4 * n1, pos), Decode(4 * (n1 + n2), pos);
            && (d.Refused? <==> all.Refused?)
            && (d.Refused? ==> r.ret < 0 && r.nWords == 0)
            && (d.Accepted? ==> all.bar == d.bar && all.first == d.first)
            && (r.ret >= 0 ==>
                  var rest := Decode(4 * n2, r.pos);
                  d.Accepted? && rest.Accepted? && rest.bar == d.bar && rest.first == d.first + r.nWords)
  {
    hide Decode, ReadRange;
    DecodeRest(pos, n1, n2);
  }

  lemma ReadValuesSplit(b: Bars, pos: FilePos, n1: nat, n2: nat, at: nat, env: seq<WordEnv>)
    requires at + n1 + n2 <= |env| && 4 * (n1 + n2) < MAX_POS
    ensures var r := BlockRead(pos, 4 * n1, at, Open(env));
            ReadValues(b, pos, 4 * (n1 + n2), at, Open(env))
              == ReadValues(b, pos, 4 * n1, at, Open(env))
                 + if r.ret < 0 then [] else ReadValues(b, r.pos, 4 * n2, at + n1, Open(env))
  {
    hide Decode, Content, BlockRead, ReadValues;
    var r := BlockRead(pos, 4 * n1, at, Open(env));
    var all := Decode(4 * (n1 + n2), pos);
    WordsSplit(pos, n1, n2, at, env);
    RestBegins(pos, n1, n2, at, env);
    ValuesAreSlice(b, pos, 4 * n1, at, Open(env));
    ValuesAreSlice(b, pos, 4 * (n1 + n2), at, Open(env));
    if r.ret >= 0 {
      var next := BlockRead(r.pos, 4 * n2, at + n1, Open(env));
      ValuesAreSlice(b, r.pos, 4 * n2, at + n1, Open(env));
      SliceJoins(Content(b, all.bar), all.first, r.nWords, next.nWords);
    }
  }

  lemma ValuesAreSlice(b: Bars, pos: FilePos, count: Count, at: nat, e: CallEnv)
    requires at + count / 4 <= |e.words|
    ensures var d, n := Decode(count, pos), BlockRead(pos, count, at, e).nWords;
            if d.Refused? then ReadValues(b, pos, count, at, e) == []
            else n <= d.n && ReadValues(b, pos, count, at, e) == Content(b, d.bar)[d.first..d.first + n]
  {
    hide Decode, Content, ReadRange;
  }

  lemma SliceJoins(c: seq<Word>, i: nat, m: nat, n: nat)
    requires i + m + n <= |c|
    ensures c[i..i + m + n] == c[i..i + m] + c[i + m..i + m + n]
  {
  }

  function ReadChunks(b: Bars, pos: FilePos, cuts: seq<nat>, at: nat, env: seq<WordEnv>): (Read, seq<Word>)
    requires cuts != [] && at + Sum(cuts) <= |env| && 4 * Sum(cuts) < MAX_POS
    decreases |cuts|
  {
    var r, v := BlockRead(pos, 4 * cuts[0], at, Open(env)), ReadValues(b, pos, 4 * cuts[0], at, Open(env));
    if |cuts| == 1 || r.ret < 0 then (r, v)
    else
      var (next, more) := ReadChunks(b, r.pos, cuts[1..], at + cuts[0], env);
      (ThenRead(r, next), v + more)
  }

  lemma {:induction false} ChunkedReadIsOneRead(b: Bars, pos: FilePos, cuts: seq<nat>, at: nat, env: seq<WordEnv>)
    requires cuts != [] && at + Sum(cuts) <= |env| && 4 * Sum(cuts) < MAX_POS
    ensures ReadChunks(b, pos, cuts, at, env)
         == (BlockRead(pos, 4 * Sum(cuts), at, Open(env)), ReadValues(b, pos, 4 * Sum(cuts), at, Open(env)))
    decreases |cuts|
  {
    hide BlockWrite, BlockRead, ReadValues;
    if |cuts| == 1 {
      assert Sum(cuts[1..]) == 0;
    } else {
      var r := BlockRead(pos, 4 * cuts[0], at, Open(env));
      if r.ret >= 0 { ChunkedReadIsOneRead(b, r.pos, cuts[1..], at + cuts[0], env); }
      BlockReadSplit(pos, cuts[0], Sum(cuts[1..]), at, env);
      ReadValuesSplit(b, pos, cuts[0], Sum(cuts[1..]), at, env);
      var v := ReadValues(b, pos, 4 * cuts[0], at, Open(env));
      assert v + [] == v;
    }
  }
}
