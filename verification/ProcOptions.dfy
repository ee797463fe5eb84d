/** Writing to the proc file: a fold over tokens, then one commit of all four error flags. */
module ProcOptions {
  import opened Layout
  import opened Firmware

  datatype Option = OpenError | ReadError | WriteError | SpiError {
    function Prefix(): string {
      match this
      case OpenError => "open:"
      case ReadError => "read:"
      case WriteError => "write:"
      case SpiError => "spi:"
    }
  }

  /** The error flags of controlData. */
  datatype Flags = Flags(open: bool, read: bool, write: bool, spi: bool) {
    function Get(o: Option): bool {
      match o
      case OpenError => open
      case ReadError => read
      case WriteError => write
      case SpiError => spi
    }
  }

  /** The option variables of one write, -1 at first. */
  datatype Settings = Settings(open: int, read: int, write: int, spi: int) {
    function Get(o: Option): int {
      match o
      case OpenError => open
      case ReadError => read
      case WriteError => write
      case SpiError => spi
    }
    function Set(o: Option, v: int): Settings {
      match o
      case OpenError => this.(open := v)
      case ReadError => this.(read := v)
      case WriteError => this.(write := v)
      case SpiError => this.(spi := v)
    }
  }

  const UNSET := Settings(-1, -1, -1, -1)

  // Text ------------------------------------------------------------------------------------------

  /** Position of the first c, or the length. */
  function IndexOf(s: string, c: char): (k: nat)
    ensures k <= |s| && c !in s[..k] && (k < |s| ==> s[k] == c)
  {
    if s == [] || s[0] == c then 0
    else
      var k := IndexOf(s[1..], c);
      assert s[..k + 1] == [s[0]] + s[1..][..k];
      1 + k
  }

  /** The text up to its first NUL. */
  function CString(s: string): string { s[..IndexOf(s, '\0')] }

  /** What repeated strsep(&iter, " ") yields. */
  function Tokens(s: string): seq<string>
    decreases |s|
  {
    var k := IndexOf(s, ' ');
    if k == |s| then [s] else [s[..k]] + Tokens(s[k + 1..])
  }

  predicate IsDigit(c: char) { '0' <= c <= '9' }

  predicate IsHex(c: char) { IsDigit(c) || 'a' <= c <= 'f' || 'A' <= c <= 'F' }

  predicate IsSpace(c: char) { c == ' ' || '\t' <= c <= '\r' }

  function Digit(c: char): (d: nat)
    ensures IsDigit(c) ==> d < 10
  {
    if IsDigit(c) then c as int - '0' as int
    else if 'a' <= c <= 'f' then c as int - 'a' as int + 10
    else if 'A' <= c <= 'F' then c as int - 'A' as int + 10
    else 16
  }

  /** The longest run of digits of the base at the start of s, read as a number on top of n. */
  function Digits(s: string, base: nat, n: nat): nat {
    if s == [] || Digit(s[0]) >= base then n else Digits(s[1..], base, base * n + Digit(s[0]))
  }

  /** A number in the notation of C, its base told by its first characters. */
  function Magnitude(s: string): nat {
    if |s| >= 3 && s[0] == '0' && (s[1] == 'x' || s[1] == 'X') && IsHex(s[2]) then Digits(s[2..], 16, 0)
    else if |s| >= 1 && s[0] == '0' then Digits(s, 8, 0)
    else Digits(s, 10, 0)
  }

  function SkipSpaces(s: string): string { if s != [] && IsSpace(s[0]) then SkipSpaces(s[1..]) else s }

  /** The value a 32-bit int keeps of v. */
  function ToInt32(v: int): int { (v + 0x8000_0000) % WORD_LIMIT - 0x8000_0000 }

  datatype Scan = NoMatch | Found(value: int)

  /** The conversion %i */
  function ScanInt(s: string): Scan {
    var t := SkipSpaces(s);
    var negative := t != [] && t[0] == '-';
    var m := if negative then t[1..] else t;
    if m == [] || !IsDigit(m[0]) then NoMatch
    else
      var v: int := Magnitude(m);
      Found(ToInt32(if negative then -v else v))
  }

  /** sscanf(token, "<option>:%i", &value) */
  function ScanOption(token: string, o: Option): Scan {
    if o.Prefix() <= token then ScanInt(token[|o.Prefix()|..]) else NoMatch
  }

  function Absorb(t: Settings, token: string): Settings {
    if ScanOption(token, OpenError).Found? then t.Set(OpenError, ScanOption(token, OpenError).value)
    else if ScanOption(token, ReadError).Found? then t.Set(ReadError, ScanOption(token, ReadError).value)
    else if ScanOption(token, WriteError).Found? then t.Set(WriteError, ScanOption(token, WriteError).value)
    else if ScanOption(token, SpiError).Found? then t.Set(SpiError, ScanOption(token, SpiError).value)
    else t
  }

  function Collect(t: Settings, tokens: seq<string>): Settings
    decreases |tokens|
  {
    if tokens == [] then t else Collect(Absorb(t, tokens[0]), tokens[1..])
  }

  function Commit(f: Flags, t: Settings): Flags {
    Flags(if t.open > -1 then t.open != 0 else f.open,
          if t.read > -1 then t.read != 0 else f.read,
          if t.write > -1 then t.write != 0 else f.write,
          if t.spi > -1 then t.spi != 0 else f.spi)
  }

  const MAX_CMD: nat := 254

  /** What a write of the text does when its copy and its lock succeed. */
  function WriteOptions(f: Flags, text: string): Flags {
    Commit(f, Collect(UNSET, Tokens(CString(text[..Min(|text|, MAX_CMD)]))))
  }

  // ---------------------------------------------------------------------------------------------
  // The driver's method
  // ---------------------------------------------------------------------------------------------

  /** The token up to the next space, and the text after that space if there is one. */
  method StrSep(s: string) returns (token: string, rest: string, more: bool)
    ensures Tokens(s) == if more then [token] + Tokens(rest) else [token]
    ensures more ==> |rest| < |s|
  {
    var k := 0;
    while k < |s| && s[k] != ' '
      invariant k <= |s| && k <= IndexOf(s, ' ')
    {
      k := k + 1;
    }
    assert s[..|s|] == s;
    more := k < |s|;
    token := s[..k];
    rest := if more then s[k + 1..] else "";
  }

  class ControlData {
    var open_error: bool
    var read_error: bool
    var write_error: bool
    var spi_error: bool
    const controlMutex: Mutex

    /** The flags are guarded by the lock all devices share. */
    constructor (drv: Driver)
      ensures controlMutex == drv.controlMutex && View() == Flags(false, false, false, false)
    {
      open_error, read_error, write_error, spi_error := false, false, false, false;
      controlMutex := drv.controlMutex;
    }

    function View(): Flags
      reads this
    {
      Flags(open_error, read_error, write_error, spi_error)
    }

    method ProcWrite(ubuf: string, copyOk: bool, interrupted: bool) returns (ret: int)
      requires !controlMutex.held
      modifies this, controlMutex
      ensures !controlMutex.held
      ensures ret == if !copyOk then EFAULT else if interrupted then EAGAIN else |ubuf|
      ensures View() == if ret >= 0 then WriteOptions(old(View()), ubuf) else old(View())
    {
      hide ScanOption, Tokens, Absorb;
      var len := Min(|ubuf|, MAX_CMD);
      if !copyOk { return EFAULT; }
      var iter, more := CString(ubuf[..len]), true;
      var seen := UNSET;
      ghost var all := Collect(UNSET, Tokens(iter));
      while more
        invariant !controlMutex.held && View() == old(View())
        invariant all == if more then Collect(seen, Tokens(iter)) else seen
        decreases more, |iter|
      {
        var token, rest, again := StrSep(iter);
        assert again ==> Tokens(iter)[1..] == Tokens(rest);
        seen := Absorb(seen, token);
        iter, more := rest, again;
      }
      var status := controlMutex.LockInterruptible(interrupted);
      if status != 0 { return EAGAIN; }
      if seen.open > -1 { open_error := seen.open != 0; }
      if seen.read > -1 { read_error := seen.read != 0; }
      if seen.write > -1 { write_error := seen.write != 0; }
      if seen.spi > -1 { spi_error := seen.spi != 0; }
      controlMutex.Unlock();
      return |ubuf|;
    }
  }

  // ---------------------------------------------------------------------------------------------
  // The last occurrence wins
  // ---------------------------------------------------------------------------------------------

  predicate Names(token: string, o: Option) { ScanOption(token, o).Found? }

  predicate Mentioned(tokens: seq<string>, o: Option) { exists k :: 0 <= k < |tokens| && Names(tokens[k], o) }

  /** The value of the last token that names the option. */
  function LastValue(tokens: seq<string>, o: Option): int
    requires Mentioned(tokens, o)
    decreases |tokens|
  {
    var last := tokens[|tokens| - 1];
    if Names(last, o) then ScanOption(last, o).value
    else
      assert Mentioned(tokens[..|tokens| - 1], o) by {
        var k :| 0 <= k < |tokens| && Names(tokens[k], o);
        assert Names(tokens[..|tokens| - 1][k], o);
      }
      LastValue(tokens[..|tokens| - 1], o)
  }

  /** A token names at most one option. */
  lemma NamesOne(token: string, o: Option, p: Option)
    requires Names(token, o) && Names(token, p)
    ensures o == p
  {
    assert o.Prefix()[0] == token[0] == p.Prefix()[0];
  }

  lemma AbsorbSets(t: Settings, token: string, o: Option)
    ensures Absorb(t, token).Get(o) == if Names(token, o) then ScanOption(token, o).value else t.Get(o)
  {
    forall p: Option | Names(token, o) && Names(token, p) ensures o == p { NamesOne(token, o, p); }
    hide ScanOption;
  }

  lemma {:induction false} CollectSnoc(t: Settings, tokens: seq<string>, token: string)
    ensures Collect(t, tokens + [token]) == Absorb(Collect(t, tokens), token)
    decreases |tokens|
  {
    if tokens == [] {
      assert [token][1..] == [];
    } else {
      assert (tokens + [token])[1..] == tokens[1..] + [token];
      CollectSnoc(Absorb(t, tokens[0]), tokens[1..], token);
    }
    hide Absorb;
  }

  lemma {:induction false} CollectIsLast(t: Settings, tokens: seq<string>, o: Option)
    ensures Collect(t, tokens).Get(o) == if Mentioned(tokens, o) then LastValue(tokens, o) else t.Get(o)
    decreases |tokens|
  {
    if tokens != [] {
      var front, last := tokens[..|tokens| - 1], tokens[|tokens| - 1];
      assert tokens == front + [last];
      CollectSnoc(t, front, last);
      AbsorbSets(Collect(t, front), last, o);
      CollectIsLast(t, front, o);
      assert Mentioned(tokens, o) <==> Mentioned(front, o) || Names(last, o);
    }
    hide Absorb, Collect, ScanOption;
  }

  /** The tokens of a text that fits. */
  function TokensOf(text: string): seq<string> { Tokens(CString(text[..Min(|text|, MAX_CMD)])) }

  /** Each flag follows the last token that names it: a value of 0 or more is stored as its truth value, a
      negative one leaves the flag alone, as does a text that does not name it. */
  lemma EachFlagFollowsItsLastToken(f: Flags, text: string, o: Option)
    ensures WriteOptions(f, text).Get(o) ==
            var tokens := TokensOf(text);
            if Mentioned(tokens, o) && LastValue(tokens, o) >= 0 then LastValue(tokens, o) != 0 else f.Get(o)
  {
    CollectIsLast(UNSET, TokensOf(text), o);
    hide Collect, Tokens;
  }

  // ---------------------------------------------------------------------------------------------
  // One write or two
  // ---------------------------------------------------------------------------------------------

  lemma {:induction false} IndexOfAppend(a: string, b: string, c: char)
    ensures IndexOf(a + b, c) == if c in a then IndexOf(a, c) else |a| + IndexOf(b, c)
    decreases |a|
  {
    if a == [] {
      assert a + b == b;
    } else {
      assert (a + b)[1..] == a[1..] + b;
      IndexOfAppend(a[1..], b, c);
    }
  }

  lemma SplitAt(s: string, token: string, rest: string)
    requires s == token + " " + rest && ' ' !in token
    ensures Tokens(s) == [token] + Tokens(rest)
  {
    assert token + " " + rest == token + (" " + rest);
    IndexOfAppend(token, " " + rest, ' ');
    assert IndexOf(" " + rest, ' ') == 0;
    assert s[..|token|] == token && s[|token| + 1..] == rest;
  }

  lemma {:induction false} TokensAppend(a: string, b: string)
    ensures Tokens(a + " " + b) == Tokens(a) + Tokens(b)
    decreases |a|
  {
    var k := IndexOf(a, ' ');
    if k < |a| {
      var token, rest := a[..k], a[k + 1..];
      assert a == token + " " + rest;
      SplitAt(a, token, rest);
      assert a + " " + b == token + " " + (rest + " " + b);
      SplitAt(a + " " + b, token, rest + " " + b);
      hide Tokens, IndexOf;
      TokensAppend(rest, b);
    } else {
      assert a[..k] == a;
      SplitAt(a + " " + b, a, b);
    }
  }

  lemma {:induction false} CollectAppend(t: Settings, u: seq<string>, v: seq<string>)
    ensures Collect(t, u + v) == Collect(Collect(t, u), v)
    decreases |u|
  {
    if u == [] {
      assert u + v == v;
    } else {
      assert (u + v)[1..] == u[1..] + v;
      CollectAppend(Absorb(t, u[0]), u[1..], v);
    }
    hide Absorb;
  }

  /** b takes back, by a negative value, an option that a sets. */
  predicate Cancels(a: string, b: string) {
    exists o: Option :: Mentioned(TokensOf(a), o) && LastValue(TokensOf(a), o) >= 0
                        && Mentioned(TokensOf(b), o) && LastValue(TokensOf(b), o) < 0
  }

  predicate NoNul(text: string) { '\0' !in text }

  lemma TokensOfPlain(text: string)
    requires NoNul(text) && |text| <= MAX_CMD
    ensures TokensOf(text) == Tokens(text)
  {
    assert text[..|text|] == text;
    assert IndexOf(text, '\0') == |text|;
  }

  /** One flag after the joined text and after the two texts in turn. */
  lemma JoinedFlag(f: Flags, a: string, b: string, o: Option)
    requires NoNul(a) && NoNul(b) && |a| + 1 + |b| <= MAX_CMD
    ensures var x, y := TokensOf(a), TokensOf(b);
            && WriteOptions(f, a + " " + b).Get(o)
               == (if Mentioned(y, o) then if LastValue(y, o) >= 0 then LastValue(y, o) != 0 else f.Get(o)
                   else WriteOptions(f, a).Get(o))
            && WriteOptions(WriteOptions(f, a), b).Get(o)
               == (if Mentioned(y, o) && LastValue(y, o) >= 0 then LastValue(y, o) != 0
                   else WriteOptions(f, a).Get(o))
  {
    TokensOfPlain(a);
    TokensOfPlain(b);
    TokensOfPlain(a + " " + b);
    TokensAppend(a, b);
    CollectAppend(UNSET, Tokens(a), Tokens(b));
    CollectIsLast(Collect(UNSET, Tokens(a)), Tokens(b), o);
    EachFlagFollowsItsLastToken(f, a, o);
    EachFlagFollowsItsLastToken(WriteOptions(f, a), b, o);
    CollectIsLast(UNSET, Tokens(a), o);
    hide Tokens, Collect, LastValue, CString, Mentioned;
  }

  /** Joining two texts with a space is the same as writing them in turn, exactly when the second does not take
      back an option the first sets. */
  lemma JoinedWriteIsTwoWritesExactly(a: string, b: string)
    requires NoNul(a) && NoNul(b) && |a| + 1 + |b| <= MAX_CMD
    ensures (forall f: Flags :: WriteOptions(f, a + " " + b) == WriteOptions(WriteOptions(f, a), b)) <==> !Cancels(a, b)
  {
    hide WriteOptions, TokensOf, Mentioned, LastValue;
    forall f: Flags, o: Option
      ensures !Cancels(a, b) ==> WriteOptions(f, a + " " + b).Get(o) == WriteOptions(WriteOptions(f, a), b).Get(o)
    {
      JoinedFlag(f, a, b, o);
      EachFlagFollowsItsLastToken(f, a, o);
    }
    if !Cancels(a, b) {
      forall f: Flags ensures WriteOptions(f, a + " " + b) == WriteOptions(WriteOptions(f, a), b) {
        SameFlags(WriteOptions(f, a + " " + b), WriteOptions(WriteOptions(f, a), b));
      }
    } else {
      var o: Option :| Mentioned(TokensOf(a), o) && LastValue(TokensOf(a), o) >= 0
                       && Mentioned(TokensOf(b), o) && LastValue(TokensOf(b), o) < 0;
      var v := LastValue(TokensOf(a), o) == 0;
      var f := Flags(v, v, v, v);
      JoinedFlag(f, a, b, o);
      EachFlagFollowsItsLastToken(f, a, o);
      assert f.Get(o) == v;
    }
  }

  lemma SameFlags(f: Flags, g: Flags)
    requires forall o: Option :: f.Get(o) == g.Get(o)
    ensures f == g
  {
    assert f.Get(OpenError) == g.Get(OpenError) && f.Get(ReadError) == g.Get(ReadError)
        && f.Get(WriteError) == g.Get(WriteError) && f.Get(SpiError) == g.Get(SpiError);
  }

  lemma OneToken(token: string)
    requires ' ' !in token && NoNul(token) && |token| <= MAX_CMD
    ensures TokensOf(token) == [token]
  {
    TokensOfPlain(token);
    assert IndexOf(token, ' ') == |token|;
    assert token[..|token|] == token;
  }

  lemma OneDigit(token: string, rest: string)
    requires token == OpenError.Prefix() + rest
    requires rest == "1" || rest == "-1"
    ensures ScanOption(token, OpenError) == Found(if rest == "1" then 1 else -1)
  {
    assert token[|OpenError.Prefix()|..] == rest;
    assert Digits("1", 10, 0) == 1 by {
      assert "1"[1..] == "";
      assert Digits("", 10, 1) == 1;
    }
    if rest == "-1" { assert rest[1..] == "1"; }
  }

  lemma OnlyToken(token: string, o: Option)
    requires Names(token, o)
    ensures Mentioned([token], o) && LastValue([token], o) == ScanOption(token, o).value
  {
    hide ScanOption;
    assert Names([token][0], o);
  }

  /** Such texts exist. */
  lemma CancelsExample()
    ensures Cancels("open:1", "open:-1")
  {
    hide TokensOf, ScanOption, LastValue, Mentioned;
    var a, b := "open:1", "open:-1";
    OneToken(a);
    OneToken(b);
    OneDigit(a, "1");
    OneDigit(b, "-1");
    OnlyToken(a, OpenError);
    OnlyToken(b, OpenError);
  }
}
