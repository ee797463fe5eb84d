/** Which number an option text means, told from its characters, and which flag it sets, told from its name. */
module ProcNumbers {
  import opened Layout
  import opened ProcOptions

  // ---------------------------------------------------------------------------------------------
  // Digits
  // ---------------------------------------------------------------------------------------------

  lemma DigitValues(c: char)
    ensures '0' <= c <= '9' ==> Digit(c) == c as int - '0' as int
    ensures 'a' <= c <= 'f' ==> Digit(c) == 10 + (c as int - 'a' as int)
    ensures 'A' <= c <= 'F' ==> Digit(c) == 10 + (c as int - 'A' as int)
    ensures Digit(c) < 16 <==> '0' <= c <= '9' || 'a' <= c <= 'f' || 'A' <= c <= 'F'
    ensures Digit(c) < 10 <==> '0' <= c <= '9'
    ensures Digit(c) < 8 <==> '0' <= c <= '7'
  {
  }

  predicate AllDigits(s: string, base: nat) { forall k :: 0 <= k < |s| ==> Digit(s[k]) < base }

  /** One more character: a digit counts, and anything else ends the number. */
  lemma {:induction false} DigitsSnoc(s: string, base: nat, n: nat, c: char)
    requires AllDigits(s, base)
    ensures Digits(s + [c], base, n)
         == if Digit(c) < base then base * Digits(s, base, n) + Digit(c) else Digits(s, base, n)
    decreases |s|
  {
    hide Digit;
    if s == [] {
      assert [c][1..] == [];
    } else {
      assert (s + [c])[1..] == s[1..] + [c];
      DigitsSnoc(s[1..], base, base * n + Digit(s[0]), c);
    }
  }

  /** What follows the first other character does not matter. */
  lemma {:induction false} DigitsStop(s: string, base: nat, n: nat, rest: string)
    requires AllDigits(s, base) && rest != "" && Digit(rest[0]) >= base
    ensures Digits(s + rest, base, n) == Digits(s, base, n)
    decreases |s|
  {
    hide Digit;
    if s == [] {
      assert s + rest == rest;
    } else {
      assert (s + rest)[1..] == s[1..] + rest;
      DigitsStop(s[1..], base, base * n + Digit(s[0]), rest);
    }
  }

  // ---------------------------------------------------------------------------------------------
  // The three notations
  // ---------------------------------------------------------------------------------------------

  lemma OneCharacter(c: char)
    requires '0' <= c <= '9'
    ensures Magnitude([c]) == c as int - '0' as int
  {
    DigitsSnoc([], 10, 0, c);
    DigitsSnoc([], 8, 0, c);
    assert [] + [c] == [c];
  }

  /** Decimal: each further digit counts ten times less. */
  lemma DecimalDigit(s: string, c: char)
    requires s != "" && (forall k :: 0 <= k < |s| ==> '0' <= s[k] <= '9') && s[0] != '0' && '0' <= c <= '9'
    ensures Magnitude(s + [c]) == 10 * Magnitude(s) + (c as int - '0' as int)
  {
    DigitsSnoc(s, 10, 0, c);
    hide Digits;
  }

  /** Octal behind a leading zero. */
  lemma OctalDigit(s: string, c: char)
    requires s != "" && (forall k :: 0 <= k < |s| ==> '0' <= s[k] <= '7') && s[0] == '0' && '0' <= c <= '7'
    ensures Magnitude(s + [c]) == 8 * Magnitude(s) + (c as int - '0' as int)
  {
    DigitsSnoc(s, 8, 0, c);
    hide Digits;
    assert (s + [c])[0] == '0' && '0' <= (s + [c])[1] <= '7';
  }

  predicate HexMark(s: string) { s == "0x" || s == "0X" }

  predicate IsHexText(s: string) {
    forall k :: 0 <= k < |s| ==> '0' <= s[k] <= '9' || 'a' <= s[k] <= 'f' || 'A' <= s[k] <= 'F'
  }

  /** Hexadecimal behind 0x or 0X; h is empty or what has been read so far. */
  lemma HexText(mark: string, h: string)
    requires HexMark(mark) && h != "" && IsHexText(h)
    ensures Magnitude(mark + h) == Digits(h, 16, 0)
  {
    assert (mark + h)[2..] == h && (mark + h)[0] == '0' && (mark + h)[2] == h[0];
    hide Digits;
  }

  lemma HexFirst(mark: string, c: char)
    requires HexMark(mark) && IsHexText([c])
    ensures '0' <= c <= '9' ==> Magnitude(mark + [c]) == c as int - '0' as int
    ensures 'a' <= c <= 'f' ==> Magnitude(mark + [c]) == 10 + (c as int - 'a' as int)
    ensures 'A' <= c <= 'F' ==> Magnitude(mark + [c]) == 10 + (c as int - 'A' as int)
  {
    HexText(mark, [c]);
    DigitsSnoc([], 16, 0, c);
    assert [] + [c] == [c];
    DigitValues(c);
    hide Digit;
  }

  lemma HexFurther(mark: string, h: string, c: char)
    requires HexMark(mark) && h != "" && IsHexText(h) && IsHexText([c])
    ensures '0' <= c <= '9' ==> Magnitude(mark + h + [c]) == 16 * Magnitude(mark + h) + (c as int - '0' as int)
    ensures 'a' <= c <= 'f' ==> Magnitude(mark + h + [c]) == 16 * Magnitude(mark + h) + 10 + (c as int - 'a' as int)
    ensures 'A' <= c <= 'F' ==> Magnitude(mark + h + [c]) == 16 * Magnitude(mark + h) + 10 + (c as int - 'A' as int)
  {
    assert [c][0] == c;
    assert mark + h + [c] == mark + (h + [c]);
    HexText(mark, h);
    HexText(mark, h + [c]);
    DigitsSnoc(h, 16, 0, c);
    DigitValues(c);
    hide Digit, Magnitude;
  }

  /** A number ends at the first character that is no digit of it. */
  lemma DecimalEnds(s: string, rest: string)
    requires s != "" && (forall k :: 0 <= k < |s| ==> '0' <= s[k] <= '9') && s[0] != '0'
    requires rest != "" && !('0' <= rest[0] <= '9')
    ensures Magnitude(s + rest) == Magnitude(s)
  {
    DigitValues(rest[0]);
    DigitsStop(s, 10, 0, rest);
    hide Digits;
  }

  lemma OctalEnds(s: string, rest: string)
    requires s != "" && (forall k :: 0 <= k < |s| ==> '0' <= s[k] <= '7') && s[0] == '0'
    requires rest != "" && !('0' <= rest[0] <= '7') && rest[0] != 'x' && rest[0] != 'X'
    ensures Magnitude(s + rest) == Magnitude(s)
  {
    DigitValues(rest[0]);
    DigitsStop(s, 8, 0, rest);
    hide Digits, Digit;
    assert (s + rest)[1] == if |s| > 1 then s[1] else rest[0];
  }

  // ---------------------------------------------------------------------------------------------
  // Blanks, signs and 32 bits
  // ---------------------------------------------------------------------------------------------

  predicate StartsNumber(s: string) { s != "" && '0' <= s[0] <= '9' }

  /** Blank, tab, line feed, vertical tab, form feed and carriage return. */
  lemma BlanksAreSkipped(c: char, s: string)
    requires c as int == 32 || 9 <= c as int <= 13
    ensures ScanInt([c] + s) == ScanInt(s)
  {
    assert ([c] + s)[1..] == s;
    assert IsSpace(c);
    hide Magnitude;
  }

  lemma PlainNumber(s: string)
    requires StartsNumber(s) && Magnitude(s) < 0x8000_0000
    ensures ScanInt(s) == Found(Magnitude(s))
  {
    hide Magnitude;
  }

  lemma NegativeNumber(s: string)
    requires StartsNumber(s) && Magnitude(s) <= 0x8000_0000
    ensures ScanInt("-" + s) == Found(0 - Magnitude(s))
  {
    assert ("-" + s)[1..] == s;
    hide Magnitude;
  }

  /** Beyond 32 bits the value is the one that differs by a multiple of 2^32. */
  lemma WideNumber(s: string)
    requires StartsNumber(s)
    ensures ScanInt(s).Found? && -0x8000_0000 <= ScanInt(s).value < 0x8000_0000
    ensures (ScanInt(s).value - Magnitude(s)) % 0x1_0000_0000 == 0
    ensures ScanInt("-" + s).Found? && -0x8000_0000 <= ScanInt("-" + s).value < 0x8000_0000
    ensures (ScanInt("-" + s).value + Magnitude(s)) % 0x1_0000_0000 == 0
  {
    assert ("-" + s)[1..] == s;
    var m: int := Magnitude(s);
    Within32Bits(m);
    Within32Bits(-m);
    hide Magnitude, ToInt32;
  }

  lemma Within32Bits(v: int)
    ensures -0x8000_0000 <= ToInt32(v) < 0x8000_0000 && (ToInt32(v) - v) % 0x1_0000_0000 == 0
  {
  }

  /** A number begins with a digit, or with a minus sign and a digit. */
  lemma NoNumber(s: string)
    requires s != "" ==> !('0' <= s[0] <= '9') && s[0] != '-' && !(s[0] as int == 32 || 9 <= s[0] as int <= 13)
    ensures ScanInt(s) == NoMatch
  {
    hide Magnitude;
  }

  lemma NoNumberBehindMinus(s: string)
    requires s != "" ==> !('0' <= s[0] <= '9')
    ensures ScanInt("-" + s) == NoMatch
  {
    assert ("-" + s)[1..] == s;
    hide Magnitude;
  }

  // ---------------------------------------------------------------------------------------------
  // The four options
  // ---------------------------------------------------------------------------------------------

  lemma Behind(name: string, s: string)
    ensures name <= name + s && (name + s)[|name|..] == s
  {
  }

  lemma OpenToken(t: Settings, s: string)
    ensures Absorb(t, "open:" + s) == if ScanInt(s).Found? then t.(open := ScanInt(s).value) else t
  {
    Behind("open:", s);
    assert ("open:" + s)[0] == 'o';
    hide ScanInt;
  }

  lemma ReadToken(t: Settings, s: string)
    ensures Absorb(t, "read:" + s) == if ScanInt(s).Found? then t.(read := ScanInt(s).value) else t
  {
    Behind("read:", s);
    assert ("read:" + s)[0] == 'r';
    hide ScanInt;
  }

  lemma WriteToken(t: Settings, s: string)
    ensures Absorb(t, "write:" + s) == if ScanInt(s).Found? then t.(write := ScanInt(s).value) else t
  {
    Behind("write:", s);
    assert ("write:" + s)[0] == 'w';
    hide ScanInt;
  }

  lemma SpiToken(t: Settings, s: string)
    ensures Absorb(t, "spi:" + s) == if ScanInt(s).Found? then t.(spi := ScanInt(s).value) else t
  {
    Behind("spi:", s);
    assert ("spi:" + s)[0] == 's';
    hide ScanInt;
  }

  lemma OtherToken(t: Settings, token: string)
    requires !("open:" <= token) && !("read:" <= token) && !("write:" <= token) && !("spi:" <= token)
    ensures Absorb(t, token) == t
  {
    hide ScanInt;
  }

  // ---------------------------------------------------------------------------------------------
  // Whole texts
  // ---------------------------------------------------------------------------------------------

  function Join(tokens: seq<string>): string
    requires tokens != []
  {
    if |tokens| == 1 then tokens[0] else tokens[0] + (" " + Join(tokens[1..]))
  }

  /** The tokens are the pieces between the spaces: they hold none, and with the spaces they are the text. */
  lemma {:induction false} TokensJoin(s: string)
    ensures Tokens(s) != [] && Join(Tokens(s)) == s
    ensures forall k :: 0 <= k < |Tokens(s)| ==> ' ' !in Tokens(s)[k]
    decreases |s|
  {
    hide IndexOf;
    var k := IndexOf(s, ' ');
    if k == |s| {
      assert s[..k] == s;
    } else {
      TokensJoin(s[k + 1..]);
      JoinCons(s[..k], Tokens(s[k + 1..]));
      CutAt(s, k);
    }
  }

  lemma JoinCons(token: string, rest: seq<string>)
    requires rest != []
    ensures Join([token] + rest) == token + (" " + Join(rest))
  {
    assert ([token] + rest)[1..] == rest;
  }

  lemma CutAt(s: string, k: nat)
    requires k < |s| && s[k] == ' '
    ensures s == s[..k] + (" " + s[k + 1..])
  {
  }

  /** A text ends at its first NUL, and after 254 characters. */
  lemma TextEnds(f: Flags, a: string, b: string)
    requires '\0' !in a && |a| <= 254
    ensures WriteOptions(f, a + "\0" + b) == WriteOptions(f, a)
  {
    var text := a + "\0" + b;
    var cut := text[..Min(|text|, MAX_CMD)];
    assert a == text[..|a|] == cut[..|a|];
    if |a| < |cut| { assert cut[|a|] == '\0'; }
    assert IndexOf(cut, '\0') == |a|;
    assert a[..|a|] == a && IndexOf(a, '\0') == |a|;
    hide Tokens, Collect, Commit, IndexOf;
  }

  lemma LongText(f: Flags, text: string)
    requires |text| > 254
    ensures WriteOptions(f, text) == WriteOptions(f, text[..254])
  {
    assert text[..254][..254] == text[..254];
    hide Tokens, Collect, Commit, CString;
  }

  predicate Word(s: string) { ' ' !in s && '\0' !in s && |s| <= 248 }

  lemma OnlyOneToken(f: Flags, text: string)
    requires ' ' !in text && '\0' !in text && |text| <= 254
    ensures WriteOptions(f, text) == Commit(f, Absorb(UNSET, text))
  {
    OneToken(text);
    assert [text][1..] == [];
    assert Collect(UNSET, [text]) == Collect(Absorb(UNSET, text), []);
    hide Absorb, Tokens, CString;
  }

  /** The effect of a text with one option, by the option's name. */
  lemma OneOption(f: Flags, s: string, v: int)
    requires Word(s) && ScanInt(s) == Found(v)
    ensures WriteOptions(f, "open:" + s) == if v >= 0 then f.(open := v != 0) else f
    ensures WriteOptions(f, "read:" + s) == if v >= 0 then f.(read := v != 0) else f
    ensures WriteOptions(f, "write:" + s) == if v >= 0 then f.(write := v != 0) else f
    ensures WriteOptions(f, "spi:" + s) == if v >= 0 then f.(spi := v != 0) else f
  {
    hide ScanInt, Absorb, WriteOptions;
    OnlyOneToken(f, "open:" + s);
    OnlyOneToken(f, "read:" + s);
    OnlyOneToken(f, "write:" + s);
    OnlyOneToken(f, "spi:" + s);
    OpenToken(UNSET, s);
    ReadToken(UNSET, s);
    WriteToken(UNSET, s);
    SpiToken(UNSET, s);
  }

  lemma SwitchOffAndOn(f: Flags)
    ensures WriteOptions(f, "read:0") == f.(read := false)
    ensures WriteOptions(f, "write:1") == f.(write := true)
  {
    OneCharacter('0');
    OneCharacter('1');
    assert ['0'] == "0" && ['1'] == "1";
    PlainNumber("0");
    PlainNumber("1");
    OneOption(f, "0", 0);
    OneOption(f, "1", 1);
    assert "read:" + "0" == "read:0" && "write:" + "1" == "write:1";
    hide WriteOptions, ScanInt, Magnitude;
  }
}
