/** The text of the proc file shows the numbers themselves: read back digit by digit, with each character valued as
    usual, every column gives the slot number, the offset or the word it stands for. */
module DumpNumbers {
  import opened Layout
  import opened ProcOptions
  import opened ProcNumbers
  import opened ProcDump

  lemma HexDigitReads(d: nat)
    requires d < 16
    ensures Digit(HexDigit(d)) == d && ('0' <= HexDigit(d) <= '9' || 'A' <= HexDigit(d) <= 'F')
    ensures d < 10 ==> '0' <= HexDigit(d) <= '9'
  {
  }

  predicate UpperHex(s: string) { forall k :: 0 <= k < |s| ==> '0' <= s[k] <= '9' || 'A' <= s[k] <= 'F' }

  predicate Decimal10(s: string) { forall k :: 0 <= k < |s| ==> '0' <= s[k] <= '9' }

  /** n hexadecimal digits. */
  lemma {:induction false} HexReads(w: nat, n: nat)
    requires HasDigits(w, n)
    ensures |Hex(w, n)| == n && UpperHex(Hex(w, n)) && Digits(Hex(w, n), 16, 0) == w
    decreases n
  {
    if n > 0 {
      HexReads(w / 16, n - 1);
      HexDigitReads(w % 16);
      var front := Hex(w / 16, n - 1);
      forall k | 0 <= k < |front| ensures Digit(front[k]) < 16 { DigitValues(front[k]); }
      hide Digit, HexDigit;
      DigitsSnoc(Hex(w / 16, n - 1), 16, 0, HexDigit(w % 16));
    }
  }

  lemma WordReads(w: Word)
    ensures |Hex(w, 8)| == 8 && UpperHex(Hex(w, 8)) && Digits(Hex(w, 8), 16, 0) == w
  {
    WordFits(w);
    HexReads(w, 8);
  }

  lemma {:induction false} DecReads(n: nat)
    ensures Dec(n) != "" && Decimal10(Dec(n)) && Digits(Dec(n), 10, 0) == n
    ensures n > 0 ==> Dec(n)[0] != '0'
    decreases n
  {
    HexDigitReads(n % 10);
    if n < 10 {
      assert Dec(n) == [] + [HexDigit(n)];
      DigitsSnoc([], 10, 0, HexDigit(n));
      if n > 0 { HexDigitReads(n); }
    } else {
      DecReads(n / 10);
      var front := Dec(n / 10);
      forall k | 0 <= k < |front| ensures Digit(front[k]) < 10 { DigitValues(front[k]); }
      hide Digit, HexDigit;
      DigitsSnoc(Dec(n / 10), 10, 0, HexDigit(n % 10));
    }
  }

  /** %d shows the word as a signed 32-bit number. */
  lemma SignedReads(w: Word)
    ensures w < 0x8000_0000 ==> Decimal10(Signed(w)) && Digits(Signed(w), 10, 0) == w
    ensures w >= 0x8000_0000 ==>
      && Signed(w) != "" && Signed(w)[0] == '-' && Decimal10(Signed(w)[1..])
      && Digits(Signed(w)[1..], 10, 0) == WORD_LIMIT - w
  {
    DecReads(if w < 0x8000_0000 then w else WORD_LIMIT - w);
    hide Dec, Digits;
  }

  // ---------------------------------------------------------------------------------------------
  // Lines
  // ---------------------------------------------------------------------------------------------

  /** The eight characters from position p on are the word in hexadecimal. */
  predicate Shows(s: string, p: nat, w: Word) {
    p + 8 <= |s| && UpperHex(s[p..p + 8]) && Digits(s[p..p + 8], 16, 0) == w
  }

  lemma HexShows(u: string, w: Word, t: string)
    ensures Shows(u + (Hex(w, 8) + t), |u|, w)
  {
    WordReads(w);
    hide Hex, Digits, UpperHex;
    assert (u + (Hex(w, 8) + t))[|u|..|u| + 8] == Hex(w, 8);
  }

  /** A line of the system bar: register number, content in hexadecimal, content as a signed number. */
  lemma SysLineShows(reg: Word, w: Word)
    ensures var s := SysLine(reg, w);
            && |s| == 23 + |Signed(w)|
            && s[..2] == "0x" && Shows(s, 2, reg)
            && s[10..13] == "\t0x" && Shows(s, 13, w)
            && s[21..] == "\t" + Signed(w) + "\n"
  {
    hide Hex, Signed, Shows;
    var s := SysLine(reg, w);
    var tail := "\t" + Signed(w) + "\n";
    assert s == "0x" + (Hex(reg, 8) + ("\t0x" + (Hex(w, 8) + tail)));
    HexShows("0x", reg, "\t0x" + (Hex(w, 8) + tail));
    assert s == ("0x" + Hex(reg, 8) + "\t0x") + (Hex(w, 8) + tail);
    HexShows("0x" + Hex(reg, 8) + "\t0x", w, tail);
  }

  function Column(w: Word): (c: string)
    ensures |c| == 11
  {
    "\t0x" + Hex(w, 8)
  }

  /** The column behind the text u, and the same text with that column counted to the front. */
  lemma ColumnShows(u: string, w: Word, rest: string)
    ensures var s := u + Field(w, rest);
            && s == u + Column(w) + rest && |s| == |u| + 11 + |rest|
            && s[|u|..|u| + 3] == "\t0x" && Shows(s, |u| + 3, w)
  {
    hide Hex, Shows;
    Associate("\t0x", Hex(w, 8), rest);
    Associate(u, Column(w), rest);
    Associate(u, "\t0x", Hex(w, 8) + rest);
    HexShows(u + "\t0x", w, rest);
  }

  /** A line of the DMA bar: byte offset and four words. */
  lemma DmaLineShows(index: nat, w0: Word, w1: Word, w2: Word, w3: Word)
    requires 4 * index < WORD_LIMIT
    ensures var s := DmaLine(index, w0, w1, w2, w3);
            && |s| == 55 && s[54] == '\n'
            && s[..2] == "0x" && Shows(s, 2, 4 * index)
            && s[10..13] == "\t0x" && Shows(s, 13, w0)
            && s[21..24] == "\t0x" && Shows(s, 24, w1)
            && s[32..35] == "\t0x" && Shows(s, 35, w2)
            && s[43..46] == "\t0x" && Shows(s, 46, w3)
  {
    hide Field, Column, Shows, Hex;
    var u0 := Index(4 * index);
    var u1, r2 := u0 + Column(w0), Field(w3, "\n");
    var u2, r1 := u1 + Column(w1), Field(w2, r2);
    var u3, r0 := u2 + Column(w2), Field(w1, r1);
    ColumnShows(u0, w0, r0);
    ColumnShows(u1, w1, r1);
    ColumnShows(u2, w2, r2);
    ColumnShows(u3, w3, "\n");
    Associate("0x", Hex(4 * index, 8), Field(w0, r0));
    HexShows("0x", 4 * index, Field(w0, r0));
  }

  function Newlines(s: string): nat {
    if s == [] then 0 else Newlines(s[1..]) + if s[0] == '\n' then 1 else 0
  }

  lemma {:induction false} NewlinesAppend(s: string, t: string)
    ensures Newlines(s + t) == Newlines(s) + Newlines(t)
    decreases |s|
  {
    if s == [] {
      assert s + t == t;
    } else {
      assert (s + t)[1..] == s[1..] + t;
      NewlinesAppend(s[1..], t);
    }
  }

  lemma {:induction false} NoNewline(s: string)
    requires '\n' !in s
    ensures Newlines(s) == 0
    decreases |s|
  {
    if s != [] { NoNewline(s[1..]); }
  }

  lemma OneLine(s: string)
    requires s != "" && s[|s| - 1] == '\n' && '\n' !in s[..|s| - 1]
    ensures Newlines(s) == 1
  {
    NoNewline(s[..|s| - 1]);
    assert s == s[..|s| - 1] + ['\n'];
    assert ['\n'][1..] == [];
    NewlinesAppend(s[..|s| - 1], ['\n']);
  }

  lemma WordHasNoNewline(w: Word)
    ensures Newlines(Hex(w, 8)) == 0 && Newlines(Signed(w)) == 0
  {
    WordReads(w);
    NoNewline(Hex(w, 8));
    SignedReads(w);
    NoNewline(Signed(w));
  }

  lemma SysLineIsOneLine(reg: Word, w: Word)
    ensures Newlines(SysLine(reg, w)) == 1
  {
    hide Hex, Signed;
    WordHasNoNewline(reg);
    WordHasNoNewline(w);
    var a, b, c := "0x" + Hex(reg, 8), "\t0x" + Hex(w, 8), "\t" + Signed(w);
    NoNewline("0x");
    NoNewline("\t0x");
    NoNewline("\t");
    OneLine("\n");
    NewlinesAppend("0x", Hex(reg, 8));
    NewlinesAppend("\t0x", Hex(w, 8));
    NewlinesAppend("\t", Signed(w));
    NewlinesAppend(a, b);
    NewlinesAppend(a + b, c);
    NewlinesAppend(a + b + c, "\n");
    assert SysLine(reg, w) == a + b + c + "\n";
  }

  lemma DmaLineIsOneLine(index: nat, w0: Word, w1: Word, w2: Word, w3: Word)
    requires 4 * index < WORD_LIMIT
    ensures Newlines(DmaLine(index, w0, w1, w2, w3)) == 1
  {
    hide Hex, Signed, Newlines;
    WordHasNoNewline(4 * index);
    FieldLines(w3, "\n");
    FieldLines(w2, Field(w3, "\n"));
    FieldLines(w1, Field(w2, Field(w3, "\n")));
    FieldLines(w0, Field(w1, Field(w2, Field(w3, "\n"))));
    OneLine("\n");
    NoNewline("0x");
    NewlinesAppend("0x", Hex(4 * index, 8));
    NewlinesAppend(Index(4 * index), Field(w0, Field(w1, Field(w2, Field(w3, "\n")))));
    hide Field;
  }

  lemma FieldLines(w: Word, rest: string)
    ensures Newlines(Field(w, rest)) == Newlines(rest)
  {
    WordHasNoNewline(w);
    NoNewline("\t0x");
    NewlinesAppend(Hex(w, 8), rest);
    NewlinesAppend("\t0x", Hex(w, 8) + rest);
    hide Hex, Newlines;
  }

  lemma SysLinesCons(sys: seq<Word>, reg: nat)
    requires reg < |sys|
    ensures SysLines(sys, reg) == SysLine(reg, sys[reg]) + SysLines(sys, reg + 1)
  {
    hide SysLine;
  }

  lemma NothingBefore(s: string)
    ensures "" + s == s && Newlines("") == 0
  {
  }

  /** Line k of the listing of the registers is the line of register k. */
  lemma {:induction false} RegisterLine(sys: seq<Word>, reg: nat, k: nat) returns (before: string)
    requires reg <= k < |sys| < WORD_LIMIT
    ensures SysLines(sys, reg) == before + (SysLine(k, sys[k]) + SysLines(sys, k + 1)) && Newlines(before) == k - reg
    decreases k - reg
  {
    hide SysLine, SysLines, Newlines;
    SysLinesCons(sys, reg);
    if reg == k {
      before := "";
      NothingBefore(SysLines(sys, reg));
    } else {
      var u := RegisterLine(sys, reg + 1, k);
      before := SysLine(reg, sys[reg]) + u;
      SysLineIsOneLine(reg, sys[reg]);
      NewlinesAppend(SysLine(reg, sys[reg]), u);
      Associate(SysLine(reg, sys[reg]), u, SysLine(k, sys[k]) + SysLines(sys, k + 1));
    }
  }

  /** The line of words 4 * k to 4 * k + 3, and all lines from this one on. */
  function Row(dma: seq<Word>, k: nat): string
    requires 4 * k + 4 <= |dma|
  {
    DmaLine(4 * k, dma[4 * k], dma[4 * k + 1], dma[4 * k + 2], dma[4 * k + 3])
  }

  function Rows(dma: seq<Word>, k: nat): string
    requires |dma| % 4 == 0 && 4 * k <= |dma|
  {
    DmaLines(dma, 4 * k)
  }

  lemma RowsCons(dma: seq<Word>, k: nat)
    requires |dma| % 4 == 0 && 4 * k < |dma| && 4 * |dma| < WORD_LIMIT
    ensures 4 * k + 4 <= |dma| && Rows(dma, k) == Row(dma, k) + Rows(dma, k + 1) && Newlines(Row(dma, k)) == 1
  {
    hide DmaLine, DmaLines, Newlines;
    DmaLinesCons(dma, 4 * k);
    DmaLineIsOneLine(4 * k, dma[4 * k], dma[4 * k + 1], dma[4 * k + 2], dma[4 * k + 3]);
  }

  /** Line k of the listing of the DMA bar is the line of words 4 * k to 4 * k + 3; i is the first line. */
  lemma {:induction false} DmaRow(dma: seq<Word>, i: nat, k: nat) returns (before: string)
    requires |dma| % 4 == 0 && i <= k && 4 * k < |dma| && 4 * |dma| < WORD_LIMIT
    ensures 4 * k + 4 <= |dma| && Rows(dma, i) == before + (Row(dma, k) + Rows(dma, k + 1))
    ensures Newlines(before) == k - i
    decreases k - i
  {
    hide Row, Rows, Newlines;
    RowsCons(dma, i);
    if i == k {
      before := "";
      NothingBefore(Rows(dma, i));
    } else {
      var u := DmaRow(dma, i + 1, k);
      before := Row(dma, i) + u;
      NewlinesAppend(Row(dma, i), u);
      Associate(Row(dma, i), u, Row(dma, k) + Rows(dma, k + 1));
    }
  }

  // ---------------------------------------------------------------------------------------------
  // The whole dump
  // ---------------------------------------------------------------------------------------------

  /** Where the slot number stands, and how many lines come before the registers and before the DMA words. */
  lemma ClosedTitle(n: nat)
    ensures NotInUse(n) == "Device " + Dec(n) + " not in use.\n\n"
  {
    hide Dec;
  }

  lemma SysTitleLines(n: nat)
    ensures SysHeader(n) == "Device " + Dec(n) + (" System Bar:\n" + "Register Content_hex Content_dec:\n")
    ensures Newlines(SysHeader(n)) == 2
  {
    DecHasNoNewline(n);
    hide Dec, Newlines;
    OneLine(" System Bar:\n");
    OneLine("Register Content_hex Content_dec:\n");
    NoNewline("Device ");
    var a, b := " System Bar:\n", "Register Content_hex Content_dec:\n";
    NewlinesAppend(a, b);
    NewlinesAppend("Device ", Dec(n));
    NewlinesAppend("Device " + Dec(n), a + b);
    Associate("Device ", Dec(n), a + b);
    Associate(" ", "System Bar:\n", b);
    assert " " + "System Bar:\n" == a;
  }

  lemma DmaTitleLines(n: nat)
    ensures DmaHeader(n) == "\nDevice " + Dec(n) + (" DMA Bar:\n" + DmaColumns())
    ensures Newlines(DmaHeader(n)) == 3
  {
    DecHasNoNewline(n);
    DmaColumnsLine();
    hide Dec, Newlines;
    var a, b := " DMA Bar:\n", DmaColumns();
    OneLine(a);
    OneLine("\n");
    NoNewline("Device ");
    NewlinesAppend("\n", "Device ");
    assert "\n" + "Device " == "\nDevice ";
    NewlinesAppend(a, b);
    NewlinesAppend("\nDevice ", Dec(n));
    NewlinesAppend("\nDevice " + Dec(n), a + b);
    Associate("\nDevice ", Dec(n), a + b);
    assert " " + DmaTitle() == a + b by {
      Associate(" ", "DMA Bar:\n", b);
      assert " " + "DMA Bar:\n" == a;
    }
  }

  function DmaColumns(): string {
    "Offset Content[offset]  " + "Content[offset+0x4]  " + "Content[offset+0x8] " + "Content[offset+0xC]:\n"
  }

  lemma DmaColumnsLine()
    ensures Newlines(DmaColumns()) == 1
  {
    hide Newlines;
    var a, b, c := "Offset Content[offset]  ", "Content[offset+0x4]  ", "Content[offset+0x8] ";
    NoNewline(a);
    NoNewline(b);
    NoNewline(c);
    OneLine("Content[offset+0xC]:\n");
    NewlinesAppend(a, b);
    NewlinesAppend(a + b, c);
    NewlinesAppend(a + b + c, "Content[offset+0xC]:\n");
  }

  lemma DecHasNoNewline(n: nat)
    ensures Newlines(Dec(n)) == 0
  {
    DecReads(n);
    NoNewline(Dec(n));
  }

  /** Line 2 + k of the text of an open device shows register k. */
  lemma RegisterIsShown(n: nat, b: Bars, k: nat) returns (before: string, after: string)
    requires k < N_REGISTERS
    ensures Dump(n, b) == before + (SysLine(k, b.sys[k]) + after) && Newlines(before) == 2 + k
  {
    hide SysHeader, SysLines, DmaPart, SysLine, Newlines;
    SysTitleLines(n);
    var u := RegisterLine(b.sys, 0, k);
    before, after := SysHeader(n) + u, SysLines(b.sys, k + 1) + DmaPart(n, b.dma);
    NewlinesAppend(SysHeader(n), u);
    var line := SysLine(k, b.sys[k]);
    Associate(u, line + SysLines(b.sys, k + 1), DmaPart(n, b.dma));
    Associate(line, SysLines(b.sys, k + 1), DmaPart(n, b.dma));
    Associate(SysHeader(n), u, line + after);
  }

  lemma {:induction false} ListingLines(sys: seq<Word>, reg: nat)
    requires reg <= |sys| < WORD_LIMIT
    ensures Newlines(SysLines(sys, reg)) == |sys| - reg
    decreases |sys| - reg
  {
    hide SysLine;
    if reg < |sys| {
      SysLineIsOneLine(reg, sys[reg]);
      ListingLines(sys, reg + 1);
      NewlinesAppend(SysLine(reg, sys[reg]), SysLines(sys, reg + 1));
    }
  }

  /** Line 37 + k shows DMA words 4 * k to 4 * k + 3. */
  lemma RowIsShown(n: nat, b: Bars, k: nat) returns (before: string, after: string)
    requires 4 * k < DMA_WORDS
    ensures Dump(n, b)
         == before + (DmaLine(4 * k, b.dma[4 * k], b.dma[4 * k + 1], b.dma[4 * k + 2], b.dma[4 * k + 3]) + after)
    ensures Newlines(before) == 37 + k
  {
    hide SysHeader, SysLines, DmaHeader, DmaLines, DmaLine, Newlines;
    SysTitleLines(n);
    DmaTitleLines(n);
    ListingLines(b.sys, 0);
    var u := DmaRow(b.dma, 0, k);
    var line, rest := Row(b.dma, k), Rows(b.dma, k + 1);
    var front := SysHeader(n) + SysLines(b.sys, 0) + DmaHeader(n);
    before, after := front + u, rest + "\n";
    NewlinesAppend(SysHeader(n), SysLines(b.sys, 0));
    NewlinesAppend(SysHeader(n) + SysLines(b.sys, 0), DmaHeader(n));
    NewlinesAppend(front, u);
    Associate(u, line + rest, "\n");
    Associate(line, rest, "\n");
    Associate(front, u, line + after);
    Associate(SysHeader(n), SysLines(b.sys, 0), DmaHeader(n) + (u + (line + after)));
    Associate(SysHeader(n) + SysLines(b.sys, 0), DmaHeader(n), u + (line + after));
  }
}
