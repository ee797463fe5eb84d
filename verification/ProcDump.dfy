/** Reading the proc file: the text of an open device determines its slot number and both bars. */
module ProcDump {
  import opened Layout
  import opened Firmware
  import opened ProcOptions

  function HexDigit(d: nat): char
    requires d < 16
  {
    "0123456789ABCDEF"[d]
  }

  /** The n lowest hex digits, as in %08X for n = 8. */
  function Hex(w: nat, n: nat): (s: string)
    ensures |s| == n
  {
    if n == 0 then "" else Hex(w / 16, n - 1) + [HexDigit(w % 16)]
  }

  /** %i of a number that is not negative. */
  function Dec(n: nat): string {
    if n < 10 then [HexDigit(n)] else Dec(n / 10) + [HexDigit(n % 10)]
  }

  /** %d of an unsigned word. */
  function Signed(w: Word): string { if w < 0x8000_0000 then Dec(w) else "-" + Dec(WORD_LIMIT - w) }

  /** One column holding a word in hex, and what follows it. */
  function Field(w: nat, rest: string): string { "\t0x" + (Hex(w, 8) + rest) }

  /** The first column of a line. */
  function Index(i: nat): (s: string)
    ensures |s| == 10
  {
    "0x" + Hex(i, 8)
  }

  function Decimal(w: Word): string { "\t" + Signed(w) + "\n" }

  function SysLine(reg: nat, w: Word): string { Index(reg) + Field(w, Decimal(w)) }

  function SysLines(sys: seq<Word>, reg: nat): string
    requires reg <= |sys|
    decreases |sys| - reg
  {
    if reg == |sys| then "" else SysLine(reg, sys[reg]) + SysLines(sys, reg + 1)
  }

  /** Four words of the DMA bar. */
  function DmaLine(index: nat, w0: Word, w1: Word, w2: Word, w3: Word): string {
    Index(4 * index) + Field(w0, Field(w1, Field(w2, Field(w3, "\n"))))
  }

  function DmaLines(dma: seq<Word>, index: nat): string
    requires index <= |dma| && (|dma| - index) % 4 == 0
    decreases |dma| - index
  {
    if index == |dma| then ""
    else DmaLine(index, dma[index], dma[index + 1], dma[index + 2], dma[index + 3]) + DmaLines(dma, index + 4)
  }

  function SysTitle(): string { "System Bar:\n" + "Register Content_hex Content_dec:\n" }

  function SysHeader(slotNr: nat): string { "Device " + (Dec(slotNr) + (" " + SysTitle())) }

  function DmaTitle(): string {
    "DMA Bar:\n" + ("Offset Content[offset]  " + "Content[offset+0x4]  " + "Content[offset+0x8] "
                    + "Content[offset+0xC]:\n")
  }

  function DmaHeader(slotNr: nat): string { "\nDevice " + (Dec(slotNr) + (" " + DmaTitle())) }

  function DmaPart(slotNr: nat, dma: seq<Word>): string
    requires |dma| % 4 == 0
  {
    DmaHeader(slotNr) + (DmaLines(dma, 0) + "\n")
  }

  /** What the proc file shows of an open device. */
  function Dump(slotNr: nat, b: Bars): string {
    SysHeader(slotNr) + (SysLines(b.sys, 0) + DmaPart(slotNr, b.dma))
  }

  function NotInUse(slotNr: nat): string { "Device " + Dec(slotNr) + " not in use.\n\n" }

  // ---------------------------------------------------------------------------------------------
  // The driver's method
  // ---------------------------------------------------------------------------------------------

  method SeqShow(dev: Device, interrupted: bool) returns (status: int, s: string)
    requires dev.Valid() && !dev.devMutex.held
    modifies dev.devMutex
    ensures !dev.devMutex.held
    ensures dev.inUse == 0 ==> status == 0 && s == NotInUse(dev.slotNr)
    ensures dev.inUse != 0 && interrupted ==> status == ERESTARTSYS && s == ""
    ensures dev.inUse != 0 && !interrupted ==> status == 0 && s == Dump(dev.slotNr, dev.Contents())
    ensures status == if ViewOf(dev).Opened? && interrupted then ERESTARTSYS else 0
    ensures status == 0 ==> s == Section(dev.slotNr, ViewOf(dev))
  {
    hide SysHeader, DmaHeader, NotInUse, SysLines, DmaLines;
    if dev.inUse == 0 { return 0, NotInUse(dev.slotNr); }
    status := dev.devMutex.LockInterruptible(interrupted);
    if status != 0 { return ERESTARTSYS, ""; }
    var sys := ShowSystemBar(dev.systemBar);
    var dma := ShowDmaBar(dev.dmaBar);
    s := SysHeader(dev.slotNr) + (sys + (DmaHeader(dev.slotNr) + (dma + "\n")));
    dev.devMutex.Unlock();
  }

  method ShowSystemBar(systemBar: array<Word>) returns (s: string)
    ensures s == SysLines(systemBar[..], 0)
  {
    hide SysLine;
    s := "";
    ghost var all := systemBar[..];
    var reg := 0;
    while reg < systemBar.Length
      invariant reg <= systemBar.Length
      invariant s + SysLines(all, reg) == SysLines(all, 0)
    {
      Associate(s, SysLine(reg, all[reg]), SysLines(all, reg + 1));
      s := s + SysLine(reg, systemBar[reg]);
      reg := reg + 1;
    }
    assert s + "" == s;
  }

  lemma DmaLinesCons(dma: seq<Word>, index: nat)
    requires index <= |dma| && (|dma| - index) % 4 == 0
    ensures index == |dma| ==> DmaLines(dma, index) == ""
    ensures index < |dma| ==>
      DmaLines(dma, index) == DmaLine(index, dma[index], dma[index + 1], dma[index + 2], dma[index + 3])
                              + DmaLines(dma, index + 4)
  {
    hide DmaLine;
  }

  method ShowDmaBar(dmaBar: array<Word>) returns (s: string)
    requires dmaBar.Length % 4 == 0
    ensures s == DmaLines(dmaBar[..], 0)
  {
    hide DmaLine, DmaLines;
    s := "";
    ghost var all := dmaBar[..];
    var index := 0;
    while index + 4 <= dmaBar.Length
      invariant index <= dmaBar.Length && (dmaBar.Length - index) % 4 == 0
      invariant s + DmaLines(all, index) == DmaLines(all, 0)
    {
      var line := DmaLine(index, dmaBar[index], dmaBar[index + 1], dmaBar[index + 2], dmaBar[index + 3]);
      DmaLinesCons(all, index);
      Associate(s, line, DmaLines(all, index + 4));
      s := s + line;
      index := index + 4;
    }
    DmaLinesCons(all, index);
    assert s + "" == s;
  }

  lemma Associate(a: string, b: string, c: string)
    ensures (a + b) + c == a + (b + c)
  {
  }

  // ---------------------------------------------------------------------------------------------
  // The text determines the device
  // ---------------------------------------------------------------------------------------------

  lemma Cancel(x: string, u: string, y: string, v: string)
    requires x + u == y + v && |x| == |y|
    ensures x == y && u == v
  {
    assert x == (x + u)[..|x|] && y == (y + v)[..|x|];
    assert u == (x + u)[|x|..] && v == (y + v)[|x|..];
  }

  lemma DigitInjective(c: nat, d: nat)
    requires c < 16 && d < 16 && HexDigit(c) == HexDigit(d)
    ensures c == d
  {
  }

  /** w has at most n hex digits. */
  predicate HasDigits(w: nat, n: nat) { if n == 0 then w == 0 else HasDigits(w / 16, n - 1) }

  lemma WordFits(w: Word)
    ensures HasDigits(w, 8)
  {
    var w2 := w / 16 / 16;
    var w4 := w2 / 16 / 16;
    var w6 := w4 / 16 / 16;
    assert w6 / 16 / 16 == 0;
    assert HasDigits(w6, 2);
    assert HasDigits(w4, 4);
    assert HasDigits(w2, 6);
  }

  lemma {:induction false} HexInjective(v: nat, w: nat, n: nat)
    requires HasDigits(v, n) && HasDigits(w, n) && Hex(v, n) == Hex(w, n)
    ensures v == w
    decreases n
  {
    if n > 0 {
      Cancel(Hex(v / 16, n - 1), [HexDigit(v % 16)], Hex(w / 16, n - 1), [HexDigit(w % 16)]);
      assert HexDigit(v % 16) == [HexDigit(v % 16)][0] == [HexDigit(w % 16)][0];
      DigitInjective(v % 16, w % 16);
      HexInjective(v / 16, w / 16, n - 1);
    }
  }

  /** A hex word at the start of two equal texts. */
  lemma HexPrefix(v: Word, u: string, w: Word, t: string)
    requires Hex(v, 8) + u == Hex(w, 8) + t
    ensures v == w && u == t
  {
    Cancel(Hex(v, 8), u, Hex(w, 8), t);
    WordFits(v);
    WordFits(w);
    HexInjective(v, w, 8);
  }

  lemma FieldInjective(v: Word, u: string, w: Word, t: string)
    requires Field(v, u) == Field(w, t)
    ensures v == w && u == t
  {
    hide Hex;
    Cancel("\t0x", Hex(v, 8) + u, "\t0x", Hex(w, 8) + t);
    HexPrefix(v, u, w, t);
  }

  lemma FieldAppend(w: Word, rest: string, u: string)
    ensures Field(w, rest) + u == Field(w, rest + u)
  {
    hide Hex;
    Associate("\t0x", Hex(w, 8) + rest, u);
    Associate(Hex(w, 8), rest, u);
  }

  lemma SysLinePrefix(reg: nat, v: Word, u: string, w: Word, t: string)
    requires SysLine(reg, v) + u == SysLine(reg, w) + t
    ensures v == w && u == t
  {
    hide Field, Decimal, Index;
    Associate(Index(reg), Field(v, Decimal(v)), u);
    Associate(Index(reg), Field(w, Decimal(w)), t);
    FieldAppend(v, Decimal(v), u);
    FieldAppend(w, Decimal(w), t);
    Cancel(Index(reg), Field(v, Decimal(v) + u), Index(reg), Field(w, Decimal(w) + t));
    FieldInjective(v, Decimal(v) + u, w, Decimal(w) + t);
    Cancel(Decimal(v), u, Decimal(w), t);
  }

  lemma {:induction false} SysLinesInjective(x: seq<Word>, u: string, y: seq<Word>, t: string, reg: nat)
    requires reg <= |x| == |y| && SysLines(x, reg) + u == SysLines(y, reg) + t
    ensures u == t && forall k :: reg <= k < |x| ==> x[k] == y[k]
    decreases |x| - reg
  {
    hide SysLine;
    if reg < |x| {
      var xs, ys := SysLines(x, reg + 1), SysLines(y, reg + 1);
      Associate(SysLine(reg, x[reg]), xs, u);
      Associate(SysLine(reg, y[reg]), ys, t);
      SysLinePrefix(reg, x[reg], xs + u, y[reg], ys + t);
      SysLinesInjective(x, u, y, t, reg + 1);
    } else {
      Cancel("", u, "", t);
    }
  }

  /** The four columns of a DMA line and what comes after the line. */
  function Columns(w0: Word, w1: Word, w2: Word, w3: Word, u: string): string {
    Field(w0, Field(w1, Field(w2, Field(w3, "\n" + u))))
  }

  lemma DmaLineAppend(index: nat, w0: Word, w1: Word, w2: Word, w3: Word, u: string)
    ensures DmaLine(index, w0, w1, w2, w3) + u == Index(4 * index) + Columns(w0, w1, w2, w3, u)
  {
    hide Field, Index;
    FieldAppend(w3, "\n", u);
    FieldAppend(w2, Field(w3, "\n"), u);
    FieldAppend(w1, Field(w2, Field(w3, "\n")), u);
    FieldAppend(w0, Field(w1, Field(w2, Field(w3, "\n"))), u);
    Associate(Index(4 * index), Field(w0, Field(w1, Field(w2, Field(w3, "\n")))), u);
  }

  lemma ColumnsInjective(v0: Word, v1: Word, v2: Word, v3: Word, u: string,
                         w0: Word, w1: Word, w2: Word, w3: Word, t: string)
    requires Columns(v0, v1, v2, v3, u) == Columns(w0, w1, w2, w3, t)
    ensures v0 == w0 && v1 == w1 && v2 == w2 && v3 == w3 && u == t
  {
    hide Field;
    FieldInjective(v0, Field(v1, Field(v2, Field(v3, "\n" + u))), w0, Field(w1, Field(w2, Field(w3, "\n" + t))));
    FieldInjective(v1, Field(v2, Field(v3, "\n" + u)), w1, Field(w2, Field(w3, "\n" + t)));
    FieldInjective(v2, Field(v3, "\n" + u), w2, Field(w3, "\n" + t));
    FieldInjective(v3, "\n" + u, w3, "\n" + t);
    Cancel("\n", u, "\n", t);
  }

  lemma DmaLinePrefix(index: nat, x: seq<Word>, u: string, y: seq<Word>, t: string)
    requires index + 4 <= |x| == |y|
    requires DmaLine(index, x[index], x[index + 1], x[index + 2], x[index + 3]) + u
          == DmaLine(index, y[index], y[index + 1], y[index + 2], y[index + 3]) + t
    ensures u == t && forall k :: index <= k < index + 4 ==> x[k] == y[k]
  {
    hide DmaLine, Columns, Index;
    DmaLineAppend(index, x[index], x[index + 1], x[index + 2], x[index + 3], u);
    DmaLineAppend(index, y[index], y[index + 1], y[index + 2], y[index + 3], t);
    Cancel(Index(4 * index), Columns(x[index], x[index + 1], x[index + 2], x[index + 3], u),
           Index(4 * index), Columns(y[index], y[index + 1], y[index + 2], y[index + 3], t));
    ColumnsInjective(x[index], x[index + 1], x[index + 2], x[index + 3], u,
                     y[index], y[index + 1], y[index + 2], y[index + 3], t);
  }

  lemma {:induction false} DmaLinesInjective(x: seq<Word>, u: string, y: seq<Word>, t: string, index: nat)
    requires index <= |x| == |y| && (|x| - index) % 4 == 0 && DmaLines(x, index) + u == DmaLines(y, index) + t
    ensures u == t && forall k :: index <= k < |x| ==> x[k] == y[k]
    decreases |x| - index
  {
    hide DmaLine;
    if index < |x| {
      var xs, ys := DmaLines(x, index + 4), DmaLines(y, index + 4);
      Associate(DmaLine(index, x[index], x[index + 1], x[index + 2], x[index + 3]), xs, u);
      Associate(DmaLine(index, y[index], y[index + 1], y[index + 2], y[index + 3]), ys, t);
      DmaLinePrefix(index, x, xs + u, y, ys + t);
      DmaLinesInjective(x, u, y, t, index + 4);
    } else {
      Cancel("", u, "", t);
    }
  }

  // Slot numbers have no fixed width; the space after them ends them.

  lemma {:induction false} DecHasNoSpace(n: nat)
    ensures ' ' !in Dec(n) && |Dec(n)| > 0
  {
    if n >= 10 { DecHasNoSpace(n / 10); }
  }

  lemma {:induction false} DecInjective(m: nat, n: nat)
    requires Dec(m) == Dec(n)
    ensures m == n
  {
    var c, d := m % 10, n % 10;
    assert Dec(m)[|Dec(m)| - 1] == HexDigit(c) && Dec(n)[|Dec(n)| - 1] == HexDigit(d);
    DigitInjective(c, d);
    DecHasNoSpace(m / 10);
    DecHasNoSpace(n / 10);
    if m >= 10 && n >= 10 {
      Cancel(Dec(m / 10), [HexDigit(c)], Dec(n / 10), [HexDigit(d)]);
      DecInjective(m / 10, n / 10);
    }
  }

  lemma SlotPrefix(m: nat, u: string, n: nat, t: string)
    requires Dec(m) + (" " + u) == Dec(n) + (" " + t)
    ensures m == n && u == t
  {
    DecHasNoSpace(m);
    DecHasNoSpace(n);
    IndexOfAppend(Dec(m), " " + u, ' ');
    IndexOfAppend(Dec(n), " " + t, ' ');
    assert IndexOf(" " + u, ' ') == 0 == IndexOf(" " + t, ' ');
    hide Dec, IndexOf;
    Cancel(Dec(m), " " + u, Dec(n), " " + t);
    Cancel(" ", u, " ", t);
    DecInjective(m, n);
  }

  lemma HeaderAppend(m: nat, u: string)
    ensures SysHeader(m) + u == "Device " + (Dec(m) + (" " + (SysTitle() + u)))
  {
    hide Dec, SysTitle;
    Associate("Device ", Dec(m) + (" " + SysTitle()), u);
    Associate(Dec(m), " " + SysTitle(), u);
    Associate(" ", SysTitle(), u);
  }

  lemma HeaderPrefix(m: nat, u: string, n: nat, t: string)
    requires SysHeader(m) + u == SysHeader(n) + t
    ensures m == n && u == t
  {
    hide SysHeader, Dec, SysTitle;
    HeaderAppend(m, u);
    HeaderAppend(n, t);
    Cancel("Device ", Dec(m) + (" " + (SysTitle() + u)), "Device ", Dec(n) + (" " + (SysTitle() + t)));
    SlotPrefix(m, SysTitle() + u, n, SysTitle() + t);
    Cancel(SysTitle(), u, SysTitle(), t);
  }

  /** Two open devices whose texts begin two equal texts have the same slot number, registers and DMA memory. */
  lemma DumpPrefix(m: nat, b: Bars, u: string, n: nat, c: Bars, t: string)
    requires Dump(m, b) + u == Dump(n, c) + t
    ensures m == n && b == c && u == t
  {
    hide SysHeader, DmaHeader, SysLines, DmaLines;
    DumpAppend(m, b, u);
    DumpAppend(n, c, t);
    var x, y := DmaHeader(m) + (DmaLines(b.dma, 0) + ("\n" + u)), DmaHeader(n) + (DmaLines(c.dma, 0) + ("\n" + t));
    HeaderPrefix(m, SysLines(b.sys, 0) + x, n, SysLines(c.sys, 0) + y);
    SysLinesInjective(b.sys, x, c.sys, y, 0);
    Cancel(DmaHeader(m), DmaLines(b.dma, 0) + ("\n" + u), DmaHeader(n), DmaLines(c.dma, 0) + ("\n" + t));
    DmaLinesInjective(b.dma, "\n" + u, c.dma, "\n" + t, 0);
    Cancel("\n", u, "\n", t);
    assert b.sys == c.sys && b.dma == c.dma;
  }

  lemma DumpAppend(m: nat, b: Bars, u: string)
    ensures Dump(m, b) + u
         == SysHeader(m) + (SysLines(b.sys, 0) + (DmaHeader(m) + (DmaLines(b.dma, 0) + ("\n" + u))))
  {
    hide SysHeader, DmaHeader, SysLines, DmaLines;
    Associate(SysHeader(m), SysLines(b.sys, 0) + DmaPart(m, b.dma), u);
    Associate(SysLines(b.sys, 0), DmaPart(m, b.dma), u);
    Associate(DmaHeader(m), DmaLines(b.dma, 0) + "\n", u);
    Associate(DmaLines(b.dma, 0), "\n", u);
  }

  lemma DumpInjective(m: nat, b: Bars, n: nat, c: Bars)
    requires Dump(m, b) == Dump(n, c)
    ensures m == n && b == c
  {
    hide Dump;
    assert Dump(m, b) + "" == Dump(m, b) && Dump(n, c) + "" == Dump(n, c);
    DumpPrefix(m, b, "", n, c, "");
  }

  // ---------------------------------------------------------------------------------------------
  // The whole file
  // ---------------------------------------------------------------------------------------------

  /** What the file shows of a device. */
  datatype View = Unopened | Opened(bars: Bars)

  function Section(slotNr: nat, v: View): string {
    match v
    case Unopened => NotInUse(slotNr)
    case Opened(bars) => Dump(slotNr, bars)
  }

  /** The sections of the devices p to q, in order. */
  function Sections(views: seq<View>, p: nat, q: nat): string
    requires q <= |views|
    decreases q - p
  {
    if p >= q then "" else Section(p, views[p]) + Sections(views, p + 1, q)
  }

  ghost function ViewOf(d: Device): View
    requires d.Valid()
    reads d, d.systemBar, d.dmaBar
  {
    if d.inUse == 0 then Unopened else Opened(d.Contents())
  }

  /** The first device from p on that is open and whose lock is interrupted, or the number of devices. */
  function FirstInterrupted(views: seq<View>, interrupts: seq<bool>, p: nat): (r: nat)
    requires p <= |views| == |interrupts|
    ensures p <= r <= |views| && (r < |views| ==> views[r].Opened? && interrupts[r])
    ensures forall k :: p <= k < r ==> views[k].Opened? ==> !interrupts[k]
    decreases |views| - p
  {
    if p == |views| || (views[p].Opened? && interrupts[p]) then p else FirstInterrupted(views, interrupts, p + 1)
  }

  /** start, show and next, as a reader of the proc file drives them from position pos. */
  method ReadFrom(drv: Driver, pos: nat, interrupts: seq<bool>, ghost views: seq<View>) returns (status: int, s: string)
    requires drv.Valid() && drv.Idle() && |interrupts| == |views| == |drv.devices|
    requires forall i :: 0 <= i < |views| ==> views[i] == ViewOf(drv.devices[i])
    modifies set d <- drv.devices :: d.devMutex
    ensures drv.Idle()
    ensures pos >= |views| ==> status == 0 && s == ""
    ensures pos < |views| ==>
      var stop := FirstInterrupted(views, interrupts, pos);
      s == Sections(views, pos, stop) && status == if stop < |views| then ERESTARTSYS else 0
  {
    hide Section, Dump, NotInUse, ViewOf, Sections, FirstInterrupted;
    s := "";
    if pos >= |drv.devices| { return 0, s; }
    ghost var stop := FirstInterrupted(views, interrupts, pos);
    NothingShown(views, pos);
    var p := pos;
    while p < |drv.devices|
      invariant drv.Idle() && pos <= p <= |views| && s == Sections(views, pos, p)
      invariant forall i :: 0 <= i < |views| ==> views[i] == ViewOf(drv.devices[i])
      invariant stop == FirstInterrupted(views, interrupts, p)
    {
      var section;
      StopStep(views, interrupts, p);
      SectionsMore(views, pos, p);
      status, section := SeqShow(drv.devices[p], interrupts[p]);
      if status != 0 { return status, s; }
      s := s + section;
      p := p + 1;
    }
    status := 0;
  }

  lemma NothingShown(views: seq<View>, p: nat)
    requires p <= |views|
    ensures Sections(views, p, p) == ""
  {
  }

  lemma StopStep(views: seq<View>, interrupts: seq<bool>, p: nat)
    requires p < |views| == |interrupts|
    ensures FirstInterrupted(views, interrupts, p)
         == if views[p].Opened? && interrupts[p] then p else FirstInterrupted(views, interrupts, p + 1)
  {
  }

  lemma {:induction false} SectionsMore(views: seq<View>, p: nat, q: nat)
    requires p <= q < |views|
    ensures Sections(views, p, q + 1) == Sections(views, p, q) + Section(q, views[q])
    decreases q - p
  {
    hide Section;
    if p < q {
      SectionsMore(views, p + 1, q);
      Associate(Section(p, views[p]), Sections(views, p + 1, q), Section(q, views[q]));
    } else {
      assert Sections(views, p + 1, q + 1) == "";
    }
  }

  /** Reading may be resumed at any position. */
  lemma {:induction false} SectionsSplit(views: seq<View>, p: nat, m: nat, q: nat)
    requires p <= m <= q <= |views|
    ensures Sections(views, p, q) == Sections(views, p, m) + Sections(views, m, q)
    decreases m - p
  {
    hide Section;
    if p < m {
      SectionsSplit(views, p + 1, m, q);
      Associate(Section(p, views[p]), Sections(views, p + 1, m), Sections(views, m, q));
    }
  }

  lemma ClosedAppend(m: nat, u: string)
    ensures NotInUse(m) + u == "Device " + (Dec(m) + (" " + ("not in use.\n\n" + u)))
  {
    hide Dec;
  }

  /** The text tells an open device from a closed one. */
  lemma OpenIsNotClosed(m: nat, b: Bars, u: string, n: nat, t: string)
    ensures Dump(m, b) + u != NotInUse(n) + t
  {
    hide SysHeader, DmaHeader, SysLines, DmaLines, NotInUse, Dump, SysTitle, Dec;
    if Dump(m, b) + u == NotInUse(n) + t {
      DumpAppend(m, b, u);
      var x := SysLines(b.sys, 0) + (DmaHeader(m) + (DmaLines(b.dma, 0) + ("\n" + u)));
      HeaderAppend(m, x);
      ClosedAppend(n, t);
      Cancel("Device ", Dec(m) + (" " + (SysTitle() + x)), "Device ", Dec(n) + (" " + ("not in use.\n\n" + t)));
      SlotPrefix(m, SysTitle() + x, n, "not in use.\n\n" + t);
      TitleBegins(x);
    }
  }

  lemma TitleBegins(x: string)
    ensures SysTitle() + x != [] && (SysTitle() + x)[0] == 'S'
  {
  }

  lemma SectionPrefix(m: nat, v: View, u: string, w: View, t: string)
    requires Section(m, v) + u == Section(m, w) + t
    ensures v == w && u == t
  {
    hide Dump, NotInUse;
    if v.Opened? && w.Opened? {
      DumpPrefix(m, v.bars, u, m, w.bars, t);
    } else if v.Opened? {
      OpenIsNotClosed(m, v.bars, u, m, t);
    } else if w.Opened? {
      OpenIsNotClosed(m, w.bars, t, m, u);
    } else {
      Cancel(NotInUse(m), u, NotInUse(m), t);
    }
  }

  lemma SectionNotEmpty(m: nat, v: View)
    ensures Section(m, v) != ""
  {
    hide Dec, SysLines, DmaPart;
  }

  /** Two equal texts of the whole file, or of the file from some position on, show the same number of devices,
      the same of them open, and the same bars of every open one. */
  lemma {:induction false} FileInjective(x: seq<View>, y: seq<View>, p: nat)
    requires p <= |x| && p <= |y| && Sections(x, p, |x|) == Sections(y, p, |y|)
    ensures |x| == |y| && forall k :: p <= k < |x| ==> x[k] == y[k]
    decreases |x| - p
  {
    hide Section;
    if p < |x| { SectionNotEmpty(p, x[p]); }
    if p < |y| { SectionNotEmpty(p, y[p]); }
    if p < |x| && p < |y| {
      SectionPrefix(p, x[p], Sections(x, p + 1, |x|), y[p], Sections(y, p + 1, |y|));
      FileInjective(x, y, p + 1);
    }
  }
}
