/** The two client adapters promise the same array interface: one issues a request record per word, the other
    a single block access at an encoded position. */
module Clients {
  import opened Layout
  import opened Firmware
  import opened Transfer
  import opened StructPath

  function Request32(offset: Word, bar: Word, data: Word): DeviceRw { DeviceRw(offset, data, RW_D32, bar, 0, 0) }

  /** The 32-bit offset of word i of an area. */
  function WordOffset(offset: Word, i: nat): Word { (offset + 4 * i) % WORD_LIMIT }

  datatype Wrote = Wrote(bars: Bars, thrown: bool)

  /** StructReaderWriter::writeArea from word i on. */
  function StructWriteArea(b: Bars, offset: Word, bar: Word, data: seq<Word>, env: seq<StructEnv>, i: nat): Wrote
    requires i <= |data| == |env|
    decreases |data| - i
  {
    if i == |data| then Wrote(b, false)
    else
      var s := StructWrite(b, Request32(WordOffset(offset, i), bar, data[i]), RW_SIZE, env[i]);
      if s.status != RW_SIZE then Wrote(s.bars, true) else StructWriteArea(s.bars, offset, bar, data, env, i + 1)
  }

  /** PCIEUNI_BAR_OFFSETS[bar] + offset */
  function Encode(bar: Word, offset: Word): FilePos
    requires bar <= 5
  {
    bar * BAR_SPAN + offset
  }

  /** NormalReaderWriter::writeArea */
  function NormalWriteArea(b: Bars, offset: Word, bar: Word, data: seq<Word>, e: CallEnv): Wrote
    requires |e.words| == |data| && 4 * |data| < MAX_POS
  {
    if bar > 5 then Wrote(b, true)
    else
      var r := BlockWrite(b, Encode(bar, offset), 4 * |data|, data, 0, e);
      Wrote(r.bars, r.ret != 4 * |data|)
  }

  /** Which words of the buffer are filled, and whether the call throws. */
  datatype Filled = Filled(values: seq<Word>, thrown: bool)

  /** StructReaderWriter::readArea from word i on. */
  function StructReadArea(b: Bars, slotNr: Word, offset: Word, bar: Word, env: seq<StructEnv>, i: nat): (f: Filled)
    requires i <= |env|
    ensures |f.values| <= |env| - i
    decreases |env| - i
  {
    if i == |env| then Filled([], false)
    else
      var r := StructRead(b, slotNr, Request32(WordOffset(offset, i), bar, 0), RW_SIZE, env[i]);
      if r.ret != RW_SIZE then Filled([], true)
      else
        var rest := StructReadArea(b, slotNr, offset, bar, env, i + 1);
        Filled([r.record.data] + rest.values, rest.thrown)
  }

  /** NormalReaderWriter::readArea */
  function NormalReadArea(b: Bars, offset: Word, bar: Word, e: CallEnv): (f: Filled)
    requires 4 * |e.words| < MAX_POS
    ensures |f.values| <= |e.words|
  {
    if bar > 5 then Filled([], true)
    else
      var n := |e.words|;
      Filled(ReadValues(b, Encode(bar, offset), 4 * n, 0, e),
             BlockRead(Encode(bar, offset), 4 * n, 0, e).ret != 4 * n)
  }

  // ---------------------------------------------------------------------------------------------
  // The adapters
  // ---------------------------------------------------------------------------------------------

  method StructWriter(drv: Driver, dev: Device, offset: Word, bar: Word, writeBuffer: seq<Word>, env: seq<StructEnv>)
    returns (thrown: bool)
    requires drv.Valid() && dev in drv.devices && !drv.controlMutex.held && !dev.devMutex.held
    requires |env| == |writeBuffer|
    modifies dev.systemBar, dev.dmaBar, drv.controlMutex, dev.devMutex
    ensures !drv.controlMutex.held && !dev.devMutex.held
    ensures Wrote(dev.Contents(), thrown) == StructWriteArea(old(dev.Contents()), offset, bar, writeBuffer, env, 0)
  {
    var i := 0;
    while i < |writeBuffer|
      invariant i <= |writeBuffer| && !drv.controlMutex.held && !dev.devMutex.held
      invariant StructWriteArea(old(dev.Contents()), offset, bar, writeBuffer, env, 0)
             == StructWriteArea(dev.Contents(), offset, bar, writeBuffer, env, i)
    {
      var status := WriteStruct(drv, dev, Request32(WordOffset(offset, i), bar, writeBuffer[i]), RW_SIZE, env[i]);
      if status != RW_SIZE { return true; }
      i := i + 1;
    }
    return false;
  }

  method NormalWriter(drv: Driver, dev: Device, offset: Word, bar: Word, writeBuffer: seq<Word>, e: CallEnv)
    returns (thrown: bool)
    requires drv.Valid() && dev in drv.devices && !drv.controlMutex.held && !dev.devMutex.held
    requires |e.words| == |writeBuffer| && 4 * |writeBuffer| < MAX_POS
    modifies dev.systemBar, dev.dmaBar, drv.controlMutex, dev.devMutex
    ensures !drv.controlMutex.held && !dev.devMutex.held
    ensures Wrote(dev.Contents(), thrown) == NormalWriteArea(old(dev.Contents()), offset, bar, writeBuffer, e)
  {
    if bar > 5 { return true; }
    var writeStatus, _ := WriteNoStruct(drv, dev, writeBuffer, 4 * |writeBuffer|, Encode(bar, offset), e);
    return writeStatus != 4 * |writeBuffer|;
  }

  /** readBuffer is filled from its start; a throw leaves the rest of it as it was. */
  method StructReader(drv: Driver, dev: Device, offset: Word, bar: Word, readBuffer: array<Word>, env: seq<StructEnv>)
    returns (thrown: bool)
    requires drv.Serves(dev) && !drv.controlMutex.held && !dev.devMutex.held && dev.slotNr < WORD_LIMIT
    requires |env| == readBuffer.Length && readBuffer != dev.systemBar && readBuffer != dev.dmaBar
    modifies readBuffer, drv.controlMutex, dev.devMutex
    ensures !drv.controlMutex.held && !dev.devMutex.held
    ensures var f := StructReadArea(dev.Contents(), dev.slotNr, offset, bar, env, 0);
            thrown == f.thrown && readBuffer[..] == f.values + old(readBuffer[..])[|f.values|..]
  {
    hide StructRead, WordOffset;
    ghost var b := dev.Contents();
    ghost var all := StructReadArea(b, dev.slotNr, offset, bar, env, 0);
    var i := 0;
    while i < readBuffer.Length
      invariant i <= readBuffer.Length && !drv.controlMutex.held && !dev.devMutex.held && dev.Contents() == b
      invariant i <= |all.values| && all.thrown == StructReadArea(b, dev.slotNr, offset, bar, env, i).thrown
      invariant all.values[i..] == StructReadArea(b, dev.slotNr, offset, bar, env, i).values
      invariant forall k :: 0 <= k < i ==> readBuffer[k] == all.values[k]
      invariant forall k :: i <= k < readBuffer.Length ==> readBuffer[k] == old(readBuffer[k])
    {
      var status, record, _ := ReadStruct(drv, dev, Request32(WordOffset(offset, i), bar, 0), RW_SIZE, env[i]);
      if status != RW_SIZE { return true; }
      assert all.values[i..][0] == record.data && all.values[i..][1..] == all.values[i + 1..];
      readBuffer[i] := record.data;
      i := i + 1;
    }
    return false;
  }

  method NormalReader(drv: Driver, dev: Device, offset: Word, bar: Word, readBuffer: array<Word>, e: CallEnv)
    returns (thrown: bool)
    requires drv.Valid() && dev in drv.devices && !drv.controlMutex.held && !dev.devMutex.held
    requires |e.words| == readBuffer.Length && 4 * readBuffer.Length < MAX_POS
    requires readBuffer != dev.systemBar && readBuffer != dev.dmaBar
    modifies readBuffer, drv.controlMutex, dev.devMutex
    ensures !drv.controlMutex.held && !dev.devMutex.held
    ensures var f := NormalReadArea(dev.Contents(), offset, bar, e);
            thrown == f.thrown && readBuffer[..] == f.values + old(readBuffer[..])[|f.values|..]
  {
    if bar > 5 { return true; }
    var status, _ := ReadNoStruct(drv, dev, readBuffer, 4 * readBuffer.Length, Encode(bar, offset), e);
    return status != 4 * readBuffer.Length;
  }

  // ---------------------------------------------------------------------------------------------
  // The two paths agree
  // ---------------------------------------------------------------------------------------------

  /** The same surroundings for both paths: locks are granted, copies succeed, the error flag is fixed, and the
      SPI flag the firmware sees at each word is the same. */
  function StructCalls(errorFlag: bool, spi: seq<bool>): (r: seq<StructEnv>)
    ensures |r| == |spi|
  {
    seq(|spi|, i requires 0 <= i < |spi| => StructEnv(Sampled(errorFlag), false, true, true, Sampled(spi[i])))
  }

  function BlockCall(errorFlag: bool, spi: seq<bool>): (r: CallEnv)
    ensures |r.words| == |spi|
  {
    CallEnv(Sampled(errorFlag), false, seq(|spi|, i requires 0 <= i < |spi| => WordEnv(true, Sampled(spi[i]))))
  }

  /** Decoding recovers bar and offset from every encoded position. */
  lemma EncodeDecode(bar: Word, offset: Word)
    requires bar <= 5
    ensures Encode(bar, offset) / BAR_SPAN % 8 == bar && Encode(bar, offset) % BAR_SPAN == offset
  {
  }

  /** The position just behind a bar. */
  predicate AtEnd(bar: Word, offset: Word) {
    (bar == 0 && offset == 4 * N_REGISTERS) || (bar == 2 && offset == DMA_SIZE)
  }

  /** A block request is accepted exactly when its start is a word of the device, or the end of a bar, from where
      nothing is moved. */
  lemma DecodeEncoded(bar: Word, offset: Word, n: nat)
    requires bar <= 5 && 4 * n < MAX_POS
    ensures var r := Decode(4 * n, Encode(bar, offset));
            match Locate(bar, offset)
            case Good(b, w) => r == Accepted(b, w, Min(n, b.Words() - w))
            case Bad => if AtEnd(bar, offset) then r.Accepted? && r.n == 0 else r == Refused(EFAULT)
  {
  }

  lemma LocateWord(offset: Word, bar: Bar, w: nat, i: nat)
    requires offset == 4 * w && w + i <= bar.Words()
    ensures Locate(bar.Number(), WordOffset(offset, i)) == if w + i < bar.Words() then Good(bar, w + i) else Bad
  {
  }

  lemma {:induction false} WriteLoopsAgree(b: Bars, offset: Word, bar: Bar, w: nat, data: seq<Word>, spi: seq<bool>,
                                           i: nat)
    requires |spi| == |data| && offset == 4 * w && i <= Min(|data|, bar.Words() - w)
    ensures var n := Min(|data|, bar.Words() - w);
            var r := WriteRange(b, bar, w, data, BlockCall(false, spi).words, i, n);
            StructWriteArea(b, offset, bar.Number(), data, StructCalls(false, spi), i)
              == Wrote(r.bars, r.status != 0 || n < |data|)
    decreases |data| - i
  {
    hide Action, Store, StructWrite, WriteWord, Locate, WordOffset, StructCalls, BlockCall;
    var n := Min(|data|, bar.Words() - w);
    if i < |data| {
      LocateWord(offset, bar, w, i);
      StructWriteHead(b, offset, bar.Number(), data, spi, i);
      if i < n {
        BlockLoopHead(b, bar, w, data, spi, i, n);
        hide StructWriteArea, WriteRange;
        var s := Action(Store(b, Addr(bar, w + i), data[i]), Addr(bar, w + i), Sampled(spi[i]));
        if s.status == 0 { WriteLoopsAgree(s.bars, offset, bar, w, data, spi, i + 1); }
      }
    }
  }

  /** The head of an area written by records. */
  lemma StructWriteHead(b: Bars, offset: Word, bar: Word, data: seq<Word>, spi: seq<bool>, i: nat)
    requires i < |spi| == |data|
    ensures StructWriteArea(b, offset, bar, data, StructCalls(false, spi), i)
              == match Locate(bar, WordOffset(offset, i))
                 case Bad => Wrote(b, true)
                 case Good(b', w) =>
                   var s := Action(Store(b, Addr(b', w), data[i]), Addr(b', w), Sampled(spi[i]));
                   if s.status != 0 then Wrote(s.bars, true)
                   else StructWriteArea(s.bars, offset, bar, data, StructCalls(false, spi), i + 1)
  {
    hide Action, Store, Locate, WordOffset;
  }

  lemma BlockLoopHead(b: Bars, bar: Bar, w: nat, data: seq<Word>, spi: seq<bool>, i: nat, n: nat)
    requires i < n <= |spi| == |data| && w + n <= bar.Words()
    ensures var words := BlockCall(false, spi).words;
            var s := Action(Store(b, Addr(bar, w + i), data[i]), Addr(bar, w + i), Sampled(spi[i]));
            WriteRange(b, bar, w, data, words, i, n)
              == if s.status != 0 then Progress(s.bars, i, EIO)
                 else WriteRange(s.bars, bar, w, data, words, i + 1, n)
  {
    hide Action, Store;
  }

  /** The block side on its own: how an encoded request turns into a loop over words. */
  lemma NormalWriteLoop(b: Bars, offset: Word, bar: Word, data: seq<Word>, spi: seq<bool>)
    requires 0 < |data| == |spi| && 4 * |data| < MAX_POS
    ensures var e := BlockCall(false, spi);
            NormalWriteArea(b, offset, bar, data, e)
              == match Locate(bar, offset)
                 case Bad => Wrote(b, true)
                 case Good(bar', w) =>
                   var n := Min(|data|, bar'.Words() - w);
                   var r := WriteRange(b, bar', w, data, e.words, 0, n);
                   Wrote(r.bars, r.status != 0 || n < |data|)
  {
    if bar <= 5 { DecodeEncoded(bar, offset, |data|); }
    hide Decode, Locate;
  }

  lemma RefusedWrite(b: Bars, offset: Word, bar: Word, data: seq<Word>, errorFlag: bool, spi: seq<bool>)
    requires 0 < |data| == |spi| && 4 * |data| < MAX_POS && (errorFlag || Locate(bar, offset) == Bad)
    ensures StructWriteArea(b, offset, bar, data, StructCalls(errorFlag, spi), 0) == Wrote(b, true)
    ensures errorFlag ==> NormalWriteArea(b, offset, bar, data, BlockCall(errorFlag, spi)) == Wrote(b, true)
  {
    hide Decode, Locate;
    assert WordOffset(offset, 0) == offset;
  }

  lemma AreaWritesAgree(b: Bars, offset: Word, bar: Word, data: seq<Word>, errorFlag: bool, spi: seq<bool>)
    requires 0 < |data| == |spi| && 4 * |data| < MAX_POS
    ensures NormalWriteArea(b, offset, bar, data, BlockCall(errorFlag, spi))
         == StructWriteArea(b, offset, bar, data, StructCalls(errorFlag, spi), 0)
  {
    hide NormalWriteArea, WriteRange, StructWriteArea, BlockCall, StructCalls, Locate;
    if errorFlag || Locate(bar, offset) == Bad { RefusedWrite(b, offset, bar, data, errorFlag, spi); }
    if !errorFlag {
      NormalWriteLoop(b, offset, bar, data, spi);
      match Locate(bar, offset)
      case Bad =>
      case Good(bar', w) => WriteLoopsAgree(b, offset, bar', w, data, spi, 0);
    }
  }

  /** An area of no words is written without complaint by the loop, and by the block access if the request passes
      the error flag and the checks of the driver. */
  predicate EmptyAreaIsServed(offset: Word, bar: Word, errorFlag: bool) {
    !errorFlag && (Locate(bar, offset).Good? || AtEnd(bar, offset))
  }

  lemma EmptyWrite(b: Bars, offset: Word, bar: Word, errorFlag: bool)
    ensures NormalWriteArea(b, offset, bar, [], BlockCall(errorFlag, []))
            == Wrote(b, !EmptyAreaIsServed(offset, bar, errorFlag))
    ensures StructWriteArea(b, offset, bar, [], StructCalls(errorFlag, []), 0) == Wrote(b, false)
  {
    if bar <= 5 { DecodeEncoded(bar, offset, 0); }
    hide Decode, Locate, AtEnd;
  }

  /** One block access does to the device what the word-by-word loop does, and throws when it does. The only
      exception is an area of no words that the driver refuses. */
  lemma WritePathsAgree(b: Bars, offset: Word, bar: Word, data: seq<Word>, errorFlag: bool, spi: seq<bool>)
    requires |data| == |spi| && 4 * |data| < MAX_POS
    ensures NormalWriteArea(b, offset, bar, data, BlockCall(errorFlag, spi))
         == StructWriteArea(b, offset, bar, data, StructCalls(errorFlag, spi), 0)
       <==> |data| > 0 || EmptyAreaIsServed(offset, bar, errorFlag)
  {
    hide NormalWriteArea, StructWriteArea, BlockCall, StructCalls, EmptyAreaIsServed;
    if |data| > 0 {
      AreaWritesAgree(b, offset, bar, data, errorFlag, spi);
    } else {
      assert data == [] && spi == [];
      EmptyWrite(b, offset, bar, errorFlag);
    }
  }

  /** No words, from the missing bar 1: only the block access complains. */
  lemma EmptyAreaOfMissingBar(b: Bars)
    ensures NormalWriteArea(b, 0, 1, [], BlockCall(false, [])).thrown
    ensures !StructWriteArea(b, 0, 1, [], StructCalls(false, []), 0).thrown
  {
    EmptyWrite(b, 0, 1, false);
    hide NormalWriteArea, StructWriteArea, BlockCall, StructCalls;
  }

  /** Reading one word by record. */
  lemma StructReadWord(b: Bars, slotNr: Word, offset: Word, bar: Word, spi: bool)
    ensures var e := StructEnv(Sampled(false), false, true, true, Sampled(spi));
            var r := StructRead(b, slotNr, Request32(offset, bar, 0), RW_SIZE, e);
            match Locate(bar, offset)
            case Bad => r.ret == EFAULT
            case Good(b', w) => if ReadBreaks(Addr(b', w)) then r.ret == EIO
                                else r.ret == RW_SIZE && r.record.data == Load(b, Addr(b', w))
  {
  }

  /** The head of an area read by records, given what its first word does. */
  lemma StructReadHead(b: Bars, slotNr: Word, offset: Word, bar: Word, spi: seq<bool>, i: nat)
    requires i < |spi|
    ensures var rest := StructReadArea(b, slotNr, offset, bar, StructCalls(false, spi), i + 1);
            StructReadArea(b, slotNr, offset, bar, StructCalls(false, spi), i)
              == match Locate(bar, WordOffset(offset, i))
                 case Bad => Filled([], true)
                 case Good(b', w) => if ReadBreaks(Addr(b', w)) then Filled([], true)
                                     else Filled([Load(b, Addr(b', w))] + rest.values, rest.thrown)
  {
    hide StructRead, Locate;
    StructReadWord(b, slotNr, WordOffset(offset, i), bar, spi[i]);
  }

  /** The record loop from word i on serves what the block loop r serves, read off the bar from word m on;
      cut: the area reaches beyond the bar. */
  predicate Served(f: Filled, r: Fetched, c: seq<Word>, m: nat, i: nat, cut: bool) {
    && i <= r.done && m + r.done - i <= |c|
    && f == Filled(c[m..m + r.done - i], r.status != 0 || cut)
  }

  lemma ServedCons(g: Filled, r: Fetched, c: seq<Word>, m: nat, i: nat, cut: bool)
    requires m < |c| && Served(g, r, c, m + 1, i + 1, cut)
    ensures Served(Filled([c[m]] + g.values, g.thrown), r, c, m, i, cut)
  {
  }

  lemma ReadRangeHead(bar: Bar, w: nat, spi: seq<bool>, i: nat, n: nat)
    requires i < n <= |spi| && w + n <= bar.Words()
    ensures var words := BlockCall(false, spi).words;
            ReadRange(bar, w, words, i, n)
              == if ReadBreaks(Addr(bar, w + i)) then Fetched(i, EIO) else ReadRange(bar, w, words, i + 1, n)
  {
    hide ReadBreaks;
  }

  /** Where both loops stop: behind the area, behind the bar, or at a broken word. */
  lemma ReadLoopsStop(b: Bars, slotNr: Word, offset: Word, bar: Bar, w: nat, spi: seq<bool>, i: nat)
    requires offset == 4 * w && i <= Min(|spi|, bar.Words() - w)
    requires i < Min(|spi|, bar.Words() - w) ==> ReadBreaks(Addr(bar, w + i))
    ensures var n := Min(|spi|, bar.Words() - w);
            Served(StructReadArea(b, slotNr, offset, bar.Number(), StructCalls(false, spi), i),
                   ReadRange(bar, w, BlockCall(false, spi).words, i, n), Content(b, bar), w + i, i, n < |spi|)
  {
    hide Locate, StructCalls, BlockCall, WordOffset, StructRead, ReadBreaks, Content;
    var n := Min(|spi|, bar.Words() - w);
    if i < |spi| {
      StructReadHead(b, slotNr, offset, bar.Number(), spi, i);
      LocateWord(offset, bar, w, i);
      hide StructReadArea;
      if i < n {
        ReadRangeHead(bar, w, spi, i, n);
        hide ReadRange;
      }
    }
  }

  lemma {:induction false} ReadLoopsAgree(b: Bars, slotNr: Word, offset: Word, bar: Bar, w: nat, spi: seq<bool>, i: nat)
    requires offset == 4 * w && i <= Min(|spi|, bar.Words() - w)
    ensures var n := Min(|spi|, bar.Words() - w);
            Served(StructReadArea(b, slotNr, offset, bar.Number(), StructCalls(false, spi), i),
                   ReadRange(bar, w, BlockCall(false, spi).words, i, n), Content(b, bar), w + i, i, n < |spi|)
    decreases |spi| - i
  {
    hide Locate, StructCalls, BlockCall, WordOffset, ReadBreaks, Content, StructReadArea, ReadRange, Served;
    var n := Min(|spi|, bar.Words() - w);
    if i < n && !ReadBreaks(Addr(bar, w + i)) {
      StructReadHead(b, slotNr, offset, bar.Number(), spi, i);
      LocateWord(offset, bar, w, i);
      ReadRangeHead(bar, w, spi, i, n);
      ReadLoopsAgree(b, slotNr, offset, bar, w, spi, i + 1);
      ServedCons(StructReadArea(b, slotNr, offset, bar.Number(), StructCalls(false, spi), i + 1),
                 ReadRange(bar, w, BlockCall(false, spi).words, i, n), Content(b, bar), w + i, i, n < |spi|);
    } else {
      ReadLoopsStop(b, slotNr, offset, bar, w, spi, i);
    }
  }

  lemma NormalReadLoop(b: Bars, offset: Word, bar: Word, spi: seq<bool>)
    requires 0 < |spi| && 4 * |spi| < MAX_POS
    ensures var e := BlockCall(false, spi);
            NormalReadArea(b, offset, bar, e)
              == match Locate(bar, offset)
                 case Bad => Filled([], true)
                 case Good(bar', w) =>
                   var n := Min(|spi|, bar'.Words() - w);
                   var r := ReadRange(bar', w, e.words, 0, n);
                   Filled(Content(b, bar')[w..w + r.done], r.status != 0 || n < |spi|)
  {
    if bar <= 5 { DecodeEncoded(bar, offset, |spi|); }
    hide Decode, Locate;
  }

  lemma RefusedRead(b: Bars, slotNr: Word, offset: Word, bar: Word, errorFlag: bool, spi: seq<bool>)
    requires 0 < |spi| && 4 * |spi| < MAX_POS && (errorFlag || Locate(bar, offset) == Bad)
    ensures StructReadArea(b, slotNr, offset, bar, StructCalls(errorFlag, spi), 0) == Filled([], true)
    ensures errorFlag ==> NormalReadArea(b, offset, bar, BlockCall(errorFlag, spi)) == Filled([], true)
  {
    hide Decode, Locate;
    assert WordOffset(offset, 0) == offset;
  }

  lemma AreaReadsAgree(b: Bars, slotNr: Word, offset: Word, bar: Word, errorFlag: bool, spi: seq<bool>)
    requires 0 < |spi| && 4 * |spi| < MAX_POS
    ensures NormalReadArea(b, offset, bar, BlockCall(errorFlag, spi))
         == StructReadArea(b, slotNr, offset, bar, StructCalls(errorFlag, spi), 0)
  {
    hide NormalReadArea, ReadRange, StructReadArea, BlockCall, StructCalls, Locate;
    if errorFlag || Locate(bar, offset) == Bad { RefusedRead(b, slotNr, offset, bar, errorFlag, spi); }
    if !errorFlag {
      NormalReadLoop(b, offset, bar, spi);
      match Locate(bar, offset)
      case Bad =>
      case Good(bar', w) =>
        ReadLoopsAgree(b, slotNr, offset, bar', w, spi, 0);
    }
  }

  lemma EmptyRead(b: Bars, slotNr: Word, offset: Word, bar: Word, errorFlag: bool)
    ensures NormalReadArea(b, offset, bar, BlockCall(errorFlag, []))
            == Filled([], !EmptyAreaIsServed(offset, bar, errorFlag))
    ensures StructReadArea(b, slotNr, offset, bar, StructCalls(errorFlag, []), 0) == Filled([], false)
  {
    if bar <= 5 { DecodeEncoded(bar, offset, 0); }
    hide Decode, Locate, AtEnd;
  }

  /** Both fill the same prefix of the buffer and throw on the same requests, with the same exception. */
  lemma ReadPathsAgree(b: Bars, slotNr: Word, offset: Word, bar: Word, errorFlag: bool, spi: seq<bool>)
    requires 4 * |spi| < MAX_POS
    ensures NormalReadArea(b, offset, bar, BlockCall(errorFlag, spi))
         == StructReadArea(b, slotNr, offset, bar, StructCalls(errorFlag, spi), 0)
       <==> |spi| > 0 || EmptyAreaIsServed(offset, bar, errorFlag)
  {
    hide NormalReadArea, StructReadArea, BlockCall, StructCalls, EmptyAreaIsServed;
    if |spi| > 0 {
      AreaReadsAgree(b, slotNr, offset, bar, errorFlag, spi);
    } else {
      assert spi == [];
      EmptyRead(b, slotNr, offset, bar, errorFlag);
    }
  }
}
