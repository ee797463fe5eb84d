/** The block path: a 64-bit file position names a bar and an offset, the request is clipped to the
    end of the bar, and the words are moved one by one. */
module Transfer {
  import opened Layout
  import opened Firmware

  /** Each bar owns 2^60 bytes of the address space of the character device. */
  const BAR_SPAN: nat := 0x1000_0000_0000_0000

  /** A non-negative loff_t, and a size_t within the signed range. */
  const MAX_POS: nat := 0x8000_0000_0000_0000
  type FilePos = x: int | 0 <= x < MAX_POS
  type Count = x: int | 0 <= x < MAX_POS

  /** An accepted request moves n words, beginning with word `first` of the bar. */
  datatype Request = Refused(status: int) | Accepted(bar: Bar, first: nat, n: nat)

  /** Which requests are valid, judged by the two ranges of positions that exist. Nothing but constants of
      the device is looked at. */
  function Decode(count: Count, pos: FilePos): (r: Request)
    ensures r.Accepted? ==>
      pos == r.bar.Number() * BAR_SPAN + 4 * r.first && r.first + r.n <= r.bar.Words() && 4 * r.n <= count
    ensures r.Refused? ==> r.status == EFAULT
  {
    if pos % 4 != 0 || count % 4 != 0 then Refused(EFAULT)
    else if pos <= 4 * N_REGISTERS then
      Accepted(SystemBar, pos / 4, Min(count / 4, N_REGISTERS - pos / 4))
    else if 2 * BAR_SPAN <= pos <= 2 * BAR_SPAN + DMA_SIZE then
      Accepted(DmaBar, (pos - 2 * BAR_SPAN) / 4, Min(count / 4, DMA_WORDS - (pos - 2 * BAR_SPAN) / 4))
    else Refused(EFAULT)
  }

  /** A request is refused exactly when position or count is not whole words, or no bar is there; otherwise the
      bytes it moves are the count, cut off at the end of the bar. */
  lemma DecodeExactly(count: Count, pos: FilePos)
    ensures Decode(count, pos).Refused? <==>
            pos % 4 != 0 || count % 4 != 0
            || !(pos <= 128 || 0x2000_0000_0000_0000 <= pos <= 0x2000_0000_0000_0000 + 4096)
    ensures Decode(count, pos).Accepted? && pos <= 128 ==>
              var r := Decode(count, pos);
              r.bar == SystemBar && r.first == pos / 4 && 4 * r.n == Min(count, 128 - pos)
    ensures Decode(count, pos).Accepted? && pos > 128 ==>
              var r, offset := Decode(count, pos), pos - 0x2000_0000_0000_0000;
              r.bar == DmaBar && r.first == offset / 4 && 4 * r.n == Min(count, 4096 - offset)
  {
  }

  /** What the surroundings do while one word is moved: the user copy may fail, the lock may be interrupted. */
  datatype WordEnv = WordEnv(copyOk: bool, control: Control)

  function WriteWord(b: Bars, a: Cell, v: Word, e: WordEnv): Step {
    if !e.copyOk then Step(b, EFAULT)
    else
      var s := Action(Store(b, a, v), a, e.control);
      if s.status != 0 then Step(s.bars, EIO) else s
  }

  datatype Progress = Progress(bars: Bars, done: nat, status: int)

  /** The store-then-act loop over words i..n of the user's memory, word k going to cell base + k.
      It stops at the first word that does not go through. */
  function WriteRange(b: Bars, bar: Bar, base: int, data: seq<Word>, env: seq<WordEnv>, i: nat, n: nat): (r: Progress)
    requires i <= n <= |data| == |env| && 0 <= base + i && base + n <= bar.Words()
    ensures i <= r.done <= n && (r.status == 0 <==> r.done == n) && r.status <= 0
    decreases n - i
  {
    if i == n then Progress(b, i, 0)
    else
      var s := WriteWord(b, Addr(bar, base + i), data[i], env[i]);
      if s.status != 0 then Progress(s.bars, i, s.status)
      else WriteRange(s.bars, bar, base, data, env, i + 1, n)
  }

  function ReadStatus(a: Cell, e: WordEnv): int {
    if ReadBreaks(a) then EIO else if !e.copyOk then EFAULT else 0
  }

  datatype Fetched = Fetched(done: nat, status: int)

  /** The loop of a read: up to which word the user is served, and why it stops. */
  function ReadRange(bar: Bar, base: int, env: seq<WordEnv>, i: nat, n: nat): (r: Fetched)
    requires i <= n <= |env| && 0 <= base + i && base + n <= bar.Words()
    ensures i <= r.done <= n && (r.status == 0 <==> r.done == n) && r.status <= 0
    decreases n - i
  {
    if i == n then Fetched(i, 0)
    else if ReadStatus(Addr(bar, base + i), env[i]) != 0 then Fetched(i, ReadStatus(Addr(bar, base + i), env[i]))
    else ReadRange(bar, base, env, i + 1, n)
  }

  /** gate: the first acquisition of controlMutex and the read or write error flag seen under it.
      words: one entry for each word of the user's memory. */
  datatype CallEnv = CallEnv(gate: Control, devInterrupted: bool, words: seq<WordEnv>)

  /** What stops a call before its first word, or 0. */
  function BlockEntry(e: CallEnv, request: Request): int {
    if e.gate.Interrupted? then ERESTARTSYS
    else if e.gate.flag then EFAULT
    else if request.Refused? then request.status
    else if e.devInterrupted then ERESTARTSYS
    else 0
  }

  datatype Written = Written(bars: Bars, pos: FilePos, ret: int)

  /** The part of a write that moves words. The user's pointer stands at word `at` of data. */
  function MoveWords(b: Bars, pos: FilePos, r: Request, data: seq<Word>, at: nat, env: seq<WordEnv>): Written
    requires r.Accepted? && r.first + r.n <= r.bar.Words() && at + r.n <= |data| == |env|
    requires pos + 4 * r.n < MAX_POS
  {
    var p := WriteRange(b, r.bar, r.first - at, data, env, at, at + r.n);
    Written(p.bars, pos + 4 * (p.done - at), if p.status == 0 then 4 * r.n else p.status)
  }

  /** mtcaDummy_write_no_struct on values. */
  function BlockWrite(b: Bars, pos: FilePos, count: Count, data: seq<Word>, at: nat, e: CallEnv): Written
    requires at + count / 4 <= |data| == |e.words|
  {
    var request := Decode(count, pos);
    if BlockEntry(e, request) != 0 then Written(b, pos, BlockEntry(e, request))
    else MoveWords(b, pos, request, data, at, e.words)
  }

  datatype Read = Read(nWords: nat, pos: FilePos, ret: int)

  function Fetch(pos: FilePos, r: Request, at: nat, env: seq<WordEnv>): (f: Read)
    requires r.Accepted? && r.first + r.n <= r.bar.Words() && at + r.n <= |env| && pos + 4 * r.n < MAX_POS
    ensures f.nWords <= r.n && f.pos == pos + 4 * f.nWords && (f.ret >= 0 ==> f.ret == 4 * f.nWords)
  {
    var p := ReadRange(r.bar, r.first - at, env, at, at + r.n);
    Read(p.done - at, pos + 4 * (p.done - at), if p.status == 0 then 4 * r.n else p.status)
  }

  /** mtcaDummy_read_no_struct on values; the first nWords words of the request reach the user. */
  function BlockRead(pos: FilePos, count: Count, at: nat, e: CallEnv): (r: Read)
    requires at + count / 4 <= |e.words|
    ensures r.nWords > 0 ==> Decode(count, pos).Accepted? && r.nWords <= Decode(count, pos).n
    ensures r.pos == pos + 4 * r.nWords && (r.ret >= 0 ==> r.ret == 4 * r.nWords)
  {
    var request := Decode(count, pos);
    if BlockEntry(e, request) != 0 then Read(0, pos, BlockEntry(e, request))
    else Fetch(pos, request, at, e.words)
  }

  /** The words a read delivers. */
  function ReadValues(b: Bars, pos: FilePos, count: Count, at: nat, e: CallEnv): (v: seq<Word>)
    requires at + count / 4 <= |e.words|
    ensures |v| == BlockRead(pos, count, at, e).nWords
  {
    var n := BlockRead(pos, count, at, e).nWords;
    if n == 0 then []
    else
      var request := Decode(count, pos);
      Content(b, request.bar)[request.first..request.first + n]
  }

  /** Before the first word, in this order: a signal, the error flag, a bad request, a signal again. Nothing is moved
      then, and the position stays. */
  lemma BlockRefusals(b: Bars, pos: FilePos, count: Count, data: seq<Word>, at: nat, e: CallEnv)
    requires at + count / 4 <= |data| == |e.words|
    ensures var status :=
              if e.gate.Interrupted? then -512
              else if e.gate.flag then -14
              else if pos % 4 != 0 || count % 4 != 0
                      || !(pos <= 128 || 0x2000_0000_0000_0000 <= pos <= 0x2000_0000_0000_0000 + 4096) then -14
              else if e.devInterrupted then -512
              else 0;
            status != 0 ==>
              && BlockWrite(b, pos, count, data, at, e) == Written(b, pos, status)
              && BlockRead(pos, count, at, e) == Read(0, pos, status) && ReadValues(b, pos, count, at, e) == []
  {
    DecodeExactly(count, pos);
    hide Decode;
  }

  // ---------------------------------------------------------------------------------------------
  // The driver's methods
  // ---------------------------------------------------------------------------------------------

  method CheckAndCalculateTransferInformation(count: Count, virtualOffset: FilePos) returns (request: Request)
    ensures request == Decode(count, virtualOffset)
  {
    if virtualOffset % 4 != 0 { return Refused(EFAULT); }
    if count % 4 != 0 { return Refused(EFAULT); }
    var barNumber := (virtualOffset / BAR_SPAN) % 8;
    var offset := virtualOffset % BAR_SPAN;
    var bar;
    match barNumber {
      case 0 => bar := SystemBar;
      case 2 => bar := DmaBar;
      case _ => return Refused(EFAULT);
    }
    var barSizeInBytes := 4 * bar.Words();
    if offset > barSizeInBytes { return Refused(EFAULT); }
    var nBytes := if barSizeInBytes < offset + count then barSizeInBytes - offset else count;
    request := Accepted(bar, offset / 4, nBytes / 4);
  }

  /** The user's buffer once i words have been read from the bar. */
  function Delivered(bar: seq<Word>, was: seq<Word>, first: nat, i: nat): (r: seq<Word>)
    requires i <= |was| && first + i <= |bar|
    ensures |r| == |was|
  {
    bar[first..first + i] + was[i..]
  }

  lemma DeliveredMore(bar: seq<Word>, was: seq<Word>, first: nat, i: nat)
    requires i < |was| && first + i < |bar|
    ensures Delivered(bar, was, first, i)[i := bar[first + i]] == Delivered(bar, was, first, i + 1)
  {
  }

  lemma DeliveredNone(bar: seq<Word>, was: seq<Word>, first: nat)
    requires first <= |bar|
    ensures Delivered(bar, was, first, 0) == was
  {
  }

  /** One turn of the loop: ask the firmware, copy to the user. */
  method ReadOne(dev: Device, a: Cell, buf: array<Word>, i: nat, e: WordEnv) returns (status: int)
    requires dev.Valid() && buf != dev.systemBar && buf != dev.dmaBar && i < buf.Length
    modifies buf
    ensures status == ReadStatus(a, e)
    ensures buf[..] == if status == 0 then old(buf[..])[i := Load(dev.Contents(), a)] else old(buf[..])
  {
    var refused := PerformPreReadAction(4 * a.word, a.bar.Number());
    if refused != 0 { return EIO; }
    if !e.copyOk { return EFAULT; }
    buf[i] := if a.bar.SystemBar? then dev.systemBar[a.word] else dev.dmaBar[a.word];
    status := 0;
  }

  /** The copy loop of a read; entered with devMutex held, left with it released on every path. */
  method ReadLocked(dev: Device, bar: Bar, first: nat, buf: array<Word>, n: nat, pos: FilePos, env: seq<WordEnv>)
    returns (ret: int, newPos: FilePos)
    requires dev.Valid() && dev.devMutex.held && buf != dev.systemBar && buf != dev.dmaBar
    requires n <= buf.Length == |env| && first + n <= bar.Words() && pos + 4 * n < MAX_POS
    modifies buf, dev.devMutex
    ensures !dev.devMutex.held
    ensures var r := ReadRange(bar, first, env, 0, n);
            && ret == (if r.status == 0 then 4 * n else r.status)
            && newPos == pos + 4 * r.done
            && buf[..] == Delivered(Content(dev.Contents(), bar), old(buf[..]), first, r.done)
  {
    hide Delivered, ReadStatus;
    newPos := pos;
    ghost var was, content := buf[..], Content(dev.Contents(), bar);
    DeliveredNone(content, was, first);
    var i := 0;
    while i < n
      invariant i <= n && dev.devMutex.held && newPos == pos + 4 * i
      invariant Content(dev.Contents(), bar) == content && buf[..] == Delivered(content, was, first, i)
      invariant ReadRange(bar, first, env, 0, n) == ReadRange(bar, first, env, i, n)
    {
      ret := ReadOne(dev, Addr(bar, first + i), buf, i, env[i]);
      if ret != 0 {
        dev.devMutex.Unlock();
        return ret, newPos;
      }
      DeliveredMore(content, was, first, i);
      newPos := newPos + 4;
      i := i + 1;
    }
    dev.devMutex.Unlock();
    return 4 * n, newPos;
  }

  method ReadNoStruct(drv: Driver, dev: Device, buf: array<Word>, count: Count, pos: FilePos, e: CallEnv)
    returns (ret: int, newPos: FilePos)
    requires drv.Valid() && dev in drv.devices && !drv.controlMutex.held && !dev.devMutex.held
    requires buf.Length == |e.words| == count / 4 && buf != dev.systemBar && buf != dev.dmaBar
    modifies buf, drv.controlMutex, dev.devMutex
    ensures !drv.controlMutex.held && !dev.devMutex.held
    ensures var r := BlockRead(pos, count, 0, e);
            && ret == r.ret && newPos == r.pos
            && buf[..] == ReadValues(dev.Contents(), pos, count, 0, e) + old(buf[..])[r.nWords..]
  {
    newPos := pos;
    ret := drv.controlMutex.LockInterruptible(e.gate.Interrupted?);
    if ret != 0 { return ERESTARTSYS, newPos; }
    var readFail := e.gate.flag;
    drv.controlMutex.Unlock();
    if readFail { return EFAULT, newPos; }
    var request := CheckAndCalculateTransferInformation(count, pos);
    if request.Refused? { return request.status, newPos; }
    ret := dev.devMutex.LockInterruptible(e.devInterrupted);
    if ret != 0 { return ERESTARTSYS, newPos; }
    ret, newPos := ReadLocked(dev, request.bar, request.first, buf, request.n, pos, e.words);
  }

  /** The store-then-act loop of a write; entered with devMutex held, left with it released on every path. */
  method WriteLocked(drv: Driver, dev: Device, bar: Bar, first: nat, buf: seq<Word>, n: nat, pos: FilePos,
                     env: seq<WordEnv>)
    returns (ret: int, newPos: FilePos)
    requires drv.Serves(dev) && dev.devMutex.held && !drv.controlMutex.held
    requires n <= |env| == |buf| && first + n <= bar.Words() && pos + 4 * n < MAX_POS
    modifies dev.systemBar, dev.dmaBar, drv.controlMutex, dev.devMutex
    ensures !dev.devMutex.held && !drv.controlMutex.held
    ensures var r := WriteRange(old(dev.Contents()), bar, first, buf, env, 0, n);
            && dev.Contents() == r.bars
            && newPos == pos + 4 * r.done
            && ret == if r.status == 0 then 4 * n else r.status
  {
    hide WriteWord;
    newPos := pos;
    ghost var all := WriteRange(dev.Contents(), bar, first, buf, env, 0, n);
    var i := 0;
    while i < n
      invariant i <= n && dev.devMutex.held && !drv.controlMutex.held && newPos == pos + 4 * i
      invariant all == WriteRange(dev.Contents(), bar, first, buf, env, i, n)
    {
      ret := WriteOne(drv, dev, Addr(bar, first + i), buf[i], env[i]);
      if ret != 0 {
        dev.devMutex.Unlock();
        return ret, newPos;
      }
      newPos := newPos + 4;
      i := i + 1;
    }
    dev.devMutex.Unlock();
    return 4 * n, newPos;
  }

  /** One turn of the loop: copy from the user, store, run the firmware. */
  method WriteOne(drv: Driver, dev: Device, a: Cell, v: Word, e: WordEnv) returns (status: int)
    requires drv.Serves(dev) && !drv.controlMutex.held
    modifies dev.systemBar, dev.dmaBar, drv.controlMutex
    ensures !drv.controlMutex.held
    ensures Step(dev.Contents(), status) == WriteWord(old(dev.Contents()), a, v, e)
  {
    if !e.copyOk { return EFAULT; }
    if a.bar.SystemBar? { dev.systemBar[a.word] := v; } else { dev.dmaBar[a.word] := v; }
    assert dev.Contents() == Store(old(dev.Contents()), a, v);
    status := drv.PerformActionOnWrite(4 * a.word, a.bar.Number(), dev.slotNr, e.control);
    if status != 0 { return EIO; }
  }

  method WriteNoStruct(drv: Driver, dev: Device, buf: seq<Word>, count: Count, pos: FilePos, e: CallEnv)
    returns (ret: int, newPos: FilePos)
    requires drv.Valid() && dev in drv.devices && !drv.controlMutex.held && !dev.devMutex.held
    requires |buf| == |e.words| == count / 4
    modifies dev.systemBar, dev.dmaBar, drv.controlMutex, dev.devMutex
    ensures !drv.controlMutex.held && !dev.devMutex.held
    ensures Written(dev.Contents(), newPos, ret) == BlockWrite(old(dev.Contents()), pos, count, buf, 0, e)
    ensures forall d <- drv.devices :: d != dev ==> d.Contents() == old(d.Contents())
  {
    newPos := pos;
    ret := drv.controlMutex.LockInterruptible(e.gate.Interrupted?);
    if ret != 0 { return ERESTARTSYS, newPos; }
    var writeFail := e.gate.flag;
    drv.controlMutex.Unlock();
    if writeFail { return EFAULT, newPos; }
    var request := CheckAndCalculateTransferInformation(count, pos);
    if request.Refused? { return request.status, newPos; }
    ret := dev.devMutex.LockInterruptible(e.devInterrupted);
    if ret != 0 { return ERESTARTSYS, newPos; }
    ret, newPos := WriteLocked(drv, dev, request.bar, request.first, buf, request.n, pos, e.words);
  }
}
