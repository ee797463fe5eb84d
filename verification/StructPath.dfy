/** The struct path: one request record per call, and the bulk readers of bar 2. */
module StructPath {
  import opened Layout
  import opened Firmware
  import opened Transfer

  const RW_D32: Word := 2
  const RW_DMA: Word := 3
  const RW_INFO: Word := 4

  datatype DeviceRw = DeviceRw(offset: Word, data: Word, mode: Word, bar: Word, size: Word, rsrvd: Word)

  /** sizeof(device_rw) */
  const RW_SIZE: nat := 24

  datatype StructEnv = StructEnv(gate: Control, devInterrupted: bool, copyIn: bool, copyOut: bool, control: Control)

  /** What stops a call before the request is looked at, or 0. */
  function StructEntry(count: Count, e: StructEnv): int {
    if e.gate.Interrupted? then ERESTARTSYS
    else if e.gate.flag then EFAULT
    else if e.devInterrupted then ERESTARTSYS
    else if count < RW_SIZE || !e.copyIn then EFAULT
    else 0
  }

  datatype Target = Bad | Good(bar: Bar, word: nat)

  /** The word a RW_D32 request names. */
  function Locate(bar: Word, offset: Word): (t: Target)
    ensures t.Good? ==> t.word < t.bar.Words() && bar == t.bar.Number() && offset == 4 * t.word
    ensures t.Bad? <==> offset % 4 != 0 || !((bar == 0 && offset < 4 * N_REGISTERS) || (bar == 2 && offset < DMA_SIZE))
  {
    if offset % 4 != 0 then Bad
    else if bar == 0 && offset < 4 * N_REGISTERS then Good(SystemBar, offset / 4)
    else if bar == 2 && offset < DMA_SIZE then Good(DmaBar, offset / 4)
    else Bad
  }

  /** mtcaDummy_write on values. */
  function StructWrite(b: Bars, q: DeviceRw, count: Count, e: StructEnv): Step {
    if StructEntry(count, e) != 0 then Step(b, StructEntry(count, e))
    else if q.mode != RW_D32 then Step(b, EFAULT)
    else
      match Locate(q.bar, q.offset)
      case Bad => Step(b, EFAULT)
      case Good(bar, w) =>
        var s := Action(Store(b, Addr(bar, w), q.data), Addr(bar, w), e.control);
        Step(s.bars, if s.status != 0 then EIO else RW_SIZE)
  }

  type Byte = x: int | 0 <= x < 256

  /** Byte k of a word array in little-endian order. */
  function ByteAt(ws: seq<Word>, k: nat): Byte
    requires k < 4 * |ws|
  {
    var w := ws[k / 4];
    match k % 4
    case 0 => w % 0x100
    case 1 => w / 0x100 % 0x100
    case 2 => w / 0x1_0000 % 0x100
    case _ => w / 0x100_0000
  }

  function Bytes(ws: seq<Word>): (r: seq<Byte>)
    ensures |r| == 4 * |ws|
  {
    seq(4 * |ws|, k requires 0 <= k < 4 * |ws| => ByteAt(ws, k))
  }

  datatype Bulk = Bulk(ret: int, bytes: seq<Byte>)

  /** offset + size as a u32 */
  function Sum32(offset: Word, size: Word): Word { (offset + size) % WORD_LIMIT }

  /** The driver's check of a bulk request. */
  predicate Passes(offset: Word, size: Word) { Sum32(offset, size) <= DMA_SIZE }

  /** The bytes that would be read, from the word that holds the offset on, are bytes of bar 2. */
  predicate Inside(offset: Word, size: Word) { 4 * (offset / 4) + size <= DMA_SIZE }

  /** The check does not let this request out of bar 2. */
  predicate Contained(offset: Word, size: Word) { size > 0 && Passes(offset, size) ==> Inside(offset, size) }

  /** The check is right about every request whose sum fits 32 bits, and wrong about exactly those whose sum
      comes round to at most the size of the bar. */
  lemma ContainedExactly(offset: Word, size: Word)
    ensures Contained(offset, size) <==> offset + size < WORD_LIMIT || !Passes(offset, size)
  {
  }

  lemma WrappedSumPasses()
    ensures Passes(0xFFFF_FFFC, 8) && !Inside(0xFFFF_FFFC, 8)
  {
  }

  /** The RW_DMA case of mtcaDummy_read: the offset is rounded down to a word. */
  function StructDma(b: Bars, offset: Word, size: Word, copyOut: bool): Bulk
    requires Contained(offset, size)
  {
    if size == 0 then Bulk(0, [])
    else if !Passes(offset, size) || !copyOut then Bulk(EFAULT, [])
    else Bulk(size, Bytes(b.dma)[4 * (offset / 4)..4 * (offset / 4) + size])
  }

  /** The READ_DMA case of mtcaDummy_ioctl and of pcieuniDummy_ioctl. */
  function IoctlDma(b: Bars, offset: Word, size: Word, copyOut: bool): Bulk
    requires Contained(offset, size)
  {
    if !Passes(offset, size) || offset % 4 != 0 || !copyOut then Bulk(EFAULT, [])
    else Bulk(0, Bytes(b.dma)[offset..offset + size])
  }

  /** What mtcaDummy_read puts back into the user's record, or the bytes of a bulk read. */
  datatype Reply = Reply(ret: int, record: DeviceRw, bytes: seq<Byte>)

  function StructRead(b: Bars, slotNr: Word, q: DeviceRw, count: Count, e: StructEnv): Reply
    requires q.mode == RW_DMA ==> Contained(q.offset, q.size)
  {
    if StructEntry(count, e) != 0 then Reply(StructEntry(count, e), q, [])
    else if q.mode == RW_INFO then
      if !e.copyOut then Reply(EFAULT, q, [])
      else Reply(RW_SIZE, DeviceRw(VERSION_MIN, VERSION_MAJ, VERSION_MAJ + 1, slotNr, VERSION_MIN + 1, q.rsrvd), [])
    else if q.mode == RW_D32 then
      match Locate(q.bar, q.offset)
      case Bad => Reply(EFAULT, q, [])
      case Good(bar, w) =>
        if ReadBreaks(Addr(bar, w)) then Reply(EIO, q, [])
        else if !e.copyOut then Reply(EFAULT, q, [])
        else Reply(RW_SIZE, q.(data := Load(b, Addr(bar, w))), [])
    else if q.mode == RW_DMA then
      var r := StructDma(b, q.offset, q.size, e.copyOut);
      Reply(r.ret, q, r.bytes)
    else Reply(EFAULT, q, [])
  }

  // ---------------------------------------------------------------------------------------------
  // The driver's methods
  // ---------------------------------------------------------------------------------------------

  method ReadStruct(drv: Driver, dev: Device, q: DeviceRw, count: Count, e: StructEnv)
    returns (ret: int, record: DeviceRw, bytes: seq<Byte>)
    requires drv.Serves(dev) && !drv.controlMutex.held && !dev.devMutex.held && dev.slotNr < WORD_LIMIT
    requires q.mode == RW_DMA ==> Contained(q.offset, q.size)
    modifies drv.controlMutex, dev.devMutex
    ensures !drv.controlMutex.held && !dev.devMutex.held
    ensures Reply(ret, record, bytes) == StructRead(dev.Contents(), dev.slotNr, q, count, e)
  {
    record, bytes := q, [];
    ret := drv.controlMutex.LockInterruptible(e.gate.Interrupted?);
    if ret != 0 { return ERESTARTSYS, record, bytes; }
    var readFail := e.gate.flag;
    drv.controlMutex.Unlock();
    if readFail { return EFAULT, record, bytes; }
    ret := dev.devMutex.LockInterruptible(e.devInterrupted);
    if ret != 0 { return ERESTARTSYS, record, bytes; }
    if count < RW_SIZE || !e.copyIn {
      dev.devMutex.Unlock();
      return EFAULT, record, bytes;
    }
    ret, record, bytes := ReadStructLocked(dev, q, e);
  }

  /** The part of a read under devMutex; every path releases it. */
  method ReadStructLocked(dev: Device, q: DeviceRw, e: StructEnv) returns (ret: int, record: DeviceRw, bytes: seq<Byte>)
    requires dev.Valid() && dev.devMutex.held && dev.slotNr < WORD_LIMIT
    requires q.mode == RW_DMA ==> Contained(q.offset, q.size)
    modifies dev.devMutex
    ensures !dev.devMutex.held
    ensures StructEntry(RW_SIZE, e) == 0 ==>
              Reply(ret, record, bytes) == StructRead(dev.Contents(), dev.slotNr, q, RW_SIZE, e)
  {
    record, bytes := q, [];
    if q.mode == RW_INFO {
      if !e.copyOut {
        dev.devMutex.Unlock();
        return EFAULT, record, bytes;
      }
      record := DeviceRw(VERSION_MIN, VERSION_MAJ, VERSION_MAJ + 1, dev.slotNr, VERSION_MIN + 1, q.rsrvd);
      dev.devMutex.Unlock();
      return RW_SIZE, record, bytes;
    } else if q.mode == RW_D32 {
      var barBaseAddress, barSize;
      match q.bar {
        case 0 => barBaseAddress, barSize := dev.systemBar, N_REGISTERS * 4;
        case 2 => barBaseAddress, barSize := dev.dmaBar, DMA_SIZE;
        case _ =>
          dev.devMutex.Unlock();
          return EFAULT, record, bytes;
      }
      if q.offset % 4 != 0 || q.offset >= barSize {
        dev.devMutex.Unlock();
        return EFAULT, record, bytes;
      }
      var refused := PerformPreReadAction(q.offset, q.bar);
      if refused != 0 {
        dev.devMutex.Unlock();
        return EIO, record, bytes;
      }
      if !e.copyOut {
        dev.devMutex.Unlock();
        return EFAULT, record, bytes;
      }
      record := q.(data := barBaseAddress[q.offset / 4]);
      dev.devMutex.Unlock();
      return RW_SIZE, record, bytes;
    } else if q.mode == RW_DMA {
      if q.size == 0 {
        dev.devMutex.Unlock();
        return 0, record, bytes;
      }
      if Sum32(q.size, q.offset) > DMA_SIZE || !e.copyOut {
        dev.devMutex.Unlock();
        return EFAULT, record, bytes;
      }
      bytes := Bytes(dev.dmaBar[..])[4 * (q.offset / 4)..4 * (q.offset / 4) + q.size];
      dev.devMutex.Unlock();
      return q.size, record, bytes;
    } else {
      dev.devMutex.Unlock();
      return EFAULT, record, bytes;
    }
  }

  method WriteStruct(drv: Driver, dev: Device, q: DeviceRw, count: Count, e: StructEnv) returns (ret: int)
    requires drv.Valid() && dev in drv.devices && !drv.controlMutex.held && !dev.devMutex.held
    modifies dev.systemBar, dev.dmaBar, drv.controlMutex, dev.devMutex
    ensures !drv.controlMutex.held && !dev.devMutex.held
    ensures Step(dev.Contents(), ret) == StructWrite(old(dev.Contents()), q, count, e)
    ensures forall d <- drv.devices :: d != dev ==> d.Contents() == old(d.Contents())
  {
    ret := drv.controlMutex.LockInterruptible(e.gate.Interrupted?);
    if ret != 0 { return ERESTARTSYS; }
    var writeFail := e.gate.flag;
    drv.controlMutex.Unlock();
    if writeFail { return EFAULT; }
    ret := dev.devMutex.LockInterruptible(e.devInterrupted);
    if ret != 0 { return ERESTARTSYS; }
    if count < RW_SIZE || !e.copyIn {
      dev.devMutex.Unlock();
      return EFAULT;
    }
    ret := WriteStructLocked(drv, dev, q, e);
  }

  /** The part of a write under devMutex; every path releases it. */
  method WriteStructLocked(drv: Driver, dev: Device, q: DeviceRw, e: StructEnv) returns (ret: int)
    requires drv.Serves(dev) && !drv.controlMutex.held && dev.devMutex.held
    modifies dev.systemBar, dev.dmaBar, drv.controlMutex, dev.devMutex
    ensures !drv.controlMutex.held && !dev.devMutex.held
    ensures StructEntry(RW_SIZE, e) == 0 ==>
              Step(dev.Contents(), ret) == StructWrite(old(dev.Contents()), q, RW_SIZE, e)
  {
    if q.mode != RW_D32 {
      dev.devMutex.Unlock();
      return EFAULT;
    }
    var bar;
    match q.bar {
      case 0 => bar := SystemBar;
      case 2 => bar := DmaBar;
      case _ =>
        dev.devMutex.Unlock();
        return EFAULT;
    }
    if q.offset % 4 != 0 || q.offset >= 4 * bar.Words() {
      dev.devMutex.Unlock();
      return EFAULT;
    }
    ret := WriteOne(drv, dev, Addr(bar, q.offset / 4), q.data, WordEnv(true, e.control));
    dev.devMutex.Unlock();
    if ret != 0 { return EIO; }
    return RW_SIZE;
  }

  method IoctlReadDma(dev: Device, offset: Word, size: Word, devInterrupted: bool, copyIn: bool, copyOut: bool)
    returns (ret: int, bytes: seq<Byte>)
    requires dev.Valid() && !dev.devMutex.held && Contained(offset, size)
    modifies dev.devMutex
    ensures !dev.devMutex.held
    ensures devInterrupted ==> ret == ERESTARTSYS && bytes == []
    ensures !devInterrupted && !copyIn ==> ret == EFAULT && bytes == []
    ensures !devInterrupted && copyIn ==> Bulk(ret, bytes) == IoctlDma(dev.Contents(), offset, size, copyOut)
  {
    bytes := [];
    ret := dev.devMutex.LockInterruptible(devInterrupted);
    if ret != 0 { return ERESTARTSYS, bytes; }
    if !copyIn {
      dev.devMutex.Unlock();
      return EFAULT, bytes;
    }
    if Sum32(offset, size) > DMA_SIZE {
      dev.devMutex.Unlock();
      return EFAULT, bytes;
    }
    if offset % 4 != 0 {
      dev.devMutex.Unlock();
      return EFAULT, bytes;
    }
    ret := 0;
    if copyOut {
      bytes := Bytes(dev.dmaBar[..])[4 * (offset / 4)..4 * (offset / 4) + size];
    } else {
      ret := EFAULT;
    }
    dev.devMutex.Unlock();
  }

  // ---------------------------------------------------------------------------------------------
  // The bulk readers agree
  // ---------------------------------------------------------------------------------------------

  /** Both readers accept or both refuse, and they deliver the same bytes. */
  predicate ReadersAgree(b: Bars, offset: Word, size: Word)
    requires Contained(offset, size)
  {
    var s, i := StructDma(b, offset, size, true), IoctlDma(b, offset, size, true);
    (s.ret < 0 <==> i.ret < 0) && s.bytes == i.bytes
  }

  /** They differ exactly on an unaligned offset the record reader serves, and on an empty request the
      ioctl refuses. */
  lemma ReadersAgreeExactly(b: Bars, offset: Word, size: Word)
    requires Contained(offset, size)
    ensures ReadersAgree(b, offset, size) <==>
            if size == 0 then offset <= DMA_SIZE && offset % 4 == 0 else offset % 4 == 0 || !Passes(offset, size)
  {
  }

  /** An unaligned request that only the record reader serves, and an empty one. */
  lemma ReadersDisagree(b: Bars)
    ensures !ReadersAgree(b, 2, 4) && !ReadersAgree(b, DMA_SIZE + 4, 0)
  {
    hide Bytes;
  }

  lemma BytesOfSlice(ws: seq<Word>, i: nat, j: nat)
    requires i <= j <= |ws|
    ensures Bytes(ws)[4 * i..4 * j] == Bytes(ws[i..j])
  {
    forall k | 0 <= k < 4 * (j - i) ensures Bytes(ws)[4 * i + k] == Bytes(ws[i..j])[k] {
      assert (4 * i + k) / 4 == i + k / 4 && (4 * i + k) % 4 == k % 4;
    }
  }

  // ---------------------------------------------------------------------------------------------
  // What the bytes and the replies mean
  // ---------------------------------------------------------------------------------------------

  /** The word whose memory begins at byte p, lowest byte first. */
  function WordAt(bytes: seq<Byte>, p: nat): int
    requires p + 4 <= |bytes|
  {
    (bytes[p] as int) + 0x100 * (bytes[p + 1] as int) + 0x1_0000 * (bytes[p + 2] as int)
    + 0x100_0000 * (bytes[p + 3] as int)
  }

  lemma LowByte(w: nat)
    ensures w == w % 0x100 + 0x100 * (w / 0x100)
  {
  }

  lemma DivDiv(w: nat, m: nat)
    requires m == 0x100 || m == 0x1_0000
    ensures w / m / 0x100 == w / (0x100 * m)
  {
  }

  lemma FourBytes(w: Word)
    ensures w == w % 0x100 + 0x100 * (w / 0x100 % 0x100) + 0x1_0000 * (w / 0x1_0000 % 0x100)
                 + 0x100_0000 * (w / 0x100_0000)
  {
    LowByte(w);
    LowByte(w / 0x100);
    DivDiv(w, 0x100);
    LowByte(w / 0x1_0000);
    DivDiv(w, 0x1_0000);
  }

  lemma ByteOfWord(ws: seq<Word>, i: nat)
    requires i < |ws|
    ensures ByteAt(ws, 4 * i) == ws[i] % 0x100
    ensures ByteAt(ws, 4 * i + 1) == ws[i] / 0x100 % 0x100
    ensures ByteAt(ws, 4 * i + 2) == ws[i] / 0x1_0000 % 0x100
    ensures ByteAt(ws, 4 * i + 3) == ws[i] / 0x100_0000
  {
    assert 4 * i / 4 == (4 * i + 1) / 4 == (4 * i + 2) / 4 == (4 * i + 3) / 4 == i;
  }

  /** The bytes give the words back. */
  lemma BytesGiveWords(ws: seq<Word>, i: nat)
    requires i < |ws|
    ensures WordAt(Bytes(ws), 4 * i) == ws[i]
  {
    ByteOfWord(ws, i);
    FourBytes(ws[i]);
    hide ByteAt;
  }

  /** What both bulk readers deliver are the words of bar 2 from the one that holds the offset on. */
  lemma BulkGivesWords(b: Bars, offset: Word, size: Word, i: nat)
    requires Contained(offset, size) && Passes(offset, size) && 4 * i + 4 <= size
    ensures offset / 4 + i < DMA_WORDS
    ensures var r := StructDma(b, offset, size, true);
            r.ret == size && |r.bytes| == size && WordAt(r.bytes, 4 * i) == b.dma[offset / 4 + i]
    ensures offset % 4 == 0 ==>
              var r := IoctlDma(b, offset, size, true);
              r.ret == 0 && |r.bytes| == size && WordAt(r.bytes, 4 * i) == b.dma[offset / 4 + i]
  {
    hide Bytes, WordAt;
    BytesGiveWords(b.dma, offset / 4 + i);
    var from := 4 * (offset / 4);
    assert from + size <= DMA_SIZE && 4 * (offset / 4 + i) == from + 4 * i;
    WordInSlice(Bytes(b.dma), from, size, 4 * i);
  }

  lemma WordInSlice(bytes: seq<Byte>, from: nat, size: nat, p: nat)
    requires p + 4 <= size && from + size <= |bytes|
    ensures WordAt(bytes[from..from + size], p) == WordAt(bytes, from + p)
  {
  }

  /** The reply to RW_INFO, field by field. */
  lemma InfoReply(b: Bars, slotNr: Word, q: DeviceRw, count: Count, e: StructEnv)
    requires StructEntry(count, e) == 0 && q.mode == 4
    ensures var r := StructRead(b, slotNr, q, count, e);
            if e.copyOut then
              && r.ret == 24 && r.bytes == []
              && r.record.offset == 10 && r.record.data == 0 && r.record.mode == 1 && r.record.bar == slotNr
              && r.record.size == 11 && r.record.rsrvd == q.rsrvd
            else r == Reply(-14, q, [])
  {
  }

  /** A word read changes nothing in the record but the data. */
  lemma WordReply(b: Bars, slotNr: Word, q: DeviceRw, count: Count, e: StructEnv)
    requires StructEntry(count, e) == 0 && q.mode == 2
    ensures var r := StructRead(b, slotNr, q, count, e);
            && r.bytes == [] && r.record == q.(data := r.record.data)
            && (q.bar == 0 && q.offset % 4 == 0 && q.offset < 128 && q.offset != 0x48 && e.copyOut ==>
                  r.ret == 24 && r.record.data == b.sys[q.offset / 4])
            && (q.bar == 2 && q.offset % 4 == 0 && q.offset < 4096 && e.copyOut ==>
                  r.ret == 24 && r.record.data == b.dma[q.offset / 4])
            && (q.bar == 0 && q.offset == 0x48 ==> r.ret == -5)
            && (q.bar != 0 && q.bar != 2 ==> r.ret == -14)
            && (r.ret != 24 ==> r.record == q)
  {
  }

  /** Other modes are refused, by the read as by the write. */
  lemma OtherModes(b: Bars, slotNr: Word, q: DeviceRw, count: Count, e: StructEnv)
    requires StructEntry(count, e) == 0
    ensures q.mode != 2 && q.mode != 3 && q.mode != 4 ==> StructRead(b, slotNr, q, count, e) == Reply(-14, q, [])
    ensures q.mode != 2 ==> StructWrite(b, q, count, e) == Step(b, -14)
  {
  }

  /** Before the request is looked at, in this order: a signal, the error flag, a signal again, a short count or a
      request that cannot be copied. Nothing is written or delivered then. */
  lemma RecordRefusals(b: Bars, slotNr: Word, q: DeviceRw, count: Count, e: StructEnv)
    requires q.mode == RW_DMA ==> Contained(q.offset, q.size)
    ensures var status :=
              if e.gate.Interrupted? then -512
              else if e.gate.flag then -14
              else if e.devInterrupted then -512
              else if count < 24 || !e.copyIn then -14
              else 0;
            status != 0 ==>
              && StructRead(b, slotNr, q, count, e) == Reply(status, q, [])
              && StructWrite(b, q, count, e) == Step(b, status)
  {
  }
}
