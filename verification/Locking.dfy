/** The locking protocol as interleaved steps of any number of threads, one driver call per thread. */
module Locking {
  import opened Layout
  import opened Firmware
  import opened Transfer
  import opened StructPath
  import P = ProcOptions

  // ---------------------------------------------------------------------------------------------
  // Calls and what they do under devMutex
  // ---------------------------------------------------------------------------------------------

  /** copyIn, copyOut: whether the request record, and what a record call gives back, can be copied. */
  datatype Op =
    | BlockWriteOp(dev: nat, pos: FilePos, count: Count, data: seq<Word>)
    | BlockReadOp(dev: nat, pos: FilePos, count: Count)
    | StructWriteOp(dev: nat, q: DeviceRw, count: Count, copyIn: bool)
    | StructReadOp(dev: nat, q: DeviceRw, count: Count, copyIn: bool, copyOut: bool)
    | IoctlOp(dev: nat, offset: Word, size: Word, copyIn: bool, copyOut: bool)
    | DumpOp(dev: nat)
    | OpenOp(dev: nat)
    | OptionsOp(settings: P.Settings)
  {
    predicate Valid(nDevs: nat) {
      && (!OptionsOp? ==> dev < nDevs)
      && (BlockWriteOp? ==> |data| == count / 4)
      && (StructReadOp? && q.mode == RW_DMA ==> Contained(q.offset, q.size))
      && (IoctlOp? ==> Contained(offset, size))
    }
    /** Open, reads and writes sample an error flag first; ioctls and dumps do not. */
    predicate Gated() { !IoctlOp? && !DumpOp? && !OptionsOp? }
    /** Calls that take devMutex. */
    predicate Enters() { !OpenOp? && !OptionsOp? }
    function GateFlag(f: P.Flags): bool
      requires Gated()
    {
      if OpenOp? then f.open else if BlockWriteOp? || StructWriteOp? then f.write else f.read
    }
    /** The answer when that flag is set. */
    function GateStatus(): int { if OpenOp? then EINVAL else EFAULT }
    /** The block path checks its request before it takes devMutex. */
    function PreCheck(): int {
      match this
      case BlockWriteOp(_, pos, count, _) => if Decode(count, pos).Refused? then EFAULT else 0
      case BlockReadOp(_, pos, count) => if Decode(count, pos).Refused? then EFAULT else 0
      case _ => 0
    }
  }

  /** A word reader copies each word to the user and looks at broken registers; a plain reader does neither. */
  datatype Reader = WordReader | PlainReader

  /** The work between lock and unlock: nothing, a store-then-act loop, in which the copy of each word may fail if
      byWord is set, or a loop of loads. */
  datatype Job =
    | Nothing(status: int)
    | Stores(cells: seq<Cell>, data: seq<Word>, byWord: bool)
    | Loads(cells: seq<Cell>, reader: Reader)
  {
    predicate Valid() { Stores? ==> |data| == |cells| }
    function Size(): nat { if Nothing? then 0 else |cells| }
  }

  function Range(bar: Bar, first: nat, n: nat): (r: seq<Cell>)
    requires first + n <= bar.Words()
    ensures |r| == n && forall k :: 0 <= k < n ==> r[k] == Addr(bar, first + k)
  {
    seq(n, k requires 0 <= k < n => Addr(bar, first + k))
  }

  /** All words that hold some of the bytes. */
  function BulkJob(offset: Word, size: Word): (j: Job)
    requires offset + size <= DMA_SIZE
    ensures j.Valid() && j.Loads? && j.reader == PlainReader && size <= 4 * |j.cells| < size + 4
    ensures forall k :: 0 <= k < |j.cells| ==> j.cells[k] == Addr(DmaBar, offset / 4 + k)
  {
    Loads(Range(DmaBar, offset / 4, (size + 3) / 4), PlainReader)
  }

  function StructReadJob(q: DeviceRw, count: Count, copyIn: bool, copyOut: bool): (j: Job)
    requires q.mode == RW_DMA ==> Contained(q.offset, q.size)
    ensures j.Valid()
  {
    if count < RW_SIZE || !copyIn then Nothing(EFAULT)
    else if q.mode == RW_INFO then Nothing(if copyOut then 0 else EFAULT)
    else if q.mode == RW_D32 then
      match Locate(q.bar, q.offset)
      case Bad => Nothing(EFAULT)
      case Good(bar, w) =>
        if ReadBreaks(Addr(bar, w)) then Nothing(EIO)
        else if !copyOut then Nothing(EFAULT)
        else Loads([Addr(bar, w)], PlainReader)
    else if q.mode == RW_DMA then
      if q.size == 0 then Nothing(0)
      else if !Passes(q.offset, q.size) || !copyOut then Nothing(EFAULT)
      else BulkJob(q.offset, q.size)
    else Nothing(EFAULT)
  }

  function JobOf(op: Op): (j: Job)
    requires op.Enters() && op.PreCheck() == 0 && op.Valid(op.dev + 1)
    ensures j.Valid()
  {
    match op
    case BlockWriteOp(_, pos, count, data) =>
      var r := Decode(count, pos);
      Stores(Range(r.bar, r.first, r.n), data[..r.n], true)
    case BlockReadOp(_, pos, count) =>
      var r := Decode(count, pos);
      Loads(Range(r.bar, r.first, r.n), WordReader)
    case StructWriteOp(_, q, count, copyIn) =>
      if count < RW_SIZE || !copyIn || q.mode != RW_D32 then Nothing(EFAULT)
      else
        (match Locate(q.bar, q.offset)
         case Bad => Nothing(EFAULT)
         case Good(bar, w) => Stores([Addr(bar, w)], [q.data], false))
    case StructReadOp(_, q, count, copyIn, copyOut) => StructReadJob(q, count, copyIn, copyOut)
    case IoctlOp(_, offset, size, copyIn, copyOut) =>
      if !copyIn || !Passes(offset, size) || offset % 4 != 0 || !copyOut then Nothing(EFAULT)
      else BulkJob(offset, size)
    case DumpOp(_) => Loads(Range(SystemBar, 0, N_REGISTERS) + Range(DmaBar, 0, DMA_WORDS), PlainReader)
  }

  /** The work of an accepted block call: exactly the words of its clipped range, in order, each with its data. */
  lemma BlockJobs(op: Op)
    requires (op.BlockWriteOp? || op.BlockReadOp?) && op.PreCheck() == 0 && op.Valid(op.dev + 1)
    ensures var j, r := JobOf(op), Decode(op.count, op.pos);
            && r.Accepted? && !j.Nothing? && j.Size() == r.n
            && (forall k :: 0 <= k < r.n ==> j.cells[k] == Addr(r.bar, r.first + k))
            && (op.BlockWriteOp? ==> j.Stores? && j.data == op.data[..r.n])
            && (op.BlockReadOp? ==> j.Loads? && j.reader == WordReader)
  {
    hide Decode;
  }

  // ---------------------------------------------------------------------------------------------
  // The same work done alone
  // ---------------------------------------------------------------------------------------------

  /** n words attempted one after the other, with nobody else around. */
  function StoreAlone(b: Bars, cells: seq<Cell>, data: seq<Word>, env: seq<WordEnv>, n: nat): Progress
    requires n <= |cells| == |data| && n <= |env|
  {
    if n == 0 then Progress(b, 0, 0)
    else
      var p := StoreAlone(b, cells, data, env, n - 1);
      if p.status != 0 then p
      else
        var s := WriteWord(p.bars, cells[n - 1], data[n - 1], env[n - 1]);
        Progress(s.bars, if s.status == 0 then p.done + 1 else p.done, s.status)
  }

  function LoadStatus(a: Cell, reader: Reader, e: WordEnv): int {
    if reader == PlainReader then 0 else if ReadBreaks(a) then EIO else if !e.copyOk then EFAULT else 0
  }

  datatype Loaded = Loaded(values: seq<Word>, status: int)

  function LoadAlone(b: Bars, cells: seq<Cell>, reader: Reader, env: seq<WordEnv>, n: nat): Loaded
    requires n <= |cells| && n <= |env|
  {
    if n == 0 then Loaded([], 0)
    else
      var r := LoadAlone(b, cells, reader, env, n - 1);
      var status := LoadStatus(cells[n - 1], reader, env[n - 1]);
      if r.status != 0 then r
      else if status != 0 then Loaded(r.values, status)
      else Loaded(r.values + [Load(b, cells[n - 1])], 0)
  }

  /** done: how many words went through. */
  datatype Outcome = Outcome(bars: Bars, values: seq<Word>, done: nat, status: int)

  /** A job done alone, as far as the surroundings in env let it. */
  function Alone(b: Bars, j: Job, env: seq<WordEnv>): Outcome
    requires j.Valid() && |env| <= j.Size()
  {
    match j
    case Nothing(status) => Outcome(b, [], 0, status)
    case Stores(cells, data, _) =>
      var s := StoreAlone(b, cells, data, env, |env|);
      Outcome(s.bars, [], s.done, s.status)
    case Loads(cells, reader) =>
      var r := LoadAlone(b, cells, reader, env, |env|);
      Outcome(b, r.values, |r.values|, r.status)
  }

  // ---------------------------------------------------------------------------------------------
  // States
  // ---------------------------------------------------------------------------------------------

  datatype Owner = Free | By(t: nat)

  datatype Pc =
    | Start                              // about to take controlMutex
    | GateHeld                           // holds controlMutex
    | GateSampled(flag: bool)            // holds controlMutex, flag sampled
    | WaitDev                            // about to take devMutex
    | Word(i: nat)                       // holds devMutex, word i is next
    | Stored(i: nat)                     // holds devMutex, word i is stored, firmware to come
    | ActHeld(i: nat)                    // holds devMutex and controlMutex
    | ActSampled(i: nat, flag: bool)     // holds devMutex and controlMutex, SPI flag sampled
    | Acting(i: nat, flag: bool)         // holds devMutex, controlMutex released again
    | Leaving(status: int)               // about to release devMutex
    | Commit(k: nat)                     // holds controlMutex, k option flags assigned
    | Finished(status: int)
  {
    predicate HoldsControl() { GateHeld? || GateSampled? || ActHeld? || ActSampled? || Commit? }
    predicate HoldsDev() { Word? || Stored? || ActHeld? || ActSampled? || Acting? || Leaving? }
  }

  /** env: what the words so far met. at, stamp, gateAt: how many option writes were committed when the flag of
      a word, of the word under way and of the whole call was sampled. moved: by how many words *f_pos has advanced.
      entered: the call has taken devMutex. */
  datatype Thread = Thread(op: Op, pc: Pc, env: seq<WordEnv>, at: seq<nat>, values: seq<Word>, moved: nat, stamp: nat,
                           gateAt: nat, entered: bool)

  /** One finished call in the order of devMutex. */
  datatype Entry = Entry(t: nat, job: Job, env: seq<WordEnv>, at: seq<nat>, values: seq<Word>, moved: nat, status: int)

  datatype Dev = Dev(start: Bars, bars: Bars, owner: Owner, acquired: seq<nat>, log: seq<Entry>)

  /** initial: the flags of controlData before any option write; options: the option writes committed since. */
  datatype State = State(threads: seq<Thread>, devs: seq<Dev>, control: Owner, flags: P.Flags,
                         initial: P.Flags, options: seq<P.Settings>)

  /** What the scheduler decides about a step: carry on, a signal interrupts a lock, or a user copy fails. */
  datatype Choice = Go | Interrupt | CopyFail

  /** A step of one thread as seen from its own device and the control lock. */
  datatype Move = Blocked | Move(thread: Thread, dev: Dev, control: Owner)

  function EntryOf(t: nat, th: Thread, j: Job, status: int): Entry {
    Entry(t, j, th.env, th.at, th.values, th.moved, status)
  }

  /** The word under way is over, or has gone through. */
  function Noted(th: Thread, e: WordEnv, at: nat): Thread { th.(env := th.env + [e], at := th.at + [at]) }

  function Passed(th: Thread, e: WordEnv, at: nat): Thread { Noted(th, e, at).(moved := th.moved + 1) }

  const OK: WordEnv := WordEnv(true, Interrupted)
  const NO_COPY: WordEnv := WordEnv(false, Interrupted)

  /** Up to devMutex. */
  function EntryStep(t: nat, th: Thread, dev: Dev, control: Owner, flags: P.Flags, now: nat, c: Choice): Move
    requires !th.op.OptionsOp? && th.op.Valid(th.op.dev + 1) && (th.pc.GateHeld? ==> th.op.Gated())
    requires th.pc.WaitDev? ==> th.op.PreCheck() == 0 && th.op.Enters()
  {
    match th.pc
    case Start =>
      if c == Interrupt then Move(th.(pc := Finished(ERESTARTSYS)), dev, control)
      else if control == Free then Move(th.(pc := GateHeld), dev, By(t)) else Blocked
    case GateHeld => Move(th.(pc := GateSampled(th.op.GateFlag(flags)), gateAt := now), dev, control)
    case GateSampled(flag) =>
      var pc := if flag then Finished(th.op.GateStatus())
                else if th.op.OpenOp? then Finished(0)
                else if th.op.PreCheck() != 0 then Finished(th.op.PreCheck()) else WaitDev;
      Move(th.(pc := pc), dev, Free)
    case WaitDev =>
      if c == Interrupt then Move(th.(pc := Finished(ERESTARTSYS)), dev, control)
      else if dev.owner == Free then
        var j := JobOf(th.op);
        Move(th.(pc := if j.Nothing? then Leaving(j.status) else Word(0), entered := true),
             dev.(owner := By(t), acquired := dev.acquired + [t]), control)
      else Blocked
    case _ => Blocked
  }

  /** From devMutex on. */
  function WorkStep(t: nat, th: Thread, j: Job, dev: Dev, control: Owner, spi: bool, now: nat, c: Choice): Move
    requires j.Valid() && (th.pc.Word? ==> th.pc.i <= j.Size() && !j.Nothing?)
    requires th.pc.Stored? || th.pc.ActHeld? || th.pc.ActSampled? || th.pc.Acting? ==>
               j.Stores? && th.pc.i < j.Size() && (!th.pc.Stored? ==> j.cells[th.pc.i].bar.SystemBar?)
  {
    match th.pc
    case Word(i) =>
      if i == j.Size() then Move(th.(pc := Leaving(0)), dev, control)
      else if j.Stores? then
        if c == CopyFail && j.byWord then Move(Noted(th, NO_COPY, now).(pc := Leaving(EFAULT)), dev, control)
        else Move(th.(pc := Stored(i)), dev.(bars := Store(dev.bars, j.cells[i], j.data[i])), control)
      else
        var e := if c == CopyFail then NO_COPY else OK;
        var status := LoadStatus(j.cells[i], j.reader, e);
        if status != 0 then Move(Noted(th, e, now).(pc := Leaving(status)), dev, control)
        else
          var x := Passed(th, e, now);
          Move(x.(pc := Word(i + 1), values := th.values + [Load(dev.bars, j.cells[i])]), dev, control)
    case Stored(i) =>
      if j.cells[i].bar.DmaBar? then Move(Passed(th, OK, now).(pc := Word(i + 1)), dev, control)
      else if c == Interrupt then Move(Noted(th, OK, now).(pc := Leaving(EIO)), dev, control)
      else if control == Free then Move(th.(pc := ActHeld(i)), dev, By(t)) else Blocked
    case ActHeld(i) => Move(th.(pc := ActSampled(i, spi), stamp := now), dev, control)
    case ActSampled(i, flag) => Move(th.(pc := Acting(i, flag)), dev, Free)
    case Acting(i, flag) =>
      var e := WordEnv(true, Sampled(flag));
      if WriteBreaks(j.cells[i]) then Move(Noted(th, e, th.stamp).(pc := Leaving(EIO)), dev, control)
      else
        var bars := React(dev.bars, j.cells[i].word, flag);
        Move(Passed(th, e, th.stamp).(pc := Word(i + 1)), dev.(bars := bars), control)
    case Leaving(status) =>
      Move(th.(pc := Finished(status)),
           dev.(owner := Free, log := dev.log + [EntryOf(t, th, j, status)]), control)
    case _ => Blocked
  }

  /** The flags of controlData after the first n option writes. */
  function FlagsAfter(f: P.Flags, options: seq<P.Settings>, n: nat): P.Flags
    requires n <= |options|
  {
    if n == 0 then f else P.Commit(FlagsAfter(f, options, n - 1), options[n - 1])
  }

  /** The commit of one option write once its first k assignments are done. */
  function Partly(f: P.Flags, t: P.Settings, k: nat): P.Flags {
    var g := P.Commit(f, t);
    P.Flags(if k > 0 then g.open else f.open, if k > 1 then g.read else f.read,
            if k > 2 then g.write else f.write, if k > 3 then g.spi else f.spi)
  }

  /** Assignment number k of a commit. */
  function Assign(f: P.Flags, t: P.Settings, k: nat): P.Flags {
    match k
    case 0 => if t.open > -1 then f.(open := t.open != 0) else f
    case 1 => if t.read > -1 then f.(read := t.read != 0) else f
    case 2 => if t.write > -1 then f.(write := t.write != 0) else f
    case _ => if t.spi > -1 then f.(spi := t.spi != 0) else f
  }

  datatype Result = Stuck | Next(s: State)

  function OptionStep(s: State, t: nat, c: Choice): Result
    requires t < |s.threads| && s.threads[t].op.OptionsOp?
  {
    var th := s.threads[t];
    match th.pc
    case Start =>
      if c == Interrupt then Next(s.(threads := s.threads[t := th.(pc := Finished(EAGAIN))]))
      else if s.control == Free then Next(s.(threads := s.threads[t := th.(pc := Commit(0))], control := By(t)))
      else Stuck
    case Commit(k) =>
      if k < 4 then
        Next(s.(threads := s.threads[t := th.(pc := Commit(k + 1))], flags := Assign(s.flags, th.op.settings, k)))
      else
        Next(s.(threads := s.threads[t := th.(pc := Finished(0))], control := Free,
                options := s.options + [th.op.settings]))
    case _ => Stuck
  }

  /** What a thread on device work has to satisfy for its next step to make sense. */
  predicate Typed(th: Thread) {
    && !th.op.OptionsOp? && th.op.Valid(th.op.dev + 1) && !th.pc.Commit?
    && (th.pc.Start? || th.pc.GateHeld? || th.pc.GateSampled? ==> th.op.Gated())
    && (th.pc.WaitDev? || th.pc.HoldsDev() ==> th.op.Enters() && th.op.PreCheck() == 0)
    && |th.env| == |th.at|
    && (!th.entered ==> th.env == [] && th.values == [] && th.moved == 0)
    && (th.pc.HoldsDev() ==> th.entered) && (th.entered ==> th.op.Enters())
    && (!th.pc.HoldsDev() && !th.pc.Finished? ==> !th.entered)
    && (th.pc.HoldsDev() ==>
          var j := JobOf(th.op);
          && |th.env| <= j.Size()
          && (th.pc.Word? ==> th.pc.i == |th.env| && !j.Nothing?)
          && (th.pc.Stored? || th.pc.ActHeld? || th.pc.ActSampled? || th.pc.Acting? ==>
                j.Stores? && th.pc.i == |th.env| < j.Size() && (!th.pc.Stored? ==> j.cells[th.pc.i].bar.SystemBar?)))
  }

  function DeviceStep(t: nat, th: Thread, dev: Dev, control: Owner, flags: P.Flags, now: nat, c: Choice): Move
    requires Typed(th)
  {
    if th.pc.HoldsDev() then WorkStep(t, th, JobOf(th.op), dev, control, flags.spi, now, c)
    else EntryStep(t, th, dev, control, flags, now, c)
  }

  predicate CanStep(s: State, t: nat) {
    t < |s.threads| && (s.threads[t].op.OptionsOp? || (Typed(s.threads[t]) && s.threads[t].op.dev < |s.devs|))
  }

  function StepOf(s: State, t: nat, c: Choice): Result
    requires CanStep(s, t)
  {
    var th := s.threads[t];
    if th.op.OptionsOp? then OptionStep(s, t, c)
    else
      match DeviceStep(t, th, s.devs[th.op.dev], s.control, s.flags, |s.options|, c)
      case Blocked => Stuck
      case Move(x, dev, control) =>
        Next(s.(threads := s.threads[t := x], devs := s.devs[th.op.dev := dev], control := control))
  }

  datatype Turn = Turn(t: nat, choice: Choice)

  /** The first n turns of a schedule; Stuck if one of them cannot be taken. */
  function Execute(s: State, turns: seq<Turn>, n: nat): Result
    requires n <= |turns|
  {
    if n == 0 then Next(s)
    else
      match Execute(s, turns, n - 1)
      case Stuck => Stuck
      case Next(r) => if CanStep(r, turns[n - 1].t) then StepOf(r, turns[n - 1].t, turns[n - 1].choice) else Stuck
  }

  /** Nobody has done anything yet. Dumps and ioctls start at devMutex, everything else at controlMutex. */
  predicate Initial(s: State) {
    && s.control == Free && s.flags == s.initial && s.options == []
    && (forall th <- s.threads ::
          && th.op.Valid(|s.devs|) && th.env == [] && th.at == [] && th.values == [] && th.moved == 0 && th.gateAt == 0
          && !th.entered
          && th.pc == if th.op.DumpOp? || th.op.IoctlOp? then WaitDev else Start)
    && (forall dev <- s.devs :: dev.owner == Free && dev.bars == dev.start && dev.acquired == [] && dev.log == [])
  }
}
