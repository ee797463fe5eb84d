/** Loading and unloading the module: what is acquired is released, once, in an order that never exposes a
    half-built device. */
module Lifecycle {
  import opened Layout
  import opened Firmware

  /** The parts of one device in the order in which they are acquired. */
  datatype Kind = SystemBarMem | DmaBarMem | DevMutex | Cdev | Node {
    function Rank(): nat {
      match this
      case SystemBarMem => 0
      case DmaBarMem => 1
      case DevMutex => 2
      case Cdev => 3
      case Node => 4
    }
  }

  datatype Resource = Region | DeviceClass | Part(device: nat, kind: Kind)

  /** What a user could see of a device. */
  datatype Snapshot = Snapshot(bars: Bars, locked: bool, users: int)

  ghost function StateOf(d: Device): Snapshot
    requires d.Valid()
    reads d, d.devMutex, d.systemBar, d.dmaBar
  {
    Snapshot(d.Contents(), d.devMutex.held, d.inUse)
  }

  function Unused(): Snapshot { Snapshot(InitialBars(), false, 0) }

  /** GoesLive: the cdev of device d is added, which from then on can be opened, in the state s. */
  datatype Event = Acquired(r: Resource) | Released(r: Resource) | GoesLive(d: Device, s: Snapshot) {
    /** The resource that is taken or given back. */
    function Of(): Resource { if GoesLive? then Part(d.slotNr, Cdev) else r }
  }

  ghost function Held(log: seq<Event>): set<Resource> {
    if log == [] then {} else HeldAfter(Held(log[..|log| - 1]), log[|log| - 1])
  }

  ghost function HeldAfter(held: set<Resource>, e: Event): set<Resource> {
    if e.Released? then held - {e.Of()} else held + {e.Of()}
  }

  /** The devices that can be opened, by minor number. */
  ghost function Live(log: seq<Event>): map<nat, Device> {
    if log == [] then map[] else LiveAfter(Live(log[..|log| - 1]), log[|log| - 1])
  }

  ghost function LiveAfter(live: map<nat, Device>, e: Event): map<nat, Device> {
    if e.GoesLive? then live[e.d.slotNr := e.d]
    else if e.Released? && e.r.Part? && e.r.kind == Cdev then live - {e.r.device}
    else live
  }

  /** What an event needs: nothing is acquired twice or released without being held, a device only goes live when
      it is built, unused and has its memory and mutex, a device node only exists over its cdev and class. */
  ghost predicate Legal(log: seq<Event>, e: Event) {
    var held := Held(log);
    match e
    case GoesLive(d, s) =>
      && d.Valid() && s == Unused() && e.Of() !in held
      && Part(d.slotNr, SystemBarMem) in held && Part(d.slotNr, DmaBarMem) in held && Part(d.slotNr, DevMutex) in held
    case Acquired(r) =>
      && r !in held && (r.Part? ==> r.kind != Cdev)
      && (r.Part? && r.kind == Node ==> Part(r.device, Cdev) in held && DeviceClass in held)
    case Released(r) =>
      && r in held
      && (r.Part? && r.kind.Rank() < Cdev.Rank() ==> Part(r.device, Cdev) !in held)
      && (r.Part? && r.kind == Cdev ==> Part(r.device, Node) !in held)
      && (r == DeviceClass ==> forall i :: Part(i, Node) !in held)
  }

  ghost predicate Disciplined(log: seq<Event>) {
    log != [] ==> Disciplined(log[..|log| - 1]) && Legal(log[..|log| - 1], log[|log| - 1])
  }

  lemma LogGrows(log: seq<Event>, e: Event)
    requires Disciplined(log) && Legal(log, e)
    ensures Disciplined(log + [e])
    ensures Held(log + [e]) == HeldAfter(Held(log), e)
    ensures Live(log + [e]) == LiveAfter(Live(log), e)
  {
    hide Legal;
    assert (log + [e])[..|log|] == log;
  }

  function Acquisitions(log: seq<Event>, r: Resource): nat {
    if log == [] then 0
    else
      var last := log[|log| - 1];
      Acquisitions(log[..|log| - 1], r) + if !last.Released? && last.Of() == r then 1 else 0
  }

  function Releases(log: seq<Event>, r: Resource): nat {
    if log == [] then 0
    else Releases(log[..|log| - 1], r) + if log[|log| - 1] == Released(r) then 1 else 0
  }

  /** In a disciplined log nothing is released more often than it is acquired, and what is not held any more has
      been released exactly as often. */
  lemma {:induction false} Balance(log: seq<Event>, r: Resource)
    requires Disciplined(log)
    ensures Acquisitions(log, r) == Releases(log, r) + if r in Held(log) then 1 else 0
    decreases |log|
  {
    if log != [] { Balance(log[..|log| - 1], r); }
  }

  /** At every moment exactly the devices whose cdev is held can be opened. Each of them is found under its own
      slot number, still has its memory and its mutex, and was in its initial state when it became visible. */
  lemma {:induction false} LiveDevicesAreComplete(log: seq<Event>, i: nat)
    requires Disciplined(log)
    ensures i in Live(log) <==> Part(i, Cdev) in Held(log)
    ensures i in Live(log) ==>
      && Live(log)[i].Valid() && Live(log)[i].slotNr == i && GoesLive(Live(log)[i], Unused()) in log
      && Part(i, SystemBarMem) in Held(log) && Part(i, DmaBarMem) in Held(log) && Part(i, DevMutex) in Held(log)
    decreases |log|
  {
    if log != [] {
      var before := log[..|log| - 1];
      assert log == before + [log[|log| - 1]];
      hide Unused;
      LiveDevicesAreComplete(before, i);
    }
  }

  /** Region and class are held, devices lo..i completely, and of device i the first k parts. */
  ghost predicate Stock(held: set<Resource>, lo: nat, i: nat, k: nat) {
    forall r: Resource :: r in held <==> !r.Part? || lo <= r.device < i || (r.device == i && r.kind.Rank() < k)
  }

  /** Everything a loaded module with n devices holds. */
  ghost predicate Everything(held: set<Resource>, n: nat) { Stock(held, 0, n, 0) }

  /** What can be refused while n devices are set up. */
  predicate Needed(r: Resource, n: nat) { r.Part? ==> r.device < n && r.kind != DevMutex }

  class Kernel {
    /** Which acquisitions succeed. */
    const grants: Resource -> bool
    ghost var log: seq<Event>

    constructor (grants: Resource -> bool)
      ensures this.grants == grants && log == []
    {
      this.grants := grants;
      log := [];
    }

    ghost function Holding(): set<Resource>
      reads this
    {
      Held(log)
    }

    method Acquire(r: Resource) returns (ok: bool)
      requires Disciplined(log) && (grants(r) ==> Legal(log, Acquired(r)))
      modifies this
      ensures ok == grants(r) && Disciplined(log)
      ensures log == if ok then old(log) + [Acquired(r)] else old(log)
      ensures Holding() == if ok then old(Holding()) + {r} else old(Holding())
      ensures Live(log) == old(Live(log))
    {
      hide Held, Live, Disciplined, Legal;
      ok := grants(r);
      if ok {
        LogGrows(log, Acquired(r));
        log := log + [Acquired(r)];
      }
    }

    /** mutex_init, which cannot fail. */
    method InitMutex(i: nat)
      requires Disciplined(log) && Legal(log, Acquired(Part(i, DevMutex)))
      modifies this
      ensures Disciplined(log) && log == old(log) + [Acquired(Part(i, DevMutex))]
      ensures Holding() == old(Holding()) + {Part(i, DevMutex)} && Live(log) == old(Live(log))
    {
      hide Held, Live, Disciplined, Legal;
      LogGrows(log, Acquired(Part(i, DevMutex)));
      log := log + [Acquired(Part(i, DevMutex))];
    }

    /** cdev_add: when it succeeds the device can be opened, in the state it has now. */
    method AddCdev(d: Device) returns (ok: bool)
      requires Disciplined(log) && d.Valid()
      requires grants(Part(d.slotNr, Cdev)) ==> Legal(log, GoesLive(d, StateOf(d)))
      modifies this
      ensures ok == grants(Part(d.slotNr, Cdev)) && Disciplined(log)
      ensures log == if ok then old(log) + [GoesLive(d, StateOf(d))] else old(log)
      ensures Holding() == if ok then old(Holding()) + {Part(d.slotNr, Cdev)} else old(Holding())
      ensures Live(log) == if ok then old(Live(log))[d.slotNr := d] else old(Live(log))
    {
      hide Held, Live, Disciplined, Legal, StateOf;
      ok := grants(Part(d.slotNr, Cdev));
      if ok {
        LogGrows(log, GoesLive(d, StateOf(d)));
        log := log + [GoesLive(d, StateOf(d))];
      }
    }

    method Release(r: Resource)
      requires Disciplined(log) && Legal(log, Released(r))
      modifies this
      ensures Disciplined(log) && log == old(log) + [Released(r)]
      ensures Holding() == old(Holding()) - {r}
    {
      hide Held, Live, Disciplined, Legal;
      LogGrows(log, Released(r));
      log := log + [Released(r)];
    }
  }

  /** Where the loop over the devices was left. */
  datatype Failure = NoFailure | AllocateSystemBar | AllocateDmaBar | CdevAdd | DeviceCreate {
    /** Number of parts device i already has. */
    function Parts(): nat {
      match this
      case NoFailure => 5
      case AllocateSystemBar => 0
      case AllocateDmaBar => 1
      case CdevAdd => 3
      case DeviceCreate => 4
    }
  }

  /** Zeroed memory becomes a device in its initial state. */
  method BuildDevice(k: Kernel, i: nat, systemBar: array<Word>, dmaBar: array<Word>) returns (d: Device)
    requires Disciplined(k.log) && Legal(k.log, Acquired(Part(i, DevMutex)))
    requires systemBar.Length == N_REGISTERS && dmaBar.Length == DMA_WORDS && systemBar != dmaBar
    requires forall k :: 0 <= k < N_REGISTERS ==> systemBar[k] == 0
    requires forall k :: 0 <= k < DMA_WORDS ==> dmaBar[k] == 0
    modifies k, systemBar
    ensures fresh(d) && fresh(d.devMutex) && d.systemBar == systemBar && d.dmaBar == dmaBar && d.Valid()
    ensures d.slotNr == i && StateOf(d) == Unused()
    ensures Disciplined(k.log) && k.Holding() == old(k.Holding()) + {Part(i, DevMutex)}
    ensures Live(k.log) == old(Live(k.log))
  {
    hide Held, Live, Disciplined, Legal;
    InitialiseSystemBar(systemBar);
    k.InitMutex(i);
    d := new Device(i, systemBar, dmaBar);
    assert d.Contents().dma == InitialBars().dma;
  }

  /** The first n parts of device i. */
  function FirstParts(i: nat, n: nat): set<Resource> {
    (if n > 0 then {Part(i, SystemBarMem)} else {}) + (if n > 1 then {Part(i, DmaBarMem)} else {})
    + (if n > 2 then {Part(i, DevMutex)} else {}) + (if n > 3 then {Part(i, Cdev)} else {})
    + (if n > 4 then {Part(i, Node)} else {})
  }

  lemma StockWith(held: set<Resource>, i: nat, n: nat)
    requires Stock(held, 0, i, 0) && n <= 5
    ensures Stock(held + FirstParts(i, n), 0, i, n)
  {
    forall r: Resource
      ensures r in FirstParts(i, n) <==> r.Part? && r.device == i && r.kind.Rank() < n
    {
      if r.Part? {
        match r.kind
        case SystemBarMem =>
        case DmaBarMem =>
        case DevMutex =>
        case Cdev =>
        case Node =>
      }
    }
    hide FirstParts;
  }

  method AllocateBars(k: Kernel, i: nat) returns (failure: Failure, systemBar: array<Word>, dmaBar: array<Word>)
    requires Disciplined(k.log) && forall kind: Kind :: Part(i, kind) !in k.Holding()
    modifies k
    ensures failure == NoFailure || failure == AllocateSystemBar || failure == AllocateDmaBar
    ensures Disciplined(k.log)
    ensures k.Holding() == old(k.Holding()) + FirstParts(i, if failure == NoFailure then 2 else failure.Parts())
    ensures Live(k.log) == old(Live(k.log))
    ensures failure == NoFailure <==> k.grants(Part(i, SystemBarMem)) && k.grants(Part(i, DmaBarMem))
    ensures fresh(systemBar) && fresh(dmaBar) && systemBar != dmaBar
    ensures failure == NoFailure ==>
      && systemBar.Length == N_REGISTERS && dmaBar.Length == DMA_WORDS
      && (forall w :: 0 <= w < N_REGISTERS ==> systemBar[w] == 0) && (forall w :: 0 <= w < DMA_WORDS ==> dmaBar[w] == 0)
  {
    hide Held, Live, Disciplined;
    systemBar, dmaBar := new Word[0], new Word[0];
    var ok := k.Acquire(Part(i, SystemBarMem));
    if !ok { return AllocateSystemBar, systemBar, dmaBar; }
    systemBar := new Word[N_REGISTERS](_ => 0);
    ok := k.Acquire(Part(i, DmaBarMem));
    if !ok { return AllocateDmaBar, systemBar, dmaBar; }
    dmaBar := new Word[DMA_WORDS](_ => 0);
    failure := NoFailure;
  }

  /** cdev_add and device_create, for a device that is complete. */
  method Publish(k: Kernel, d: Device) returns (failure: Failure)
    requires d.Valid() && StateOf(d) == Unused()
    requires Disciplined(k.log) && DeviceClass in k.Holding()
    requires forall kind: Kind :: Part(d.slotNr, kind) in k.Holding() <==> kind.Rank() < 3
    modifies k
    ensures failure == NoFailure || failure == CdevAdd || failure == DeviceCreate
    ensures Disciplined(k.log) && k.Holding() == old(k.Holding()) + FirstParts(d.slotNr, failure.Parts())
    ensures Live(k.log) == if failure == CdevAdd then old(Live(k.log)) else old(Live(k.log))[d.slotNr := d]
    ensures failure == NoFailure <==> k.grants(Part(d.slotNr, Cdev)) && k.grants(Part(d.slotNr, Node))
  {
    hide Held, Live, Disciplined, Unused, StateOf;
    var ok := k.AddCdev(d);
    if !ok { return CdevAdd; }
    ok := k.Acquire(Part(d.slotNr, Node));
    if !ok { return DeviceCreate; }
    return NoFailure;
  }

  method SetUpDevice(k: Kernel, i: nat) returns (failure: Failure, d: Device?)
    requires Disciplined(k.log) && DeviceClass in k.Holding()
    requires forall kind: Kind :: Part(i, kind) !in k.Holding()
    modifies k
    ensures Disciplined(k.log) && k.Holding() == old(k.Holding()) + FirstParts(i, failure.Parts())
    ensures failure == NoFailure <==> forall kind: Kind :: kind != DevMutex ==> k.grants(Part(i, kind))
    ensures failure == NoFailure ==>
      && d != null && fresh(d) && d.Valid() && d.slotNr == i && StateOf(d) == Unused()
      && fresh(d.systemBar) && fresh(d.dmaBar) && fresh(d.devMutex)
      && Live(k.log) == old(Live(k.log))[i := d]
  {
    hide Held, Live, Disciplined, Unused, StateOf;
    d := null;
    var systemBar, dmaBar;
    failure, systemBar, dmaBar := AllocateBars(k, i);
    if failure != NoFailure { return; }
    d := BuildDevice(k, i, systemBar, dmaBar);
    failure := Publish(k, d);
  }

  /** The labels err_device_create to err_allocate_systemBar: undo the parts of device i. */
  method UndoDevice(k: Kernel, i: nat, failure: Failure)
    requires failure != NoFailure && Disciplined(k.log) && Stock(k.Holding(), 0, i, failure.Parts())
    modifies k
    ensures Disciplined(k.log) && Stock(k.Holding(), 0, i, 0)
  {
    hide Held, Live, Disciplined;
    if failure == DeviceCreate {
      k.Release(Part(i, Cdev));
    }
    if failure == DeviceCreate || failure == CdevAdd {
      k.Release(Part(i, DevMutex));
      k.Release(Part(i, DmaBarMem));
    }
    if failure != AllocateSystemBar {
      k.Release(Part(i, SystemBarMem));
    }
  }

  /** The loop that takes down complete devices 0..n, and then the class and the region. */
  method TakeDown(k: Kernel, n: nat)
    requires Disciplined(k.log) && Stock(k.Holding(), 0, n, 0)
    modifies k
    ensures Disciplined(k.log) && k.Holding() == {}
  {
    hide Held, Live, Disciplined;
    for j := 0 to n
      invariant Disciplined(k.log) && Stock(k.Holding(), j, n, 0)
    {
      TakeDownDevice(k, j, n);
    }
    k.Release(DeviceClass);
    k.Release(Region);
  }

  method TakeDownDevice(k: Kernel, j: nat, n: nat)
    requires j < n && Disciplined(k.log) && Stock(k.Holding(), j, n, 0)
    modifies k
    ensures Disciplined(k.log) && Stock(k.Holding(), j + 1, n, 0)
  {
    hide Held, Live, Disciplined;
    k.Release(Part(j, Node));
    k.Release(Part(j, Cdev));
    k.Release(Part(j, DevMutex));
    k.Release(Part(j, SystemBarMem));
    k.Release(Part(j, DmaBarMem));
    StockWithout(old(k.Holding()), k.Holding(), j, n);
  }

  lemma StockWithout(before: set<Resource>, after: set<Resource>, j: nat, n: nat)
    requires j < n && Stock(before, j, n, 0)
    requires after == before - {Part(j, Node)} - {Part(j, Cdev)} - {Part(j, DevMutex)} - {Part(j, SystemBarMem)}
                      - {Part(j, DmaBarMem)}
    ensures Stock(after, j + 1, n, 0)
  {
    forall r: Resource ensures r in after <==> !r.Part? || j + 1 <= r.device < n {
      if r.Part? && r.device == j {
        match r.kind
        case SystemBarMem =>
        case DmaBarMem =>
        case DevMutex =>
        case Cdev =>
        case Node =>
      }
    }
  }

  lemma FreshLog()
    ensures Held([]) == {} && Live([]) == map[] && Disciplined([])
  {
  }

  /** Exactly these devices can be opened, each under its index. */
  ghost predicate Exposes(live: map<nat, Device>, devices: seq<Device>) {
    forall i: nat :: if i < |devices| then i in live && live[i] == devices[i] else i !in live
  }

  lemma ExposesMore(live: map<nat, Device>, devices: seq<Device>, d: Device)
    requires Exposes(live, devices)
    ensures Exposes(live[|devices| := d], devices + [d])
  {
  }

  /** mtcaDummy_init_module for any number of devices. */
  method InitModule(k: Kernel, n: nat) returns (status: int, drv: Driver?)
    requires k.log == []
    modifies k
    ensures Disciplined(k.log)
    ensures status == 0 || status == -1
    ensures status == 0 <==> forall r: Resource :: Needed(r, n) ==> k.grants(r)
    ensures status == 0 ==> Everything(k.Holding(), n)
    ensures status == -1 ==> k.Holding() == {}
    ensures status == 0 ==>
      && drv != null && drv.Valid() && drv.Idle() && |drv.devices| == n && Exposes(Live(k.log), drv.devices)
      && forall d <- drv.devices :: d.Contents() == InitialBars() && d.inUse == 0
  {
    FreshLog();
    hide Held, Live, Disciplined, FirstParts, InitialBars, StateOf;
    drv := null;
    var ok := k.Acquire(Region);
    if !ok { return -1, null; }
    ok := k.Acquire(DeviceClass);
    if !ok {
      k.Release(Region);
      return -1, null;
    }
    var devices;
    ok, devices := SetUpDevices(k, n);
    if !ok { return -1, null; }
    drv := new Driver(devices);
    status := 0;
    UnusedDevices(devices);
  }

  lemma UnusedDevices(devices: seq<Device>)
    requires Separate(devices) && forall d <- devices :: StateOf(d) == Unused()
    ensures forall d <- devices :: d.Contents() == InitialBars() && d.inUse == 0 && !d.devMutex.held
  {
    hide InitialBars;
  }

  /** The loop over the devices, and the way out when one of them fails. */
  method SetUpDevices(k: Kernel, n: nat) returns (ok: bool, devices: seq<Device>)
    requires Disciplined(k.log) && Stock(k.Holding(), 0, 0, 0) && Exposes(Live(k.log), [])
    modifies k
    ensures Disciplined(k.log)
    ensures ok <==> forall r: Resource :: r.Part? && Needed(r, n) ==> k.grants(r)
    ensures !ok ==> k.Holding() == {}
    ensures ok ==> |devices| == n && Everything(k.Holding(), n) && Exposes(Live(k.log), devices)
    ensures ok ==> fresh(set d <- devices :: d) && Separate(devices)
    ensures ok ==> forall d <- devices :: StateOf(d) == Unused() && fresh(d.devMutex)
  {
    hide Held, Live, Disciplined, FirstParts, InitialBars, Unused, StateOf, Exposes;
    devices := [];
    var i := 0;
    while i < n
      invariant i <= n && |devices| == i
      invariant Disciplined(k.log) && Stock(k.Holding(), 0, i, 0) && Exposes(Live(k.log), devices)
      invariant forall r: Resource :: r.Part? && Needed(r, i) ==> k.grants(r)
      invariant fresh(set d <- devices :: d) && Separate(devices)
      invariant forall d <- devices :: fresh(d.systemBar) && fresh(d.dmaBar) && fresh(d.devMutex)
      invariant forall d <- devices :: StateOf(d) == Unused()
    {
      ghost var held, live := k.Holding(), Live(k.log);
      var failure, d := SetUpDevice(k, i);
      StockWith(held, i, failure.Parts());
      if failure != NoFailure {
        UndoDevice(k, i, failure);
        TakeDown(k, i);
        return false, [];
      }
      ExposesMore(live, devices, d);
      devices := devices + [d];
      i := i + 1;
    }
    ok := true;
  }

  /** mtcaDummy_cleanup_module */
  method CleanupModule(k: Kernel, n: nat)
    requires Disciplined(k.log) && Everything(k.Holding(), n)
    modifies k
    ensures Disciplined(k.log) && k.Holding() == {}
  {
    TakeDown(k, n);
  }
}
