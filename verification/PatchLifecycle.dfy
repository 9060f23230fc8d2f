/** The patch slots shared by the DSP thread, one worker thread and the threads that ask for
  * loads and stops. Every constructor of `Dsp`, `Worker` and `Client` names the next access to
  * shared state; one step performs that access, and steps interleave freely. The DSP thread is
  * itself one of the requesting threads, from within a patch's code and from the user interface. */
module PatchLifecycle {

  datatype Option<T> = None | Some(value: T)

  datatype Status = RUNNING | STOPPED | STOPPING | STARTFAILED

  type Slot = i: nat | i < 4

  /** Every allocation is a new instance, so a dangling pointer is never mistaken for a live one. */
  type Instance = nat

  datatype Patch = Patch(status: Status, instance: Option<Instance>)

  type Table = s: seq<Patch> | |s| == 4
    witness [Patch(STOPPED, None), Patch(STOPPED, None), Patch(STOPPED, None), Patch(STOPPED, None)]

  datatype Dsp =
    | Wait
    | Check(slot: Slot)
    | Fetch(slot: Slot)
    | Tick(slot: Slot, instance: Option<Instance>)
    | Recheck(slot: Slot)
    | Acknowledge(slot: Slot)
    | MidiGet
    | MidiCheck(slot: Slot)
    | MidiFetch(slot: Slot)
    | MidiHandler(slot: Slot, instance: Option<Instance>)
    | Poll

  datatype Worker =
    | NoWorker
    | LoadName
    | LoadScan(slot: Slot)
    | LoadRescan(slot: Slot)
    | LoadElf(slot: Slot)
    | LoadAlloc(slot: Slot)
    | LoadInit(slot: Slot)
    | LoadFree(slot: Slot)
    | LoadPublish(slot: Slot)
    | StopCheck(slot: Slot)
    | StopMark(slot: Slot)
    | StopPoll(slot: Slot)
    | StopDispose(slot: Slot)
    | StopFree(slot: Slot)
    | StopReset(slot: Slot)
    | StopClear(slot: Slot)
    | StopFinish(slot: Slot)
    | Exited

  datatype Job = Load | Stop(slot: Slot, sweep: bool)

  datatype Client =
    | Outside
    | Sweep(slot: Slot)
    | Lock(job: Job)
    | Create(job: Job)
    | Join(job: Job)
    | Unlock(job: Job)

  /** The requests of the DSP thread. */
  const DSP: nat := 0

  datatype State = State(
    slots: Table,
    dsp: Dsp,
    worker: Worker,
    mutex: Option<nat>,
    clients: map<nat, Client>,
    next: Instance,
    live: set<Instance>,
    disposed: seq<Instance>,
    freed: seq<Instance>)
  {
    function SetStatus(i: Slot, status: Status): State {
      this.(slots := slots[i := slots[i].(status := status)])
    }

    function SetObject(i: Slot, instance: Option<Instance>): State {
      this.(slots := slots[i := slots[i].(instance := instance)])
    }

    /** `ax_free`: freeing a null pointer does nothing. */
    function Free(instance: Option<Instance>): State {
      if instance.None? then this else this.(live := live - {instance.value}, freed := freed + [instance.value])
    }

    function Dispose(instance: Option<Instance>): State {
      if instance.None? then this else this.(disposed := disposed + [instance.value])
    }
  }

  /** The state `start_dsp_thread` leaves behind. */
  ghost predicate Init(s: State) {
    && (forall i: Slot :: s.slots[i].status == STOPPED)
    && s.dsp == Wait && s.worker == NoWorker && s.mutex == None
    && DSP in s.clients && (forall c :: c in s.clients ==> s.clients[c] == Outside)
    && s.next == 0 && s.live == {} && s.disposed == [] && s.freed == []
  }

  function AfterSlot(i: Slot): Dsp {
    if i < 3 then Check(i + 1) else MidiGet
  }

  function AfterMidiSlot(i: Slot): Dsp {
    if i < 3 then MidiCheck(i + 1) else MidiGet
  }

  /** Where the DSP thread runs code that may ask for a load or a stop: `tick`, `midiInHandler`
    * and the handlers of user interface events. */
  predicate MayRequest(d: Dsp) {
    d.Tick? || d.MidiHandler? || d.Poll?
  }

  /** The DSP thread goes on with its own code only outside of a request. */
  ghost predicate DspStep(s: State, t: State) {
    && DSP in s.clients && s.clients[DSP] == Outside
    && match s.dsp
       case Wait => t == s.(dsp := Check(0))
       case Check(i) => t == s.(dsp := if s.slots[i].status == RUNNING then Fetch(i) else Recheck(i))
       case Fetch(i) => t == s.(dsp := Tick(i, s.slots[i].instance))
       case Tick(i, _) => t == s.(dsp := AfterSlot(i))
       case Recheck(i) => t == s.(dsp := if s.slots[i].status == STOPPING then Acknowledge(i) else AfterSlot(i))
       case Acknowledge(i) => t == s.SetStatus(i, STOPPED).(dsp := AfterSlot(i))
       case MidiGet => t == s.(dsp := MidiCheck(0)) || t == s.(dsp := Poll)
       case MidiCheck(i) => t == s.(dsp := if s.slots[i].status == RUNNING then MidiFetch(i) else AfterMidiSlot(i))
       case MidiFetch(i) => t == s.(dsp := MidiHandler(i, s.slots[i].instance))
       case MidiHandler(i, _) => t == s.(dsp := AfterMidiSlot(i))
       case Poll => t == s.(dsp := Wait)
  }

  function NextScan(i: Slot): Worker {
    if i < 3 then LoadScan(i + 1) else Exited
  }

  /** The load worker: `LoadElf` also covers a patch without `getInstanceSize`, and `LoadInit`
    * a patch without `initInstance`; both fail the same way as the call after them. */
  ghost predicate LoadStep(s: State, t: State) {
    match s.worker
    case LoadName => t == s.(worker := LoadScan(0)) || t == s.(worker := Exited)
    case LoadScan(i) => t == s.(worker := if s.slots[i].status == STOPPED then LoadElf(i) else LoadRescan(i))
    case LoadRescan(i) => t == s.(worker := if s.slots[i].status == STARTFAILED then LoadElf(i) else NextScan(i))
    case LoadElf(i) => t == s.(worker := LoadAlloc(i)) || t == s.(worker := Exited)
    case LoadAlloc(i) =>
      || t == s.SetObject(i, None).(worker := Exited)
      || t == s.SetObject(i, Some(s.next)).(worker := LoadInit(i), next := s.next + 1, live := s.live + {s.next})
    case LoadInit(i) => t == s.(worker := LoadPublish(i)) || t == s.(worker := LoadFree(i))
    case LoadFree(i) => t == s.Free(s.slots[i].instance).(worker := Exited)
    case LoadPublish(i) => t == s.SetStatus(i, RUNNING).(worker := Exited)
    case _ => false
  }

  ghost predicate StopStep(s: State, t: State) {
    match s.worker
    case StopCheck(i) => t == s.(worker := if s.slots[i].status == RUNNING then StopMark(i) else Exited)
    case StopMark(i) => t == s.SetStatus(i, STOPPING).(worker := StopPoll(i))
    case StopPoll(i) => t == s.(worker := if s.slots[i].status == STOPPED then StopDispose(i) else StopPoll(i))
    case StopDispose(i) => t == s.Dispose(s.slots[i].instance).(worker := StopFree(i))
    case StopFree(i) => t == s.Free(s.slots[i].instance).(worker := StopReset(i))
    case StopReset(i) => t == s.SetStatus(i, STOPPED).(worker := StopClear(i))
    case StopClear(i) => t == s.SetObject(i, None).(worker := StopFinish(i))
    case StopFinish(i) => t == s.SetStatus(i, STOPPED).(worker := Exited)
    case _ => false
  }

  function NextSweep(i: Slot): Client {
    if i < 3 then Sweep(i + 1) else Outside
  }

  function AfterJob(job: Job): Client {
    if job.Stop? && job.sweep then NextSweep(job.slot) else Outside
  }

  function Start(job: Job): Worker {
    match job case Load => LoadName case Stop(i, _) => StopCheck(i)
  }

  /** `patch_load` and `patch_stop`; `Sweep` is the stop-all loop, which reads a status unlocked. */
  ghost predicate ClientStep(s: State, t: State, c: nat)
    requires c in s.clients
  {
    match s.clients[c]
    case Outside =>
      && (c == DSP ==> MayRequest(s.dsp))
      && (|| t == s.(clients := s.clients[c := Lock(Load)])
          || t == s.(clients := s.clients[c := Sweep(0)])
          || exists i: Slot :: t == s.(clients := s.clients[c := Lock(Stop(i, false))]))
    case Sweep(i) =>
      t == s.(clients := s.clients[c := if s.slots[i].status == RUNNING then Lock(Stop(i, true)) else NextSweep(i)])
    case Lock(job) => s.mutex == None && t == s.(mutex := Some(c), clients := s.clients[c := Create(job)])
    case Create(job) => t == s.(worker := Start(job), clients := s.clients[c := Join(job)])
    case Join(job) => s.worker == Exited && t == s.(worker := NoWorker, clients := s.clients[c := Unlock(job)])
    case Unlock(job) => t == s.(mutex := None, clients := s.clients[c := AfterJob(job)])
  }

  ghost predicate WorkerStep(s: State, t: State) {
    LoadStep(s, t) || StopStep(s, t)
  }

  ghost predicate Next(s: State, t: State) {
    || DspStep(s, t)
    || WorkerStep(s, t)
    || exists c :: c in s.clients && ClientStep(s, t, c)
  }

  ghost predicate IsRun(run: seq<State>) {
    && run != []
    && Init(run[0])
    && forall k :: 0 <= k < |run| - 1 ==> Next(run[k], run[k + 1])
  }

  // ---- The invariant ----

  predicate Active(s: State, i: Slot) {
    s.slots[i].status == RUNNING || s.slots[i].status == STOPPING
  }

  predicate Vacant(s: State, i: Slot) {
    s.slots[i].status == STOPPED || s.slots[i].status == STARTFAILED
  }

  /** The worker is between the allocation or the acknowledged stop and the free of slot `i`. */
  predicate WorkerOwns(w: Worker, i: Slot) {
    match w
    case LoadInit(j) => i == j
    case LoadFree(j) => i == j
    case LoadPublish(j) => i == j
    case StopPoll(j) => i == j
    case StopDispose(j) => i == j
    case StopFree(j) => i == j
    case _ => false
  }

  /** Slot `i` is responsible for the instance its pointer names. */
  predicate Owns(s: State, i: Slot) {
    Active(s, i) || WorkerOwns(s.worker, i)
  }

  /** The instance that slot `i` is responsible for. */
  function Holding(s: State, i: Slot): Option<Instance> {
    if Owns(s, i) then s.slots[i].instance else None
  }

  function Holdings(s: State): (r: seq<Option<Instance>>) {
    [Holding(s, 0), Holding(s, 1), Holding(s, 2), Holding(s, 3)]
  }

  /** The live instances are exactly the held ones, each held once. */
  ghost predicate HeldOnce(held: seq<Option<Instance>>, live: set<Instance>) {
    && (forall i :: 0 <= i < |held| && held[i].Some? ==> held[i].value in live)
    && (forall i, j :: 0 <= i < j < |held| && held[i].Some? ==> held[i] != held[j])
    && (forall o :: o in live ==> Some(o) in held)
  }

  ghost predicate Owned(s: State) {
    && (forall i: Slot :: Owns(s, i) ==> s.slots[i].instance.Some?)
    && HeldOnce(Holdings(s), s.live)
  }

  ghost predicate NoRepeats(log: seq<Instance>) {
    forall a, b :: 0 <= a < b < |log| ==> log[a] != log[b]
  }

  /** Every instance so far is live or freed, never both; each is disposed at most once, and then
    * freed next: `retiring` is the instance between its `dispose` and its free. */
  ghost predicate Ledger(live: set<Instance>, next: Instance, disposed: seq<Instance>, freed: seq<Instance>,
                         retiring: Option<Instance>)
  {
    && NoRepeats(freed) && NoRepeats(disposed)
    && (forall o :: o in live ==> o < next && o !in freed)
    && (forall o: Instance :: o < next ==> o in live || o in freed)
    && (forall o :: o in freed ==> o < next)
    && (forall o :: o in disposed ==> o in freed || retiring == Some(o))
    && (retiring.Some? ==> retiring.value in live && retiring.value in disposed)
  }

  function Retiring(s: State): Option<Instance> {
    if s.worker.StopFree? then s.slots[s.worker.slot].instance else None
  }

  ghost predicate Accounted(s: State) {
    Ledger(s.live, s.next, s.disposed, s.freed, Retiring(s))
  }

  ghost predicate DspSafe(s: State) {
    match s.dsp
    case Fetch(i) => Active(s, i)
    case Tick(i, o) => Active(s, i) && s.slots[i].instance == o
    case Acknowledge(i) => s.slots[i].status == STOPPING
    case MidiFetch(i) => Active(s, i)
    case MidiHandler(i, o) => Active(s, i) && s.slots[i].instance == o
    case _ => true
  }

  /** All slots before `j` are taken. */
  ghost predicate AllRunning(s: State, j: nat) {
    forall i: Slot :: i < j ==> s.slots[i].status == RUNNING
  }

  ghost predicate WorkerPlace(s: State) {
    && (forall i: Slot :: s.slots[i].status == STOPPING ==> s.worker == StopPoll(i))
    && match s.worker
       case LoadScan(j) => AllRunning(s, j)
       case LoadRescan(j) => AllRunning(s, j) && s.slots[j].status != STOPPED
       case LoadElf(i) => Vacant(s, i)
       case LoadAlloc(i) => Vacant(s, i)
       case LoadInit(i) => Vacant(s, i)
       case LoadFree(i) => Vacant(s, i)
       case LoadPublish(i) => Vacant(s, i)
       case StopMark(i) => s.slots[i].status == RUNNING
       case StopPoll(i) => (s.slots[i].status == STOPPING || s.slots[i].status == STOPPED)
       case StopDispose(i) => s.slots[i].status == STOPPED
       case StopFree(i) => s.slots[i].status == STOPPED
       case StopReset(i) => s.slots[i].status == STOPPED
       case StopClear(i) => s.slots[i].status == STOPPED
       case StopFinish(i) => s.slots[i] == Patch(STOPPED, None)
       case _ => true
  }

  predicate Inside(c: Client) {
    c.Create? || c.Join? || c.Unlock?
  }

  /** `mtxWorker` is held by the one client between lock and unlock; a worker lives only in its
    * join. The DSP thread is in a request only where its code may make one. */
  ghost predicate Serial(s: State) {
    && DSP in s.clients && (s.clients[DSP] != Outside ==> MayRequest(s.dsp))
    && (s.mutex.Some? ==> s.mutex.value in s.clients && Inside(s.clients[s.mutex.value]))
    && (forall c :: c in s.clients && Inside(s.clients[c]) ==> s.mutex == Some(c))
    && (forall c :: c in s.clients && s.clients[c].Join? ==> s.worker != NoWorker)
    && (s.worker != NoWorker ==> s.mutex.Some? && s.mutex.value in s.clients && s.clients[s.mutex.value].Join?)
  }

  ghost predicate Inv(s: State) {
    Owned(s) && Accounted(s) && DspSafe(s) && WorkerPlace(s) && Serial(s)
  }

  lemma InitInv(s: State)
    requires Init(s)
    ensures Inv(s)
  {
  }

  lemma HoldNew(held: seq<Option<Instance>>, live: set<Instance>, i: nat, o: Instance)
    requires HeldOnce(held, live) && i < |held| && held[i] == None && o !in live
    ensures HeldOnce(held[i := Some(o)], live + {o})
  {
    var after := held[i := Some(o)];
    assert after[i] == Some(o);
    forall x | x in live
      ensures Some(x) in after
    {
      var k :| 0 <= k < |held| && held[k] == Some(x);
      assert after[k] == Some(x);
    }
  }

  lemma HoldNone(held: seq<Option<Instance>>, live: set<Instance>, i: nat)
    requires HeldOnce(held, live) && i < |held| && held[i].Some?
    ensures HeldOnce(held[i := None], live - {held[i].value})
  {
    var after := held[i := None];
    forall x | x in live - {held[i].value}
      ensures Some(x) in after
    {
      var k :| 0 <= k < |held| && held[k] == Some(x);
      assert after[k] == Some(x);
    }
  }

  lemma HeldIsLive(s: State, i: Slot)
    requires Owned(s) && Owns(s, i)
    ensures s.slots[i].instance.Some? && s.slots[i].instance.value in s.live
  {
    assert Holdings(s)[i] == s.slots[i].instance;
  }

  lemma SameHoldings(s: State, t: State)
    requires Owned(s) && t.live == s.live
    requires forall i: Slot :: Owns(t, i) == Owns(s, i) && (Owns(s, i) ==> t.slots[i].instance == s.slots[i].instance)
    ensures Owned(t)
  {
    hide Owns, HeldOnce;
    assert Holdings(t) == Holdings(s);
  }

  /** Slot `i` takes over a fresh instance, or gives the one it holds up. */
  lemma NewHolding(s: State, t: State, i: Slot, o: Instance)
    requires Owned(s) && o !in s.live && t.live == s.live + {o}
    requires !Owns(s, i) && Owns(t, i) && t.slots[i].instance == Some(o)
    requires forall j: Slot :: j != i ==> Owns(t, j) == Owns(s, j) && t.slots[j].instance == s.slots[j].instance
    ensures Owned(t)
  {
    hide Owns, HeldOnce;
    assert Holdings(t) == Holdings(s)[i := Some(o)];
    HoldNew(Holdings(s), s.live, i, o);
  }

  lemma LostHolding(s: State, t: State, i: Slot)
    requires Owned(s) && Owns(s, i) && !Owns(t, i)
    requires t.live == s.live - {s.slots[i].instance.value}
    requires forall j: Slot :: j != i ==> Owns(t, j) == Owns(s, j) && t.slots[j].instance == s.slots[j].instance
    ensures Owned(t)
  {
    hide Owns, HeldOnce;
    assert Holdings(t) == Holdings(s)[i := None];
    HoldNone(Holdings(s), s.live, i);
  }

  lemma DspKeepsOwned(s: State, t: State)
    requires Owned(s) && DspSafe(s) && WorkerPlace(s) && DspStep(s, t)
    ensures Owned(t)
  {
    hide Owned;
    SameHoldings(s, t);
  }

  lemma SameLedger(s: State, t: State)
    requires Accounted(s) && Retiring(t) == Retiring(s)
    requires t.live == s.live && t.next == s.next && t.disposed == s.disposed && t.freed == s.freed
    ensures Accounted(t)
  {
  }

  lemma LedgerFree(live: set<Instance>, next: Instance, disposed: seq<Instance>, freed: seq<Instance>,
                   retiring: Option<Instance>, o: Instance)
    requires Ledger(live, next, disposed, freed, retiring)
    requires o in live && (retiring == None || retiring == Some(o))
    ensures Ledger(live - {o}, next, disposed, freed + [o], None)
  {
  }

  lemma LedgerDispose(live: set<Instance>, next: Instance, disposed: seq<Instance>, freed: seq<Instance>, o: Instance)
    requires Ledger(live, next, disposed, freed, None) && o in live
    ensures Ledger(live, next, disposed + [o], freed, Some(o))
  {
  }

  lemma DspKeepsAccounted(s: State, t: State)
    requires Accounted(s) && DspStep(s, t)
    ensures Accounted(t)
  {
    hide Accounted;
    SameLedger(s, t);
  }

  lemma DspKeepsSafe(s: State, t: State)
    requires DspSafe(s) && DspStep(s, t)
    ensures DspSafe(t)
  {
  }

  lemma DspKeepsPlace(s: State, t: State)
    requires WorkerPlace(s) && DspSafe(s) && DspStep(s, t)
    ensures WorkerPlace(t)
  {
  }

  lemma DspKeepsInv(s: State, t: State)
    requires Inv(s) && DspStep(s, t)
    ensures Inv(t)
  {
    hide Owned, Accounted, DspSafe, WorkerPlace;
    DspKeepsOwned(s, t);
    DspKeepsAccounted(s, t);
    DspKeepsSafe(s, t);
    DspKeepsPlace(s, t);
  }

  lemma AllocKeepsOwned(s: State, t: State)
    requires Owned(s) && Accounted(s) && WorkerPlace(s) && LoadStep(s, t) && s.worker.LoadAlloc? && t.worker.LoadInit?
    ensures Owned(t)
  {
    hide HeldOnce, NoRepeats;
    NewHolding(s, t, s.worker.slot, s.next);
  }

  lemma FreeKeepsOwned(s: State, t: State)
    requires Owned(s) && WorkerPlace(s) && LoadStep(s, t) && s.worker.LoadFree?
    ensures Owned(t)
  {
    hide HeldOnce;
    LostHolding(s, t, s.worker.slot);
  }

  lemma LoadKeepsOwned(s: State, t: State)
    requires Owned(s) && Accounted(s) && WorkerPlace(s) && LoadStep(s, t)
    ensures Owned(t)
  {
    hide Owned, Accounted, HeldOnce;
    if s.worker.LoadAlloc? && t.worker.LoadInit? {
      AllocKeepsOwned(s, t);
    } else if s.worker.LoadFree? {
      FreeKeepsOwned(s, t);
    } else {
      SameHoldings(s, t);
    }
  }

  lemma LoadKeepsAccounted(s: State, t: State)
    requires Owned(s) && Accounted(s) && LoadStep(s, t)
    ensures Accounted(t)
  {
    if s.worker.LoadAlloc? && t.worker.LoadInit? {
      hide HeldOnce, NoRepeats;
    } else if s.worker.LoadFree? {
      hide HeldOnce, Ledger;
      var o := s.slots[s.worker.slot].instance;
      HeldIsLive(s, s.worker.slot);
      LedgerFree(s.live, s.next, s.disposed, s.freed, Retiring(s), o.value);
    } else {
      hide HeldOnce, Ledger;
      SameLedger(s, t);
    }
  }

  lemma LoadKeepsSafe(s: State, t: State)
    requires DspSafe(s) && WorkerPlace(s) && LoadStep(s, t)
    ensures DspSafe(t)
  {
  }

  lemma LoadKeepsPlace(s: State, t: State)
    requires WorkerPlace(s) && LoadStep(s, t)
    ensures WorkerPlace(t)
  {
  }

  lemma LoadKeepsInv(s: State, t: State)
    requires Inv(s) && LoadStep(s, t)
    ensures Inv(t)
  {
    hide Owned, Accounted, DspSafe, WorkerPlace;
    LoadKeepsOwned(s, t);
    LoadKeepsAccounted(s, t);
    LoadKeepsSafe(s, t);
    LoadKeepsPlace(s, t);
  }

  lemma StopKeepsOwned(s: State, t: State)
    requires Owned(s) && WorkerPlace(s) && StopStep(s, t)
    ensures Owned(t)
  {
    if s.worker.StopFree? {
      hide HeldOnce;
      LostHolding(s, t, s.worker.slot);
    } else {
      hide HeldOnce;
      SameHoldings(s, t);
    }
  }

  lemma StopKeepsAccounted(s: State, t: State)
    requires Owned(s) && Accounted(s) && StopStep(s, t)
    ensures Accounted(t)
  {
    if s.worker.StopDispose? {
      hide HeldOnce, Ledger;
      HeldIsLive(s, s.worker.slot);
      LedgerDispose(s.live, s.next, s.disposed, s.freed, s.slots[s.worker.slot].instance.value);
    } else if s.worker.StopFree? {
      hide HeldOnce, Ledger;
      HeldIsLive(s, s.worker.slot);
      LedgerFree(s.live, s.next, s.disposed, s.freed, Retiring(s), s.slots[s.worker.slot].instance.value);
    } else {
      hide HeldOnce, Ledger;
      SameLedger(s, t);
    }
  }

  lemma StopKeepsSafe(s: State, t: State)
    requires DspSafe(s) && WorkerPlace(s) && StopStep(s, t)
    ensures DspSafe(t)
  {
  }

  lemma StopKeepsPlace(s: State, t: State)
    requires WorkerPlace(s) && StopStep(s, t)
    ensures WorkerPlace(t)
  {
  }

  lemma StopKeepsInv(s: State, t: State)
    requires Inv(s) && StopStep(s, t)
    ensures Inv(t)
  {
    hide Owned, Accounted, DspSafe, WorkerPlace;
    StopKeepsOwned(s, t);
    StopKeepsAccounted(s, t);
    StopKeepsSafe(s, t);
    StopKeepsPlace(s, t);
  }

  lemma ClientKeepsSerial(s: State, t: State, c: nat)
    requires Serial(s) && c in s.clients && ClientStep(s, t, c)
    ensures Serial(t)
  {
  }

  lemma ClientKeepsPlace(s: State, t: State, c: nat)
    requires Serial(s) && DspSafe(s) && WorkerPlace(s) && c in s.clients && ClientStep(s, t, c)
    ensures DspSafe(t) && WorkerPlace(t)
    ensures t.slots == s.slots && Retiring(t) == Retiring(s) && forall i: Slot :: Owns(t, i) == Owns(s, i)
  {
  }

  lemma ClientKeepsInv(s: State, t: State, c: nat)
    requires Inv(s) && c in s.clients && ClientStep(s, t, c)
    ensures Inv(t)
  {
    hide Accounted, Owned, DspSafe, WorkerPlace, Serial, Retiring, Owns;
    ClientKeepsSerial(s, t, c);
    ClientKeepsPlace(s, t, c);
    SameHoldings(s, t);
    SameLedger(s, t);
  }

  // ---- Every run ----

  lemma NextKeepsInv(s: State, t: State)
    requires Inv(s) && Next(s, t)
    ensures Inv(t)
  {
    hide Inv, LoadStep, StopStep, ClientStep;
    if DspStep(s, t) {
      hide DspStep;
      DspKeepsInv(s, t);
    } else if LoadStep(s, t) {
      hide DspStep;
      LoadKeepsInv(s, t);
    } else if StopStep(s, t) {
      hide DspStep;
      StopKeepsInv(s, t);
    } else {
      hide DspStep;
      var c :| c in s.clients && ClientStep(s, t, c);
      ClientKeepsInv(s, t, c);
    }
  }

  lemma {:induction false} RunKeepsInv(run: seq<State>, k: nat)
    requires IsRun(run) && k < |run|
    ensures Inv(run[k])
  {
    hide Inv, Init, Next;
    if k == 0 {
      InitInv(run[0]);
    } else {
      RunKeepsInv(run, k - 1);
      assert Next(run[k - 1], run[k - 1 + 1]);
      NextKeepsInv(run[k - 1], run[k]);
    }
  }

  /** The DSP thread is inside, or committed to enter, an instance of slot `i`. */
  predicate DspUses(s: State, i: Slot) {
    match s.dsp
    case Fetch(j) => i == j
    case Tick(j, _) => i == j
    case MidiFetch(j) => i == j
    case MidiHandler(j, _) => i == j
    case _ => false
  }

  predicate DspInside(s: State, o: Option<Instance>) {
    (s.dsp.Tick? || s.dsp.MidiHandler?) && s.dsp.instance == o
  }

  /** `tick` and `midiInHandler` only ever run on an instance that is allocated, and whose
    * `dispose` has not been called. */
  lemma DspInsideLive(run: seq<State>, k: nat, o: Option<Instance>)
    requires IsRun(run) && k < |run| && DspInside(run[k], o)
    ensures o.Some? && o.value in run[k].live && o.value !in run[k].freed && o.value !in run[k].disposed
  {
    hide IsRun;
    RunKeepsInv(run, k);
    ActiveIsLive(run[k], run[k].dsp.slot);
  }

  lemma ActiveIsLive(s: State, i: Slot)
    requires Inv(s) && Active(s, i)
    ensures var o := s.slots[i].instance; o.Some? && o.value in s.live && o.value !in s.freed && o.value !in s.disposed
  {
    HeldIsLive(s, i);
    if s.worker.StopFree? {
      assert Holdings(s)[i] != Holdings(s)[s.worker.slot];
    }
  }

  predicate PastWait(w: Worker, i: Slot) {
    match w
    case StopDispose(j) => i == j
    case StopFree(j) => i == j
    case StopReset(j) => i == j
    case StopClear(j) => i == j
    case StopFinish(j) => i == j
    case _ => false
  }

  predicate Loading(w: Worker, i: Slot) {
    match w
    case LoadElf(j) => i == j
    case LoadAlloc(j) => i == j
    case LoadInit(j) => i == j
    case LoadFree(j) => i == j
    case LoadPublish(j) => i == j
    case _ => false
  }

  /** Once a stop worker is past its wait, or while a load fills a slot, the DSP thread holds
    * neither a pending RUNNING check nor a pending acknowledgement of that slot. */
  lemma DspHasLeft(run: seq<State>, k: nat, i: Slot)
    requires IsRun(run) && k < |run|
    requires PastWait(run[k].worker, i) || Loading(run[k].worker, i)
    ensures !DspUses(run[k], i) && run[k].dsp != Acknowledge(i)
  {
    hide IsRun;
    RunKeepsInv(run, k);
  }

  /** A load never fills a slot that runs or whose stop is still in progress. */
  lemma LoadTakesVacantSlot(run: seq<State>, k: nat, i: Slot)
    requires IsRun(run) && k < |run| && Loading(run[k].worker, i)
    ensures Vacant(run[k], i) && forall j: Slot :: run[k].slots[j].status != STOPPING
  {
    hide IsRun;
    RunKeepsInv(run, k);
  }

  /** The one static worker area is never reused while a worker lives, and requests are served
    * one at a time. */
  lemma OneWorker(run: seq<State>, k: nat, c: nat)
    requires IsRun(run) && k < |run|
    requires c in run[k].clients && run[k].clients[c].Create?
    ensures run[k].worker == NoWorker
    ensures forall d :: d in run[k].clients && d != c ==> !Inside(run[k].clients[d])
  {
    hide IsRun;
    RunKeepsInv(run, k);
  }

  ghost function RunningInstances(s: State): set<Option<Instance>> {
    set i: Slot | s.slots[i].status == RUNNING :: s.slots[i].instance
  }

  /** With no worker active nothing is STOPPING, the allocated instances are those of the RUNNING
    * slots, one each, and every other instance so far has been freed exactly once. */
  lemma IdleAccounts(run: seq<State>, k: nat)
    requires IsRun(run) && k < |run| && run[k].worker == NoWorker
    ensures forall i: Slot :: run[k].slots[i].status != STOPPING
    ensures forall i: Slot, j: Slot :: i != j && run[k].slots[i].status == RUNNING && run[k].slots[j].status == RUNNING
              ==> run[k].slots[i].instance != run[k].slots[j].instance
    ensures RunningInstances(run[k]) == set o | o in run[k].live :: Some(o)
    ensures forall o: Instance :: o < run[k].next ==> multiset(run[k].freed)[o] == if o in run[k].live then 0 else 1
    ensures forall o :: o in run[k].disposed ==> o in run[k].freed
  {
    hide IsRun;
    RunKeepsInv(run, k);
    IdleHoldings(run[k]);
    forall o: Instance | o < run[k].next
      ensures multiset(run[k].freed)[o] == if o in run[k].live then 0 else 1
    {
      CountOnce(run[k].freed, o);
    }
  }

  lemma IdleHoldings(s: State)
    requires Inv(s) && s.worker == NoWorker
    ensures forall i: Slot, j: Slot :: i != j && s.slots[i].status == RUNNING && s.slots[j].status == RUNNING
              ==> s.slots[i].instance != s.slots[j].instance
    ensures RunningInstances(s) == set o | o in s.live :: Some(o)
  {
    forall i: Slot, j: Slot | i != j && s.slots[i].status == RUNNING && s.slots[j].status == RUNNING
      ensures s.slots[i].instance != s.slots[j].instance
    {
      assert Holdings(s)[i] != Holdings(s)[j];
    }
    forall i: Slot | s.slots[i].status == RUNNING
      ensures s.slots[i].instance.Some? && s.slots[i].instance.value in s.live
    {
      HeldIsLive(s, i);
    }
    forall o | o in s.live
      ensures Some(o) in RunningInstances(s)
    {
      var i: Slot :| Holdings(s)[i] == Some(o);
      assert s.slots[i].status == RUNNING;
    }
  }

  lemma {:induction false} CountOnce(log: seq<Instance>, o: Instance)
    requires NoRepeats(log)
    ensures multiset(log)[o] == if o in log then 1 else 0
  {
    if log == [] {
    } else {
      assert log == [log[0]] + log[1..];
      CountOnce(log[1..], o);
    }
  }

  predicate PublishedAt(s: State, i: Slot, o: Instance) {
    s.slots[i].instance == Some(o) && (Active(s, i) || s.worker == StopPoll(i) || s.worker == StopDispose(i))
  }

  /** An instance that ran stays in its slot until it is disposed. */
  predicate StillPublished(s: State, o: Instance) {
    o in s.disposed || exists i: Slot :: PublishedAt(s, i, o)
  }

  lemma WorkerKeepsDisposed(s: State, t: State)
    requires WorkerStep(s, t)
    ensures s.disposed <= t.disposed
  {
  }

  lemma OthersKeepDisposed(s: State, t: State)
    requires DspStep(s, t) || exists c :: c in s.clients && ClientStep(s, t, c)
    ensures t.disposed == s.disposed
  {
  }

  lemma DisposedStays(s: State, t: State, o: Instance)
    requires Next(s, t) && o in s.disposed
    ensures o in t.disposed
  {
    hide DspStep, WorkerStep, ClientStep;
    if WorkerStep(s, t) {
      WorkerKeepsDisposed(s, t);
    } else {
      OthersKeepDisposed(s, t);
    }
  }

  lemma DspKeepsPublished(s: State, t: State, i: Slot, o: Instance)
    requires DspSafe(s) && WorkerPlace(s) && DspStep(s, t) && PublishedAt(s, i, o)
    ensures PublishedAt(t, i, o)
  {
  }

  lemma WorkerKeepsPublished(s: State, t: State, i: Slot, o: Instance)
    requires WorkerPlace(s) && WorkerStep(s, t) && PublishedAt(s, i, o)
    ensures PublishedAt(t, i, o) || (s.worker == StopDispose(i) && t.disposed == s.disposed + [o])
  {
  }

  lemma PublishedStays(s: State, t: State, i: Slot, o: Instance)
    requires DspSafe(s) && WorkerPlace(s) && Serial(s) && Next(s, t) && PublishedAt(s, i, o)
    ensures PublishedAt(t, i, o) || (s.worker == StopDispose(i) && t.disposed == s.disposed + [o])
  {
    hide Serial, WorkerPlace, DspSafe, DspStep, WorkerStep, ClientStep;
    if DspStep(s, t) {
      DspKeepsPublished(s, t, i, o);
    } else if WorkerStep(s, t) {
      WorkerKeepsPublished(s, t, i, o);
    } else {
      var c :| c in s.clients && ClientStep(s, t, c);
      ClientLeavesBusyWorker(s, t, c);
    }
  }

  lemma ClientLeavesBusyWorker(s: State, t: State, c: nat)
    requires Serial(s) && c in s.clients && ClientStep(s, t, c)
    ensures t.slots == s.slots && (s.worker == NoWorker || s.worker == Exited || t.worker == s.worker)
  {
  }

  lemma NextKeepsPublished(s: State, t: State, o: Instance)
    requires Inv(s) && Next(s, t) && StillPublished(s, o)
    ensures StillPublished(t, o)
  {
    if o in s.disposed {
      DisposedStays(s, t, o);
    } else {
      hide Owned, Accounted, Serial, Next, DspSafe, WorkerPlace;
      var i: Slot :| PublishedAt(s, i, o);
      PublishedStays(s, t, i, o);
    }
  }

  /** An instance that ever ran is disposed before it is freed. */
  lemma {:induction false} FreedAfterDispose(run: seq<State>, a: nat, b: nat, i: Slot, o: Instance)
    requires IsRun(run) && a <= b < |run|
    requires run[a].slots[i] == Patch(RUNNING, Some(o)) && o in run[b].freed
    ensures o in run[b].disposed
  {
    hide IsRun, Next;
    PublishedThrough(run, a, b, i, o);
    RunKeepsInv(run, b);
    if o !in run[b].disposed {
      var j: Slot :| run[b].slots[j].instance == Some(o) && Owns(run[b], j);
      HeldIsLive(run[b], j);
    }
  }

  lemma {:induction false} PublishedThrough(run: seq<State>, a: nat, b: nat, i: Slot, o: Instance)
    requires IsRun(run) && a <= b < |run|
    requires run[a].slots[i] == Patch(RUNNING, Some(o))
    ensures StillPublished(run[b], o)
  {
    hide Next, Init;
    if a == b {
      assert PublishedAt(run[b], i, o);
    } else {
      PublishedThrough(run, a, b - 1, i, o);
      RunKeepsInv(run, b - 1);
      assert Next(run[b - 1], run[b - 1 + 1]);
      NextKeepsPublished(run[b - 1], run[b], o);
    }
  }

  /** In its scan the DSP thread has not yet answered slot `i`. */
  predicate NotYetAt(d: Dsp, i: Slot) {
    match d
    case Check(j) => j <= i
    case Fetch(j) => j < i
    case Tick(j, _) => j < i
    case Recheck(j) => j <= i
    case Acknowledge(j) => j <= i
    case _ => false
  }

  lemma NextKeepsPending(s: State, t: State, i: Slot)
    requires Inv(s) && Next(s, t)
    requires s.slots[i].status == STOPPING && NotYetAt(s.dsp, i) && t.slots[i].status != STOPPED
    ensures t.slots[i].status == STOPPING && NotYetAt(t.dsp, i)
  {
    hide Owned, Accounted, Serial;
  }

  lemma {:induction false} PendingThrough(run: seq<State>, a: nat, b: nat, i: Slot)
    requires IsRun(run) && a <= b < |run|
    requires run[a].dsp == Check(0) && run[a].slots[i].status == STOPPING
    requires forall m :: a <= m <= b ==> run[m].slots[i].status != STOPPED
    ensures run[b].slots[i].status == STOPPING && NotYetAt(run[b].dsp, i)
  {
    hide Inv, Init, Next;
    if a == b {
    } else {
      PendingThrough(run, a, b - 1, i);
      RunKeepsInv(run, b - 1);
      assert Next(run[b - 1], run[b - 1 + 1]);
      NextKeepsPending(run[b - 1], run[b], i);
    }
  }

  /** One whole scan of the DSP thread acknowledges a pending stop. */
  lemma StopIsAcknowledged(run: seq<State>, a: nat, b: nat, i: Slot) returns (m: nat)
    requires IsRun(run) && a < b < |run|
    requires run[a].dsp == Check(0) && run[a].slots[i].status == STOPPING && run[b].dsp == MidiGet
    ensures a < m <= b && run[m].slots[i].status == STOPPED
  {
    hide IsRun;
    if forall n :: a <= n <= b ==> run[n].slots[i].status != STOPPED {
      PendingThrough(run, a, b, i);
      assert false;
    } else {
      m :| a <= m <= b && run[m].slots[i].status == STOPPED;
    }
  }

  // ---- Requests are served ----

  /** The worker does what the job says, on the slot it names. */
  predicate Serves(w: Worker, job: Job) {
    match job
    case Load =>
      || w.LoadName? || w.LoadScan? || w.LoadRescan? || w.LoadElf? || w.LoadAlloc? || w.LoadInit? || w.LoadFree?
      || w.LoadPublish?
    case Stop(i, _) =>
      w in {StopCheck(i), StopMark(i), StopPoll(i), StopDispose(i),
            StopFree(i), StopReset(i), StopClear(i), StopFinish(i)}
  }

  /** Nothing of the stop asked for is left to do. */
  predicate Done(s: State, job: Job) {
    job.Stop? ==> !Active(s, job.slot)
  }

  predicate ServedClient(s: State, c: Client) {
    match c
    case Join(job) => Serves(s.worker, job) || (s.worker == Exited && Done(s, job))
    case Unlock(job) => Done(s, job)
    case _ => true
  }

  ghost predicate Served(s: State) {
    forall c :: c in s.clients ==> ServedClient(s, s.clients[c])
  }

  lemma DspKeepsServed(s: State, t: State)
    requires DspSafe(s) && Served(s) && DspStep(s, t)
    ensures Served(t)
  {
  }

  lemma BusyMeansJoin(s: State, c: nat)
    requires Serial(s) && s.worker != NoWorker && c in s.clients
    ensures !s.clients[c].Unlock?
  {
  }

  lemma LoadKeepsClient(s: State, t: State, c: Client)
    requires WorkerPlace(s) && LoadStep(s, t) && ServedClient(s, c) && !c.Unlock?
    ensures ServedClient(t, c)
  {
  }

  lemma LoadKeepsServed(s: State, t: State)
    requires WorkerPlace(s) && Serial(s) && Served(s) && LoadStep(s, t)
    ensures Served(t)
  {
    hide WorkerPlace, Serial, ServedClient;
    assert t.clients == s.clients && s.worker != NoWorker;
    forall c | c in t.clients
      ensures ServedClient(t, t.clients[c])
    {
      BusyMeansJoin(s, c);
      LoadKeepsClient(s, t, s.clients[c]);
    }
  }

  lemma StopKeepsClient(s: State, t: State, c: Client)
    requires WorkerPlace(s) && StopStep(s, t) && ServedClient(s, c) && !c.Unlock?
    ensures ServedClient(t, c)
  {
  }

  lemma StopKeepsServed(s: State, t: State)
    requires WorkerPlace(s) && Serial(s) && Served(s) && StopStep(s, t)
    ensures Served(t)
  {
    hide WorkerPlace, Serial, ServedClient;
    assert t.clients == s.clients && s.worker != NoWorker;
    forall c | c in t.clients
      ensures ServedClient(t, t.clients[c])
    {
      BusyMeansJoin(s, c);
      StopKeepsClient(s, t, s.clients[c]);
    }
  }

  lemma ClientKeepsServed(s: State, t: State, c: nat)
    requires Serial(s) && Served(s) && c in s.clients && ClientStep(s, t, c)
    ensures Served(t)
  {
  }

  lemma NextKeepsServed(s: State, t: State)
    requires Inv(s) && Served(s) && Next(s, t)
    ensures Served(t)
  {
    hide Owned, Accounted, DspSafe, WorkerPlace, Serial, Served, DspStep, LoadStep, StopStep, ClientStep;
    if DspStep(s, t) {
      DspKeepsServed(s, t);
    } else if LoadStep(s, t) {
      LoadKeepsServed(s, t);
    } else if StopStep(s, t) {
      StopKeepsServed(s, t);
    } else {
      var c :| c in s.clients && ClientStep(s, t, c);
      ClientKeepsServed(s, t, c);
    }
  }

  lemma {:induction false} RunKeepsServed(run: seq<State>, k: nat)
    requires IsRun(run) && k < |run|
    ensures Served(run[k])
  {
    hide Inv, Next;
    if k == 0 {
    } else {
      RunKeepsServed(run, k - 1);
      RunKeepsInv(run, k - 1);
      assert Next(run[k - 1], run[k - 1 + 1]);
      NextKeepsServed(run[k - 1], run[k]);
    }
  }

  /** When a stop request is through, the slot it named neither runs nor is being stopped. */
  lemma StopIsServed(run: seq<State>, k: nat, c: nat, i: Slot, sweep: bool)
    requires IsRun(run) && k < |run| && c in run[k].clients && run[k].clients[c] == Unlock(Stop(i, sweep))
    ensures !Active(run[k], i)
  {
    hide IsRun;
    RunKeepsServed(run, k);
  }

  /** A worker only ever does what the request it was created for says. */
  lemma WorkerServesJob(run: seq<State>, k: nat, c: nat, job: Job)
    requires IsRun(run) && k < |run| && c in run[k].clients && run[k].clients[c] == Join(job)
    ensures Serves(run[k].worker, job) || run[k].worker == Exited
  {
    hide IsRun;
    RunKeepsServed(run, k);
  }

  /** A finished stop leaves its slot empty. */
  lemma StopClearsSlot(run: seq<State>, k: nat, i: Slot)
    requires IsRun(run) && k < |run| && run[k].worker == StopFinish(i)
    ensures run[k].slots[i] == Patch(STOPPED, None)
  {
    hide IsRun;
    RunKeepsInv(run, k);
  }

  /** A load gives up for want of a slot only when all four run. */
  lemma LoadTriesAllSlots(run: seq<State>, k: nat)
    requires IsRun(run) && k + 1 < |run|
    requires run[k].worker.LoadRescan? && run[k + 1].worker == Exited
    ensures forall i: Slot :: run[k].slots[i].status == RUNNING
  {
    hide Init, Owned, Accounted, DspSafe, Serial, DspStep, StopStep;
    RunKeepsInv(run, k);
    assert Next(run[k], run[k + 1]);
    RescanEnds(run[k], run[k + 1]);
  }

  lemma RescanEnds(s: State, t: State)
    requires Inv(s) && Next(s, t) && s.worker.LoadRescan? && t.worker == Exited
    ensures forall i: Slot :: s.slots[i].status == RUNNING
  {
    hide Owned, Accounted, DspSafe;
  }

  /** A load that finds no memory leaves the slot without an instance, not with a freed one. */
  lemma AllocationFails(run: seq<State>, k: nat, i: Slot)
    requires IsRun(run) && k + 1 < |run|
    requires run[k].worker == LoadAlloc(i) && run[k + 1].worker == Exited
    ensures Vacant(run[k + 1], i) && run[k + 1].slots[i].instance == None && run[k + 1].live == run[k].live
  {
    hide Init, Owned, Accounted, DspSafe, Serial, DspStep, StopStep;
    RunKeepsInv(run, k);
    assert Next(run[k], run[k + 1]);
    AllocationStep(run[k], run[k + 1], i);
  }

  lemma AllocationStep(s: State, t: State, i: Slot)
    requires Inv(s) && Next(s, t) && s.worker == LoadAlloc(i) && t.worker == Exited
    ensures Vacant(t, i) && t.slots[i].instance == None && t.live == s.live
  {
    hide Owned, Accounted, DspSafe;
  }

  // ---- Every running patch gets its turn ----

  /** In its audio scan the DSP thread has not yet run slot `i`. */
  predicate BeforeTick(d: Dsp, i: Slot) {
    match d
    case Check(j) => j <= i
    case Fetch(j) => j <= i
    case Tick(j, _) => j < i
    case Recheck(j) => j < i
    case Acknowledge(j) => j < i
    case _ => false
  }

  /** In its scan for one MIDI message it has not yet handed it to slot `i`. */
  predicate BeforeHandler(d: Dsp, i: Slot) {
    match d
    case MidiCheck(j) => j <= i
    case MidiFetch(j) => j <= i
    case MidiHandler(j, _) => j < i
    case _ => false
  }

  lemma NextTick(s: State, t: State, i: Slot)
    requires Next(s, t) && s.slots[i].status == RUNNING && BeforeTick(s.dsp, i)
    ensures BeforeTick(t.dsp, i) || (t.dsp.Tick? && t.dsp.slot == i)
  {
  }

  lemma NextHandler(s: State, t: State, i: Slot)
    requires Next(s, t) && s.slots[i].status == RUNNING && BeforeHandler(s.dsp, i)
    ensures BeforeHandler(t.dsp, i) || (t.dsp.MidiHandler? && t.dsp.slot == i)
  {
  }

  lemma {:induction false} TickReached(run: seq<State>, a: nat, b: nat, i: Slot) returns (m: nat)
    requires IsRun(run) && a < b < |run| && BeforeTick(run[a].dsp, i) && !BeforeTick(run[b].dsp, i)
    requires forall k :: a <= k <= b ==> run[k].slots[i].status == RUNNING
    ensures a < m <= b && run[m].dsp.Tick? && run[m].dsp.slot == i
    decreases b - a
  {
    hide Next, Init, BeforeTick;
    assert Next(run[a], run[a + 1]);
    NextTick(run[a], run[a + 1], i);
    if run[a + 1].dsp.Tick? && run[a + 1].dsp.slot == i {
      m := a + 1;
    } else {
      m := TickReached(run, a + 1, b, i);
    }
  }

  lemma {:induction false} HandlerReached(run: seq<State>, a: nat, b: nat, i: Slot) returns (m: nat)
    requires IsRun(run) && a < b < |run| && BeforeHandler(run[a].dsp, i) && !BeforeHandler(run[b].dsp, i)
    requires forall k :: a <= k <= b ==> run[k].slots[i].status == RUNNING
    ensures a < m <= b && run[m].dsp.MidiHandler? && run[m].dsp.slot == i
    decreases b - a
  {
    hide Next, Init, BeforeHandler;
    assert Next(run[a], run[a + 1]);
    NextHandler(run[a], run[a + 1], i);
    if run[a + 1].dsp.MidiHandler? && run[a + 1].dsp.slot == i {
      m := a + 1;
    } else {
      m := HandlerReached(run, a + 1, b, i);
    }
  }

  /** A patch that runs throughout one audio scan gets a `tick` in it. */
  lemma EveryPatchTicks(run: seq<State>, a: nat, b: nat, i: Slot) returns (m: nat)
    requires IsRun(run) && a < b < |run| && run[a].dsp == Check(0) && run[b].dsp == MidiGet
    requires forall k :: a <= k <= b ==> run[k].slots[i].status == RUNNING
    ensures a < m <= b && run[m].dsp.Tick? && run[m].dsp.slot == i
  {
    hide IsRun;
    m := TickReached(run, a, b, i);
  }

  /** A patch that runs throughout the scan for one MIDI message is handed that message. */
  lemma EveryPatchHears(run: seq<State>, a: nat, b: nat, i: Slot) returns (m: nat)
    requires IsRun(run) && a < b < |run| && run[a].dsp == MidiCheck(0) && run[b].dsp == MidiGet
    requires forall k :: a <= k <= b ==> run[k].slots[i].status == RUNNING
    ensures a < m <= b && run[m].dsp.MidiHandler? && run[m].dsp.slot == i
  {
    hide IsRun;
    m := HandlerReached(run, a, b, i);
  }

  // ---- A stop-all ends only after every slot was seen not running ----

  /** The slots before this one are dealt with. */
  function SweepPlace(c: Client): nat {
    match c
    case Sweep(j) => j
    case Lock(job) => JobPlace(job)
    case Create(job) => JobPlace(job)
    case Join(job) => JobPlace(job)
    case Unlock(job) => JobPlace(job)
    case Outside => 4
  }

  function JobPlace(job: Job): nat {
    if job.Stop? then job.slot else 4
  }

  predicate InSweep(c: Client) {
    match c
    case Sweep(_) => true
    case Lock(job) => job.Stop? && job.sweep
    case Create(job) => job.Stop? && job.sweep
    case Join(job) => job.Stop? && job.sweep
    case Unlock(job) => job.Stop? && job.sweep
    case Outside => false
  }

  predicate Advances(s: State, before: Client, after: Client) {
    var p := SweepPlace(before);
    && (InSweep(after) || after == Outside)
    && p < 4
    && (SweepPlace(after) == p || (SweepPlace(after) == p + 1 && s.slots[p].status != RUNNING))
  }

  lemma OwnSweepStep(s: State, t: State, c: nat)
    requires Served(s) && c in s.clients && ClientStep(s, t, c) && InSweep(s.clients[c])
    ensures c in t.clients && Advances(s, s.clients[c], t.clients[c])
  {
    assert ServedClient(s, s.clients[c]);
  }

  lemma OthersKeepClient(s: State, t: State, c: nat)
    requires c in s.clients && (DspStep(s, t) || WorkerStep(s, t))
    ensures t.clients == s.clients
  {
  }

  lemma OtherClientStep(s: State, t: State, c: nat, d: nat)
    requires c in s.clients && d in s.clients && d != c && ClientStep(s, t, d)
    ensures c in t.clients && t.clients[c] == s.clients[c]
  {
  }

  lemma StaysPut(s: State, c: Client)
    requires InSweep(c)
    ensures Advances(s, c, c)
  {
  }

  lemma SweepAdvances(s: State, t: State, c: nat)
    requires Served(s) && Next(s, t) && c in s.clients && InSweep(s.clients[c])
    ensures c in t.clients && Advances(s, s.clients[c], t.clients[c])
  {
    hide Served, DspStep, WorkerStep, ClientStep, Advances, InSweep;
    StaysPut(s, s.clients[c]);
    if DspStep(s, t) || WorkerStep(s, t) {
      OthersKeepClient(s, t, c);
    } else {
      var d :| d in s.clients && ClientStep(s, t, d);
      if d == c {
        OwnSweepStep(s, t, c);
      } else {
        OtherClientStep(s, t, c, d);
      }
    }
  }

  lemma {:induction false} SweepThrough(run: seq<State>, a: nat, b: nat, c: nat, i: Slot) returns (m: nat)
    requires IsRun(run) && a <= b < |run| && c in run[a].clients && run[a].clients[c] == Sweep(0)
    requires forall k :: a <= k < b ==> c in run[k].clients && run[k].clients[c] != Outside
    ensures c in run[b].clients && (InSweep(run[b].clients[c]) || run[b].clients[c] == Outside)
    ensures SweepPlace(run[b].clients[c]) <= i || (a <= m <= b && run[m].slots[i].status != RUNNING)
  {
    hide Init, Next, Served, InSweep, SweepPlace;
    if a == b {
      StartsSweep();
      m := a;
    } else {
      m := SweepThrough(run, a, b - 1, c, i);
      RunKeepsServed(run, b - 1);
      assert Next(run[b - 1], run[b - 1 + 1]);
      SweepAdvances(run[b - 1], run[b], c);
      if SweepPlace(run[b - 1].clients[c]) == i && SweepPlace(run[b].clients[c]) != i {
        m := b - 1;
      }
    }
  }

  lemma StartsSweep()
    ensures InSweep(Sweep(0)) && SweepPlace(Sweep(0)) == 0 && SweepPlace(Outside) == 4
  {
  }

  /** When a stop-all returns, every slot has been seen not running since it began. */
  lemma StopAllStopsAll(run: seq<State>, a: nat, b: nat, c: nat, i: Slot) returns (m: nat)
    requires IsRun(run) && a < b < |run| && c in run[a].clients && run[a].clients[c] == Sweep(0)
    requires forall k :: a <= k < b ==> c in run[k].clients && run[k].clients[c] != Outside
    requires c in run[b].clients && run[b].clients[c] == Outside
    ensures a <= m <= b && run[m].slots[i].status != RUNNING
  {
    hide IsRun, InSweep, SweepPlace;
    StartsSweep();
    m := SweepThrough(run, a, b, c, i);
  }

  // ---- When a pending stop can still end ----
  // The wait of a stop worker ends only through a scan of the DSP thread. A request that the DSP
  // thread makes itself waits for the mutex or for a worker, and then nothing scans any more.

  /** The DSP thread waits in a request of its own, or is in a stop-all loop that has yet to come
    * to a RUNNING slot. */
  predicate DspStuck(s: State)
    requires DSP in s.clients
  {
    match s.clients[DSP]
    case Lock(_) => true
    case Join(_) => true
    case Sweep(j) => exists k: Slot :: j <= k && s.slots[k].status == RUNNING
    case _ => false
  }

  lemma StopHoldsMutex(s: State, i: Slot)
    requires Inv(s) && s.slots[i].status == STOPPING
    ensures s.worker == StopPoll(i) && s.mutex.Some? && DSP in s.clients
    ensures !s.clients[DSP].Create? && !s.clients[DSP].Unlock?
  {
    hide Owned, Accounted, DspSafe;
  }

  lemma StuckClients(s: State, t: State, c: nat, i: Slot)
    requires Inv(s) && c in s.clients && ClientStep(s, t, c)
    requires s.slots[i].status == STOPPING && DspStuck(s)
    ensures t.slots == s.slots && DSP in t.clients && DspStuck(t)
  {
    hide Owned, Accounted, DspSafe;
    StopHoldsMutex(s, i);
    if c == DSP && s.clients[DSP].Sweep? {
      var j := s.clients[DSP].slot;
      var k: Slot :| j <= k && s.slots[k].status == RUNNING;
      if s.slots[j].status != RUNNING {
        assert j < k && t.clients[DSP] == Sweep(j + 1);
      }
    }
  }

  lemma NextKeepsStuck(s: State, t: State, i: Slot)
    requires Inv(s) && Next(s, t) && s.slots[i].status == STOPPING
    requires DSP in s.clients && DspStuck(s)
    ensures t.slots == s.slots && DSP in t.clients && DspStuck(t)
  {
    hide Inv, ClientStep, LoadStep;
    StopHoldsMutex(s, i);
    if !DspStep(s, t) && !WorkerStep(s, t) {
      var c :| c in s.clients && ClientStep(s, t, c);
      StuckClients(s, t, c, i);
    } else {
      PollWaits(s, t, i);
    }
  }

  lemma PollWaits(s: State, t: State, i: Slot)
    requires s.worker == StopPoll(i) && s.slots[i].status == STOPPING
    requires DSP in s.clients && DspStuck(s) && (DspStep(s, t) || WorkerStep(s, t))
    ensures t == s
  {
  }

  /** From a stuck state no run ends the stop: the slot stays STOPPING, whatever anyone does. */
  lemma {:induction false} StopNeverEnds(run: seq<State>, a: nat, b: nat, i: Slot)
    requires IsRun(run) && a <= b < |run|
    requires run[a].slots[i].status == STOPPING && DSP in run[a].clients && DspStuck(run[a])
    ensures run[b].slots[i].status == STOPPING && DSP in run[b].clients && DspStuck(run[b])
  {
    hide Inv, Init, Next, DspStuck;
    if a == b {
    } else {
      StopNeverEnds(run, a, b - 1, i);
      RunKeepsInv(run, b - 1);
      assert Next(run[b - 1], run[b - 1 + 1]);
      NextKeepsStuck(run[b - 1], run[b], i);
    }
  }

  /** One step of the DSP thread that asks for nothing and takes no more MIDI messages. */
  function GoOn(s: State): State {
    match s.dsp
    case Wait => s.(dsp := Check(0))
    case Check(i) => s.(dsp := if s.slots[i].status == RUNNING then Fetch(i) else Recheck(i))
    case Fetch(i) => s.(dsp := Tick(i, s.slots[i].instance))
    case Tick(i, _) => s.(dsp := AfterSlot(i))
    case Recheck(i) => s.(dsp := if s.slots[i].status == STOPPING then Acknowledge(i) else AfterSlot(i))
    case Acknowledge(i) => s.SetStatus(i, STOPPED).(dsp := AfterSlot(i))
    case MidiGet => s.(dsp := Poll)
    case MidiCheck(i) => s.(dsp := if s.slots[i].status == RUNNING then MidiFetch(i) else AfterMidiSlot(i))
    case MidiFetch(i) => s.(dsp := MidiHandler(i, s.slots[i].instance))
    case MidiHandler(i, _) => s.(dsp := AfterMidiSlot(i))
    case Poll => s.(dsp := Wait)
  }

  /** The place of the DSP thread in its round; `GoOn` only moves forward. */
  function Place(d: Dsp): nat {
    match d
    case Check(i) => 3 * i
    case Fetch(i) => 3 * i + 1
    case Recheck(i) => 3 * i + 1
    case Tick(i, _) => 3 * i + 2
    case Acknowledge(i) => 3 * i + 2
    case MidiCheck(i) => 12 + 3 * i
    case MidiFetch(i) => 13 + 3 * i
    case MidiHandler(i, _) => 14 + 3 * i
    case MidiGet => 24
    case Poll => 25
    case Wait => 26
  }

  /** How far the DSP thread is from acknowledging slot `i`. */
  function Distance(d: Dsp, i: Slot): nat {
    if NotYetAt(d, i) then 12 - Place(d) else 40 - Place(d)
  }

  ghost predicate IsPath(path: seq<State>) {
    path != [] && forall k :: 0 <= k < |path| - 1 ==> Next(path[k], path[k + 1])
  }

  lemma GoOnIsStep(s: State, i: Slot)
    requires Inv(s) && s.slots[i].status == STOPPING && s.clients[DSP] == Outside
    ensures DspStep(s, GoOn(s)) && GoOn(s).clients == s.clients
    ensures GoOn(s).slots[i].status == STOPPED
         || (GoOn(s).slots[i].status == STOPPING && Distance(GoOn(s).dsp, i) < Distance(s.dsp, i))
  {
    hide Owned, Accounted, Serial;
    StopHoldsMutex(s, i);
  }

  lemma PathFrom(s: State, path: seq<State>)
    requires IsPath(path) && Next(s, path[0])
    ensures IsPath([s] + path)
  {
    hide Next;
    var all := [s] + path;
    forall k | 0 <= k < |all| - 1
      ensures Next(all[k], all[k + 1])
    {
      if k == 0 {
        assert all[1] == path[0];
      } else {
        assert all[k] == path[k - 1] && all[k + 1] == path[k - 1 + 1];
      }
    }
  }

  /** A DSP thread outside of requests can acknowledge by itself. */
  lemma {:induction false} DspAlone(s: State, i: Slot) returns (path: seq<State>)
    requires Inv(s) && s.slots[i].status == STOPPING && s.clients[DSP] == Outside
    ensures IsPath(path) && |path| > 1 && path[0] == s && path[|path| - 1].slots[i].status == STOPPED
    decreases Distance(s.dsp, i)
  {
    hide Inv, Next, DspStep, GoOn, Distance;
    var t := GoOn(s);
    GoOnIsStep(s, i);
    OneOfThree(s, t);
    if t.slots[i].status == STOPPED {
      path := [t];
    } else {
      NextKeepsInv(s, t);
      path := DspAlone(t, i);
    }
    PathFrom(s, path);
    path := [s] + path;
  }

  lemma OneOfThree(s: State, t: State)
    requires DspStep(s, t)
    ensures Next(s, t)
  {
    hide DspStep;
  }

  lemma SweepOn(s: State, j: Slot) returns (t: State)
    requires Inv(s) && s.clients[DSP] == Sweep(j) && s.slots[j].status != RUNNING
    ensures Next(s, t) && t == s.(clients := s.clients[DSP := NextSweep(j)])
  {
    hide Owned, Accounted, DspSafe, WorkerPlace, DspStep, WorkerStep;
    t := s.(clients := s.clients[DSP := NextSweep(j)]);
    assert ClientStep(s, t, DSP);
  }

  /** So can one in a stop-all loop that finds no more RUNNING slot. */
  lemma {:induction false} SweepThenAlone(s: State, i: Slot) returns (path: seq<State>)
    requires Inv(s) && s.slots[i].status == STOPPING && !DspStuck(s)
    ensures IsPath(path) && |path| > 1 && path[0] == s && path[|path| - 1].slots[i].status == STOPPED
    decreases if s.clients[DSP].Sweep? then 4 - s.clients[DSP].slot else 0
  {
    hide Inv, Next;
    StopHoldsMutex(s, i);
    if s.clients[DSP] == Outside {
      path := DspAlone(s, i);
    } else {
      var j := s.clients[DSP].slot;
      assert s.slots[j].status != RUNNING;
      var t := SweepOn(s, j);
      NextKeepsInv(s, t);
      path := SweepThenAlone(t, i);
      PathFrom(s, path);
      path := [s] + path;
    }
  }

  lemma Extended(run: seq<State>, path: seq<State>)
    requires IsRun(run) && IsPath(path) && path[0] == run[|run| - 1]
    ensures IsRun(run + path[1..])
  {
    hide Next, Init;
    var all := run + path[1..];
    forall k | 0 <= k < |all| - 1
      ensures Next(all[k], all[k + 1])
    {
      var m := k - |run| + 1;
      if m < 0 {
        assert all[k] == run[k] && all[k + 1] == run[k + 1];
      } else {
        assert all[k] == path[m] && all[k + 1] == path[m + 1];
      }
    }
  }

  /** A run that acknowledges the stop of slot `i` after `n` states. */
  ghost predicate Acknowledges(run: seq<State>, n: nat, i: Slot) {
    IsRun(run) && |run| > n && run[|run| - 1].slots[i].status == STOPPED
  }

  /** A pending stop can still be acknowledged if and only if the DSP thread is not stuck. */
  lemma StopCanEnd(run: seq<State>, i: Slot)
    requires IsRun(run) && run[|run| - 1].slots[i].status == STOPPING
    ensures DSP in run[|run| - 1].clients
    ensures (exists more: seq<State> :: Acknowledges(run + more, |run|, i)) <==> !DspStuck(run[|run| - 1])
  {
    hide Inv, Init, Next, IsPath, DspStuck;
    var n := |run|;
    RunKeepsInv(run, n - 1);
    StopHoldsMutex(run[n - 1], i);
    if DspStuck(run[n - 1]) {
      forall more: seq<State>
        ensures !Acknowledges(run + more, n, i)
      {
        var all := run + more;
        if Acknowledges(all, n, i) {
          assert all[n - 1] == run[n - 1];
          StopNeverEnds(all, n - 1, |all| - 1, i);
        }
      }
    } else {
      var path := SweepThenAlone(run[n - 1], i);
      Extended(run, path);
      assert Acknowledges(run + path[1..], n, i);
    }
  }

  // ---- Both ways to get stuck are runs of the firmware ----

  lemma Then(run: seq<State>, t: State)
    requires IsRun(run) && Next(run[|run| - 1], t)
    ensures IsRun(run + [t])
  {
    hide Next, Init;
    assert IsPath([run[|run| - 1], t]);
    Extended(run, [run[|run| - 1], t]);
    assert [run[|run| - 1], t][1..] == [t];
  }

  lemma ThenClient(run: seq<State>, c: nat, t: State) returns (run': seq<State>)
    requires IsRun(run) && c in run[|run| - 1].clients && ClientStep(run[|run| - 1], t, c)
    ensures IsRun(run') && run'[|run'| - 1] == t
  {
    hide IsRun, ClientStep, DspStep, WorkerStep;
    Then(run, t);
    run' := run + [t];
  }

  lemma ThenWorker(run: seq<State>, t: State) returns (run': seq<State>)
    requires IsRun(run) && WorkerStep(run[|run| - 1], t)
    ensures IsRun(run') && run'[|run'| - 1] == t
  {
    hide IsRun, ClientStep, DspStep, WorkerStep;
    Then(run, t);
    run' := run + [t];
  }

  lemma ThenDsp(run: seq<State>, t: State) returns (run': seq<State>)
    requires IsRun(run) && DspStep(run[|run| - 1], t)
    ensures IsRun(run') && run'[|run'| - 1] == t
  {
    hide IsRun, ClientStep, DspStep, WorkerStep;
    Then(run, t);
    run' := run + [t];
  }

  const EMPTY_SLOT := Patch(STOPPED, None)

  /** The DSP thread, and one more requesting thread. */
  const FRESH := State([EMPTY_SLOT, EMPTY_SLOT, EMPTY_SLOT, EMPTY_SLOT], Wait, NoWorker, None,
                       map[DSP := Outside, 1 := Outside], 0, {}, [], [])

  /** Instance 0 runs in slot 0, and the DSP thread is inside its `tick`. */
  const TICKING := State([Patch(RUNNING, Some(0)), EMPTY_SLOT, EMPTY_SLOT, EMPTY_SLOT], Tick(0, Some(0)),
                         NoWorker, None, map[DSP := Outside, 1 := Outside], 1, {0}, [], [])

  function Calls(s: State, c: nat, call: Client): State {
    s.(clients := s.clients[c := call])
  }

  lemma LoadedRun() returns (run: seq<State>)
    ensures IsRun(run) && run[|run| - 1] == TICKING
  {
    run := StartLoad();
    run := AllocLoad(run);
    run := FinishLoad(run);
    run := EnterTick(run);
  }

  const LOADING := Calls(FRESH, 1, Join(Load)).(mutex := Some(1), worker := LoadElf(0))

  const LOADED := TICKING.(dsp := Wait)

  lemma StartLoad() returns (run: seq<State>)
    ensures IsRun(run) && run[|run| - 1] == LOADING
  {
    hide IsRun, DspStep, StopStep;
    run := FreshRun();
    var s := Calls(FRESH, 1, Lock(Load));
    run := ThenClient(run, 1, s);
    s := Calls(s, 1, Create(Load)).(mutex := Some(1));
    run := ThenClient(run, 1, s);
    s := Calls(s, 1, Join(Load)).(worker := LoadName);
    run := ThenClient(run, 1, s);
    s := s.(worker := LoadScan(0));
    run := ThenWorker(run, s);
    s := s.(worker := LoadElf(0));
    run := ThenWorker(run, s);
    assert s.clients == LOADING.clients;
  }

  lemma FreshRun() returns (run: seq<State>)
    ensures IsRun(run) && run[|run| - 1] == FRESH
  {
    run := [FRESH];
  }

  const PUBLISHING := LOADING.SetObject(0, Some(0)).(worker := LoadPublish(0), next := 1, live := {0})

  lemma AllocLoad(before: seq<State>) returns (run: seq<State>)
    requires IsRun(before) && before[|before| - 1] == LOADING
    ensures IsRun(run) && run[|run| - 1] == PUBLISHING
  {
    hide IsRun, DspStep, StopStep, ClientStep;
    var s := LOADING.(worker := LoadAlloc(0));
    run := ThenWorker(before, s);
    s := s.SetObject(0, Some(0)).(worker := LoadInit(0), next := 1, live := s.live + {0});
    run := ThenWorker(run, s);
    s := s.(worker := LoadPublish(0));
    run := ThenWorker(run, s);
    assert s.live == PUBLISHING.live;
  }

  lemma FinishLoad(before: seq<State>) returns (run: seq<State>)
    requires IsRun(before) && before[|before| - 1] == PUBLISHING
    ensures IsRun(run) && run[|run| - 1] == LOADED
  {
    hide IsRun, DspStep, StopStep;
    var s := PUBLISHING.SetStatus(0, RUNNING).(worker := Exited);
    run := ThenWorker(before, s);
    s := Calls(s, 1, Unlock(Load)).(worker := NoWorker);
    run := ThenClient(run, 1, s);
    s := Calls(s, 1, Outside).(mutex := None);
    run := ThenClient(run, 1, s);
    assert s.clients == LOADED.clients && s.slots == LOADED.slots;
  }

  lemma EnterTick(before: seq<State>) returns (run: seq<State>)
    requires IsRun(before) && before[|before| - 1] == LOADED
    ensures IsRun(run) && run[|run| - 1] == TICKING
  {
    hide IsRun, LoadStep, StopStep, ClientStep;
    run := ThenDsp(before, LOADED.(dsp := Check(0)));
    run := ThenDsp(run, LOADED.(dsp := Fetch(0)));
    run := ThenDsp(run, TICKING);
  }

  /** A stop asked for by `c`, up to the worker's wait. */
  lemma StopAsked(before: seq<State>, c: nat) returns (run: seq<State>)
    requires IsRun(before) && before[|before| - 1] == TICKING && c in {DSP, 1}
    ensures IsRun(run)
    ensures run[|run| - 1]
         == Calls(TICKING, c, Join(Stop(0, false))).SetStatus(0, STOPPING).(mutex := Some(c), worker := StopPoll(0))
  {
    hide IsRun, DspStep, LoadStep;
    var job := Stop(0, false);
    var s := Calls(TICKING, c, Lock(job));
    run := ThenClient(before, c, s);
    s := Calls(s, c, Create(job)).(mutex := Some(c));
    run := ThenClient(run, c, s);
    s := Calls(s, c, Join(job)).(worker := StopCheck(0));
    run := ThenClient(run, c, s);
    s := s.(worker := StopMark(0));
    run := ThenWorker(run, s);
    s := s.SetStatus(0, STOPPING).(worker := StopPoll(0));
    run := ThenWorker(run, s);
    assert s.clients == TICKING.clients[c := Join(job)];
  }

  /** A patch that stops itself from `tick` never stops. */
  lemma OwnStopSticks() returns (run: seq<State>)
    ensures IsRun(run) && run[|run| - 1].slots[0].status == STOPPING
    ensures DSP in run[|run| - 1].clients && run[|run| - 1].clients[DSP].Join? && DspStuck(run[|run| - 1])
  {
    hide IsRun, Init;
    run := LoadedRun();
    run := StopAsked(run, DSP);
  }

  /** A load asked for from `tick` while another thread waits for a stop blocks both for good. */
  lemma LoadDuringStopSticks() returns (run: seq<State>)
    ensures IsRun(run) && run[|run| - 1].slots[0].status == STOPPING
    ensures DSP in run[|run| - 1].clients && run[|run| - 1].clients[DSP] == Lock(Load) && DspStuck(run[|run| - 1])
  {
    hide Init, Next;
    run := LoadedRun();
    run := StopAsked(run, 1);
    var s := run[|run| - 1];
    run := ThenClient(run, DSP, Calls(s, DSP, Lock(Load)));
  }

  // ---- Further runs ----

  const HEARING := LOADED.(dsp := MidiHandler(0, Some(0)))

  /** A MIDI message reaches a running patch. */
  lemma MidiIsHandled() returns (run: seq<State>)
    ensures IsRun(run) && run[|run| - 1] == HEARING
  {
    hide IsRun, Init, LoadStep, StopStep, ClientStep;
    run := LoadedRun();
    run := ThenDsp(run, LOADED.(dsp := Check(1)));
    run := PassSlot(run, 1);
    run := PassSlot(run, 2);
    run := PassSlot(run, 3);
    run := ThenDsp(run, LOADED.(dsp := MidiCheck(0)));
    run := ThenDsp(run, LOADED.(dsp := MidiFetch(0)));
    run := ThenDsp(run, HEARING);
  }

  lemma PassSlot(before: seq<State>, i: Slot) returns (run: seq<State>)
    requires IsRun(before) && i > 0 && before[|before| - 1] == LOADED.(dsp := Check(i))
    ensures IsRun(run) && run[|run| - 1] == LOADED.(dsp := AfterSlot(i))
  {
    hide IsRun, LoadStep, StopStep, ClientStep;
    assert LOADED.slots[i] == EMPTY_SLOT;
    run := ThenDsp(before, LOADED.(dsp := Recheck(i)));
    run := ThenDsp(run, LOADED.(dsp := AfterSlot(i)));
  }

  /** A load whose patch fails to initialise frees its instance and leaves its slot stopped. */
  lemma FailedLoad() returns (run: seq<State>)
    ensures IsRun(run) && run[|run| - 1].worker == Exited
    ensures var s := run[|run| - 1]; s.slots[0].status == STOPPED && s.live == {} && s.freed == [0] && s.disposed == []
  {
    hide IsRun, Init, DspStep, StopStep, ClientStep;
    run := StartLoad();
    var s := LOADING.(worker := LoadAlloc(0));
    run := ThenWorker(run, s);
    s := s.SetObject(0, Some(0)).(worker := LoadInit(0), next := 1, live := s.live + {0});
    run := ThenWorker(run, s);
    s := s.(worker := LoadFree(0));
    run := ThenWorker(run, s);
    s := s.Free(Some(0)).(worker := Exited);
    run := ThenWorker(run, s);
  }
}
