/**
 Starting, stopping and waiting for network instances
 (iconnectd/src/instance_manager.rs and `EasyTierLauncher`, iconnectd/src/launcher.rs).

 An instance thread, the watcher task of that instance, callers that delete instances, holders of daemon
 guards and one caller of `wait` run concurrently. Each atomic action of each of them is a step, and a
 run is any list of steps. Notifiers store at most one permit. Instance ids are never reused.
 */
module InstanceLifecycle {
  import opened Wrappers

  /** The instance thread: it clears the alive flag, then posts to its stop notifier. */
  datatype Thread = Running | Cleared | Ended

  /** The watcher task; `Absent` when none was started. */
  datatype Watcher = NotSpawned | Waiting | Woken | Recorded | Posted | Gone | Absent

  datatype Instance = Instance(
    thread: Thread,
    errored: bool,
    stopPermit: bool,
    inserted: bool,
    present: bool,
    watcher: Watcher)

  datatype Guard = Held | Released | Dropped

  /** The instances a delete or a retain call removes. */
  datatype Victims = These(ids: set<nat>) | AllBut(kept: set<nat>)

  /** It leaves the map once every instance it found there is gone, whoever removed it. */
  datatype Removal = FromMap(victims: Victims, pending: set<nat>) | FromErrors(victims: Victims)

  /** Why `wait` found something running. */
  datatype Witness = SawInstance(id: nat) | SawGuard(guard: nat)

  datatype Waiter =
    | Idle
    | Scanning(start: set<nat>, todo: set<nat>)
    | Scanned(start: set<nat>, seen: Option<nat>)
    | Blocked(cause: Witness)
    | Exited

  datatype State = State(
    instances: map<nat, Instance>,
    errors: set<nat>,
    removals: map<nat, Removal>,
    guards: map<nat, Guard>,
    permit: bool,
    waiter: Waiter)

  datatype Step =
    | Launch(id: nat, watch: bool)
    | Insert(id: nat)
    | Spawn(id: nat)
    | ThreadClear(id: nat, fails: bool)
    | ThreadNotify(id: nat)
    | WatcherWake(id: nat)
    | WatcherRecord(id: nat)
    | WatcherPost(id: nat)
    | WatcherLeave(id: nat)
    | BeginRemoval(op: nat, victims: Victims)
    | RemoveOne(op: nat, id: nat)
    | LeaveMap(op: nat)
    | CleanErrors(op: nat)
    | RegisterGuard(guard: nat)
    | ReleaseGuard(guard: nat)
    | NotifyDrop(guard: nat)
    | NotifyStopCheck
    | ScanStart
    | ScanOne(id: nat)
    | CheckGuards(pick: nat)
    | Wake

  const INIT := State(map[], {}, map[], map[], false, Idle)

  predicate Hits(v: Victims, id: nat) {
    match v
    case These(ids) => id in ids
    case AllBut(kept) => id !in kept
  }

  function PresentIds(s: State): set<nat> {
    set id | id in s.instances && s.instances[id].present
  }

  function Put(s: State, id: nat, i: Instance): State {
    s.(instances := s.instances[id := i])
  }

  predicate IsRunning(s: State, id: nat) {
    id in s.instances && s.instances[id].present && s.instances[id].thread == Running
  }

  // ---------------------------------------------------------------- steps

  /** Steps of `run_network_instance`, the instance thread and the watcher of one instance. */
  function OnInstance(s: State, id: nat, i: Instance, step: Step): State {
    match step
    case Insert(_) => if !i.inserted then Put(s, id, i.(inserted := true, present := true)) else s
    case Spawn(_) =>
      if i.watcher == NotSpawned && i.inserted then Put(s, id, i.(watcher := if i.present then Waiting else Absent)) else s
    case ThreadClear(_, fails) => if i.thread == Running then Put(s, id, i.(thread := Cleared, errored := fails)) else s
    case ThreadNotify(_) => if i.thread == Cleared then Put(s, id, i.(thread := Ended, stopPermit := true)) else s
    case WatcherWake(_) =>
      if i.watcher == Waiting && i.stopPermit then Put(s, id, i.(watcher := Woken, stopPermit := false)) else s
    case WatcherRecord(_) =>
      if i.watcher == Woken
      then Put(s, id, i.(watcher := Recorded)).(errors := if i.present && i.errored then s.errors + {id} else s.errors)
      else s
    case WatcherPost(_) => if i.watcher == Recorded then Put(s, id, i.(watcher := Posted)).(permit := true) else s
    case WatcherLeave(_) => if i.watcher == Posted then Put(s, id, i.(watcher := Gone)) else s
    case _ => s
  }

  /** Steps of `delete_network_instance` and `retain_network_instance`. Dropping an instance joins its thread. */
  function OnRemoval(s: State, op: nat, r: Removal, step: Step): State {
    match step
    case RemoveOne(_, id) =>
      if r.FromMap? && Hits(r.victims, id) && id in s.instances && s.instances[id].present && s.instances[id].thread == Ended
      then Put(s, id, s.instances[id].(present := false)).(removals := s.removals[op := r.(pending := r.pending - {id})])
      else s
    case LeaveMap(_) =>
      if r.FromMap? && r.pending !! PresentIds(s) then s.(removals := s.removals[op := FromErrors(r.victims)]) else s
    case CleanErrors(_) =>
      if r.FromErrors?
      then s.(removals := s.removals - {op}, errors := set e | e in s.errors && !Hits(r.victims, e))
      else s
    case _ => s
  }

  function OnGuard(s: State, guard: nat, step: Step): State {
    match step
    case RegisterGuard(_) => if guard !in s.guards then s.(guards := s.guards[guard := Held]) else s
    case ReleaseGuard(_) =>
      if guard in s.guards && s.guards[guard] == Held then s.(guards := s.guards[guard := Released]) else s
    case NotifyDrop(_) =>
      if guard in s.guards && s.guards[guard] == Released then s.(guards := s.guards[guard := Dropped], permit := true) else s
    case _ => s
  }

  predicate GuardHeld(s: State, guard: nat) {
    guard in s.guards && s.guards[guard] == Held
  }

  /** Steps of `wait`: scan the instances, read the guard count, and leave or block. */
  function OnWaiter(s: State, step: Step): State {
    match step
    case ScanStart => if s.waiter.Idle? then s.(waiter := Scanning(PresentIds(s), PresentIds(s))) else s
    case ScanOne(id) =>
      if !s.waiter.Scanning? then s
      else if IsRunning(s, id) then s.(waiter := Scanned(s.waiter.start, Some(id)))
      else if s.waiter.todo - {id} == {} then s.(waiter := Scanned(s.waiter.start, None))
      else s.(waiter := s.waiter.(todo := s.waiter.todo - {id}))
    case CheckGuards(pick) =>
      if !s.waiter.Scanned? then s
      else if GuardHeld(s, pick) then
        s.(waiter := Blocked(if s.waiter.seen.Some? then SawInstance(s.waiter.seen.value) else SawGuard(pick)))
      else if exists g :: g in s.guards && s.guards[g] == Held then s
      else if s.waiter.seen.Some? then s.(waiter := Blocked(SawInstance(s.waiter.seen.value)))
      else s.(waiter := Exited)
    case Wake => if s.waiter.Blocked? && s.permit then s.(waiter := Idle, permit := false) else s
    case _ => s
  }

  /** One step; a step that is not possible in the current state changes nothing. */
  function Next(s: State, step: Step): State {
    match step
    case Launch(id, watch) =>
      if id in s.instances then s
      else Put(s, id, Instance(Running, false, false, false, false, if watch then NotSpawned else Absent))
    case BeginRemoval(op, victims) =>
      if op in s.removals then s
      else s.(removals := s.removals[op := FromMap(victims, set id | id in PresentIds(s) && Hits(victims, id))])
    case RemoveOne(op, _) => if op in s.removals then OnRemoval(s, op, s.removals[op], step) else s
    case LeaveMap(op) => if op in s.removals then OnRemoval(s, op, s.removals[op], step) else s
    case CleanErrors(op) => if op in s.removals then OnRemoval(s, op, s.removals[op], step) else s
    case RegisterGuard(g) => OnGuard(s, g, step)
    case ReleaseGuard(g) => OnGuard(s, g, step)
    case NotifyDrop(g) => OnGuard(s, g, step)
    case NotifyStopCheck => s.(permit := true)
    case ScanStart => OnWaiter(s, step)
    case ScanOne(_) => OnWaiter(s, step)
    case CheckGuards(_) => OnWaiter(s, step)
    case Wake => OnWaiter(s, step)
    case _ => if step.id in s.instances then OnInstance(s, step.id, s.instances[step.id], step) else s
  }

  function Run(s: State, steps: seq<Step>): State {
    if steps == [] then s else Next(Run(s, steps[..|steps| - 1]), steps[|steps| - 1])
  }
}
