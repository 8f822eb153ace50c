/**
 What every interleaving of `InstanceLifecycle` keeps: `wait` never misses the last stop, it leaves only
 when nothing runs, and error messages are kept only for known instances.
 */
module LifecycleRuns {
  import opened Wrappers
  import opened InstanceLifecycle

  // ---------------------------------------------------------------- the chain of one instance

  /** How the thread and the watcher of one instance can be related. */
  ghost predicate ChainInv(i: Instance) {
    && (i.stopPermit ==> i.thread == Ended)
    && (i.thread == Ended && (i.watcher == NotSpawned || i.watcher == Waiting) ==> i.stopPermit)
    && (i.watcher.Woken? || i.watcher.Recorded? || i.watcher.Posted? || i.watcher.Gone? ==> i.thread == Ended)
    && (i.present ==> i.inserted)
    && (i.inserted && !i.present ==> i.thread == Ended)
    && (!i.inserted ==> i.watcher == NotSpawned || i.watcher == Absent)
  }

  /** The watcher has not posted to the stop check yet. */
  predicate Unposted(i: Instance) {
    !i.watcher.Posted? && !i.watcher.Gone?
  }

  /** What `wait` saw has not been followed by a notification yet, or the permit is there. */
  ghost predicate WitnessInv(s: State, w: Witness) {
    match w
    case SawInstance(id) => id in s.instances && s.instances[id].inserted && (s.permit || Unposted(s.instances[id]))
    case SawGuard(g) => g in s.guards && (s.permit || s.guards[g] == Held || s.guards[g] == Released)
  }

  ghost predicate WaiterInv(s: State) {
    match s.waiter
    case Scanning(start, todo) =>
      forall id :: id in start ==> id in s.instances && s.instances[id].inserted && (id !in todo ==> Stopped(s, id))
    case Scanned(start, seen) =>
      && (seen.None? ==> forall id :: id in start ==> Stopped(s, id))
      && (seen.Some? ==> WitnessInv(s, SawInstance(seen.value)))
    case Blocked(cause) => WitnessInv(s, cause)
    case _ => true
  }

  ghost predicate Stopped(s: State, id: nat) {
    id in s.instances && s.instances[id].thread != Running
  }

  /** An error is kept for a present instance, or a removal in progress will drop it. */
  ghost predicate ErrorsInv(s: State) {
    forall e :: e in s.errors ==> e in PresentIds(s) || exists op :: op in s.removals && Hits(s.removals[op].victims, e)
  }

  ghost predicate Inv(s: State) {
    && (forall id :: id in s.instances ==> ChainInv(s.instances[id]))
    && WaiterInv(s)
    && ErrorsInv(s)
  }

  // ---------------------------------------------------------------- every step keeps the invariant

  /** What a step can do to an instance that is already known. */
  ghost predicate InstanceMoves(i: Instance, i': Instance, posts: bool) {
    && (i.thread != Running ==> i'.thread != Running)
    && (i.inserted ==> i'.inserted)
    && (Unposted(i) && !posts ==> Unposted(i'))
    && (i.present && !i'.present ==> i'.thread == Ended)
  }

  /** A step of an instance's own thread or watcher. */
  lemma OwnStepMoves(s: State, id: nat, i: Instance, step: Step)
    requires id in s.instances && s.instances[id] == i && ChainInv(i)
    ensures var s' := OnInstance(s, id, i, step);
            && s'.instances.Keys == s.instances.Keys
            && ChainInv(s'.instances[id]) && InstanceMoves(i, s'.instances[id], s'.permit)
            && forall other :: other in s.instances && other != id ==> s'.instances[other] == s.instances[other]
  {
  }

  lemma RemovalMoves(s: State, op: nat, r: Removal, step: Step, id: nat)
    requires id in s.instances && ChainInv(s.instances[id])
    ensures var s' := OnRemoval(s, op, r, step);
            && id in s'.instances && ChainInv(s'.instances[id])
            && InstanceMoves(s.instances[id], s'.instances[id], s'.permit)
  {
  }

  lemma OthersLeaveInstances(s: State, step: Step)
    ensures OnWaiter(s, step).instances == s.instances
    ensures step.RegisterGuard? || step.ReleaseGuard? || step.NotifyDrop? ==> Next(s, step).instances == s.instances
  {
  }

  lemma StepMovesInstance(s: State, step: Step, id: nat)
    requires id in s.instances && ChainInv(s.instances[id])
    ensures var s' := Next(s, step);
            id in s'.instances && ChainInv(s'.instances[id]) && InstanceMoves(s.instances[id], s'.instances[id], s'.permit)
  {
    OthersLeaveInstances(s, step);
    match step
    case RemoveOne(op, _) => if op in s.removals { RemovalMoves(s, op, s.removals[op], step, id); }
    case LeaveMap(op) => if op in s.removals { RemovalMoves(s, op, s.removals[op], step, id); }
    case CleanErrors(op) => if op in s.removals { RemovalMoves(s, op, s.removals[op], step, id); }
    case Launch(_, _) =>
    case BeginRemoval(_, _) =>
    case RegisterGuard(_) =>
    case ReleaseGuard(_) =>
    case NotifyDrop(_) =>
    case NotifyStopCheck =>
    case ScanStart =>
    case ScanOne(_) =>
    case CheckGuards(_) =>
    case Wake =>
    case _ => if step.id == id { OwnStepMoves(s, id, s.instances[id], step); }
  }

  lemma StepMovesInstances(s: State, step: Step)
    requires Inv(s)
    ensures var s' := Next(s, step);
            forall id :: id in s.instances ==>
              id in s'.instances && ChainInv(s'.instances[id]) && InstanceMoves(s.instances[id], s'.instances[id], s'.permit)
  {
    forall id | id in s.instances
      ensures var s' := Next(s, step);
              id in s'.instances && ChainInv(s'.instances[id]) && InstanceMoves(s.instances[id], s'.instances[id], s'.permit)
    {
      StepMovesInstance(s, step, id);
    }
  }

  lemma NewInstancesAreChained(s: State, step: Step, id: nat)
    requires id !in s.instances && id in Next(s, step).instances
    ensures ChainInv(Next(s, step).instances[id])
  {
  }

  lemma GuardsMove(s: State, step: Step, g: nat)
    requires g in s.guards && (s.guards[g] == Held || s.guards[g] == Released)
    ensures var s' := Next(s, step);
            g in s'.guards && (s'.permit || s'.guards[g] == Held || s'.guards[g] == Released)
  {
    match step
    case NotifyDrop(_) =>
    case ReleaseGuard(_) =>
    case _ =>
  }

  lemma GuardsStay(s: State, step: Step, g: nat)
    requires g in s.guards
    ensures g in Next(s, step).guards
    ensures s.permit && !step.Wake? ==> Next(s, step).permit
  {
    match step
    case _ =>
  }

  lemma PermitStays(s: State, step: Step)
    requires s.permit && !step.Wake?
    ensures Next(s, step).permit
  {
    match step
    case _ =>
  }

  lemma WitnessKept(s: State, step: Step, w: Witness)
    requires Inv(s) && WitnessInv(s, w) && !step.Wake?
    ensures WitnessInv(Next(s, step), w)
  {
    if w.SawGuard? {
      GuardsStay(s, step, w.guard);
      if !s.permit { GuardsMove(s, step, w.guard); }
    } else {
      StepMovesInstance(s, step, w.id);
      if s.permit { PermitStays(s, step); }
    }
  }

  lemma StopsAreFinal(s: State, step: Step, id: nat)
    requires Inv(s) && Stopped(s, id)
    ensures Stopped(Next(s, step), id)
  {
    StepMovesInstance(s, step, id);
  }

  /** A step of another party leaves the waiter where it is. */
  lemma WaiterMovesAlone(s: State, step: Step)
    requires !step.ScanStart? && !step.ScanOne? && !step.CheckGuards? && !step.Wake?
    ensures Next(s, step).waiter == s.waiter
    ensures s.permit ==> Next(s, step).permit
  {
  }

  lemma WaiterInvKept(s: State, step: Step)
    requires Inv(s)
    ensures WaiterInv(Next(s, step))
  {
    StepMovesInstances(s, step);
    if step.ScanStart? || step.ScanOne? || step.CheckGuards? || step.Wake? {
      WaiterOwnStep(s, step);
    } else {
      WaiterMovesAlone(s, step);
      forall id | Stopped(s, id) ensures Stopped(Next(s, step), id) { StopsAreFinal(s, step, id); }
      match s.waiter
      case Scanned(_, seen) => if seen.Some? { WitnessKept(s, step, SawInstance(seen.value)); }
      case Blocked(cause) => WitnessKept(s, step, cause);
      case _ =>
    }
  }

  lemma WaiterOwnStep(s: State, step: Step)
    requires Inv(s)
    requires step.ScanStart? || step.ScanOne? || step.CheckGuards? || step.Wake?
    ensures WaiterInv(Next(s, step))
  {
    assert forall id :: id in s.instances ==> ChainInv(s.instances[id]);
    match step
    case ScanStart =>
    case ScanOne(id) =>
      if s.waiter.Scanning? {
        assert forall x :: x in s.waiter.todo ==> x == id || x in s.waiter.todo - {id};
        if IsRunning(s, id) {
          assert ChainInv(s.instances[id]);
        } else if id in s.waiter.start {
          assert ChainInv(s.instances[id]);
          assert Stopped(s, id);
        }
      }
    case CheckGuards(_) =>
    case Wake =>
  }

  lemma ErrorsInvKept(s: State, step: Step)
    requires Inv(s)
    ensures ErrorsInv(Next(s, step))
  {
    var s' := Next(s, step);
    forall e | e in s'.errors
      ensures e in PresentIds(s') || exists op :: op in s'.removals && Hits(s'.removals[op].victims, e)
    {
      if e in s.errors {
        ErrorStaysCovered(s, step, e);
      }
    }
  }

  /** The victims of a removal in progress do not change until it has cleaned the errors. */
  lemma RemovalStays(s: State, step: Step, op: nat)
    requires op in s.removals && !(step.CleanErrors? && step.op == op)
    ensures op in Next(s, step).removals && Next(s, step).removals[op].victims == s.removals[op].victims
  {
  }

  lemma OwnStepKeepsPresent(s: State, id: nat, i: Instance, step: Step)
    requires id in s.instances && s.instances[id] == i && i.present
    ensures id in OnInstance(s, id, i, step).instances && OnInstance(s, id, i, step).instances[id].present
  {
  }

  lemma OtherRemovalKeepsPresent(s: State, op: nat, id: nat, e: nat)
    requires e in PresentIds(s) && id != e && op in s.removals
    ensures e in PresentIds(OnRemoval(s, op, s.removals[op], RemoveOne(op, id)))
  {
  }

  lemma PresentStays(s: State, step: Step, e: nat)
    requires e in PresentIds(s) && !(step.RemoveOne? && step.id == e)
    ensures e in PresentIds(Next(s, step))
  {
    if step.RemoveOne? {
      if step.op in s.removals { OtherRemovalKeepsPresent(s, step.op, step.id, e); }
    } else if IsChainStep(step) && step.id == e {
      OwnStepKeepsPresent(s, e, s.instances[e], step);
    } else {
      ChainUntouched(s, step, e);
    }
  }

  lemma RemovedIsCovered(s: State, op: nat, e: nat)
    requires e in PresentIds(s) && e !in PresentIds(Next(s, RemoveOne(op, e)))
    ensures var s' := Next(s, RemoveOne(op, e)); op in s'.removals && Hits(s'.removals[op].victims, e)
  {
  }

  lemma ErrorStaysCovered(s: State, step: Step, e: nat)
    requires Inv(s) && e in s.errors && e in Next(s, step).errors
    ensures var s' := Next(s, step);
            e in PresentIds(s') || exists op :: op in s'.removals && Hits(s'.removals[op].victims, e)
  {
    if e in PresentIds(s) {
      if step.RemoveOne? && step.id == e {
        if e !in PresentIds(Next(s, step)) { RemovedIsCovered(s, step.op, e); }
      } else {
        PresentStays(s, step, e);
      }
    } else {
      var op :| op in s.removals && Hits(s.removals[op].victims, e);
      if !(step.CleanErrors? && step.op == op) {
        RemovalStays(s, step, op);
      }
    }
  }

  lemma StepKeepsInv(s: State, step: Step)
    requires Inv(s)
    ensures Inv(Next(s, step))
  {
    StepMovesInstances(s, step);
    WaiterInvKept(s, step);
    ErrorsInvKept(s, step);
    forall id | id in Next(s, step).instances && id !in s.instances
      ensures ChainInv(Next(s, step).instances[id])
    {
      NewInstancesAreChained(s, step, id);
    }
  }

  lemma {:induction false} InvOverRuns(steps: seq<Step>)
    ensures Inv(Run(INIT, steps))
  {
    if steps != [] {
      InvOverRuns(steps[..|steps| - 1]);
      StepKeepsInv(Run(INIT, steps[..|steps| - 1]), steps[|steps| - 1]);
    }
  }

  // ---------------------------------------------------------------- no lost wakeup

  /** Nothing runs and no daemon guard is held. */
  ghost predicate Quiet(s: State) {
    (forall id :: !IsRunning(s, id)) && (forall g :: !GuardHeld(s, g))
  }

  /** The pending step of the chain from what `wait` saw to the notification it needs. */
  function Pending(s: State, w: Witness): Option<Step> {
    match w
    case SawGuard(g) => if g in s.guards && s.guards[g] == Released then Some(NotifyDrop(g)) else None
    case SawInstance(id) =>
      if id !in s.instances then None
      else
        var i := s.instances[id];
        match i.thread
        case Running => None
        case Cleared => Some(ThreadNotify(id))
        case Ended =>
          match i.watcher
          case NotSpawned => if i.present then Some(Spawn(id)) else None
          case Waiting => Some(WatcherWake(id))
          case Woken => Some(WatcherRecord(id))
          case Recorded => Some(WatcherPost(id))
          case _ => None
  }

  /** The instance `wait` saw has no watcher and will not get one. */
  ghost predicate Doomed(s: State, w: Witness) {
    w.SawInstance? && w.id in s.instances && s.instances[w.id].thread == Ended &&
    var i := s.instances[w.id];
    i.watcher == Absent || (i.watcher == NotSpawned && !i.present)
  }

  /**
   In every run, when nothing runs and no guard is held, a blocked `wait` without a permit has a pending
   step that leads to one exactly when the instance it saw has, or will have, a watcher.
   */
  lemma WakeupPendingIff(steps: seq<Step>)
    ensures var s := Run(INIT, steps);
            s.waiter.Blocked? && Quiet(s) && !s.permit ==>
              (Pending(s, s.waiter.cause).Some? <==> !Doomed(s, s.waiter.cause))
  {
    InvOverRuns(steps);
    var s := Run(INIT, steps);
    if s.waiter.Blocked? && Quiet(s) && !s.permit {
      match s.waiter.cause
      case SawGuard(g) => assert !GuardHeld(s, g);
      case SawInstance(id) => assert ChainInv(s.instances[id]) && !IsRunning(s, id);
    }
  }

  /** Every instance is watched, and runs and removals do not overlap (both hold the mutation lock). */
  ghost predicate Orderly(s: State, step: Step) {
    && (step.Launch? ==> step.watch && forall op :: op in s.removals ==> s.removals[op].FromErrors?)
    && (step.BeginRemoval? ==> forall id :: id in s.instances ==> s.instances[id].watcher != NotSpawned)
  }

  ghost predicate OrderlyRun(steps: seq<Step>) {
    forall i :: 0 <= i < |steps| ==> Orderly(Run(INIT, steps[..i]), steps[i])
  }

  ghost predicate OrderlyInv(s: State) {
    && (forall id :: id in s.instances ==> Tended(s.instances[id]))
    && ((exists id :: id in s.instances && s.instances[id].watcher == NotSpawned) ==>
          forall op :: op in s.removals ==> s.removals[op].FromErrors?)
  }

  predicate Tended(i: Instance) {
    i.watcher != Absent && (i.watcher == NotSpawned && i.inserted ==> i.present)
  }

  lemma OwnStepTends(s: State, id: nat, i: Instance, step: Step)
    requires id in s.instances && s.instances[id] == i && Tended(i)
    ensures id in OnInstance(s, id, i, step).instances && Tended(OnInstance(s, id, i, step).instances[id])
  {
  }

  lemma RemovalTends(s: State, op: nat, id: nat, e: nat)
    requires e in s.instances && Tended(s.instances[e]) && op in s.removals
    requires s.instances[e].watcher == NotSpawned ==> s.removals[op].FromErrors?
    ensures e in OnRemoval(s, op, s.removals[op], RemoveOne(op, id)).instances
    ensures Tended(OnRemoval(s, op, s.removals[op], RemoveOne(op, id)).instances[e])
  {
  }

  lemma OrderlyInstances(s: State, step: Step, id: nat)
    requires OrderlyInv(s) && Orderly(s, step) && id in Next(s, step).instances
    ensures Tended(Next(s, step).instances[id])
  {
    if id in s.instances {
      if step.RemoveOne? {
        if step.op in s.removals { RemovalTends(s, step.op, step.id, id); }
      } else if IsChainStep(step) && step.id == id {
        OwnStepTends(s, id, s.instances[id], step);
      } else {
        ChainUntouched(s, step, id);
      }
    } else {
      OnlyLaunchAdds(s, step, id);
    }
  }

  lemma OnlyLaunchAdds(s: State, step: Step, id: nat)
    requires id !in s.instances && id in Next(s, step).instances
    ensures step.Launch? && step.id == id
  {
    OthersLeaveInstances(s, step);
  }

  /** While an instance still waits for its watcher, no removal is at the map. */
  lemma OrderlyRemovals(s: State, step: Step, id: nat, op: nat)
    requires OrderlyInv(s) && Orderly(s, step)
    requires id in Next(s, step).instances && Next(s, step).instances[id].watcher == NotSpawned
    requires op in Next(s, step).removals
    ensures Next(s, step).removals[op].FromErrors?
  {
    if !step.Launch? {
      assert id in s.instances;
      NotSpawnedBefore(s, step, id);
    }
  }

  lemma NotSpawnedBefore(s: State, step: Step, id: nat)
    requires id in s.instances && id in Next(s, step).instances && Next(s, step).instances[id].watcher == NotSpawned
    ensures s.instances[id].watcher == NotSpawned
  {
  }

  lemma OrderlyStep(s: State, step: Step)
    requires OrderlyInv(s) && Orderly(s, step)
    ensures OrderlyInv(Next(s, step))
  {
    var s' := Next(s, step);
    forall id | id in s'.instances
      ensures s'.instances[id].watcher != Absent
      ensures s'.instances[id].watcher == NotSpawned && s'.instances[id].inserted ==> s'.instances[id].present
    {
      OrderlyInstances(s, step, id);
    }
    forall id, op | id in s'.instances && s'.instances[id].watcher == NotSpawned && op in s'.removals
      ensures s'.removals[op].FromErrors?
    {
      OrderlyRemovals(s, step, id, op);
    }
  }

  lemma {:induction false} OrderlyOverRuns(steps: seq<Step>)
    requires OrderlyRun(steps)
    ensures OrderlyInv(Run(INIT, steps))
  {
    if steps != [] {
      var n := |steps| - 1;
      forall i | 0 <= i < n ensures Orderly(Run(INIT, steps[..n][..i]), steps[..n][i]) { assert steps[..n][..i] == steps[..i]; }
      OrderlyOverRuns(steps[..n]);
      OrderlyStep(Run(INIT, steps[..n]), steps[n]);
    }
  }

  /** In an orderly run no wakeup is lost. */
  lemma NoLostWakeup(steps: seq<Step>)
    requires OrderlyRun(steps)
    ensures var s := Run(INIT, steps);
            s.waiter.Blocked? && Quiet(s) ==> s.permit || Pending(s, s.waiter.cause).Some?
  {
    OrderlyOverRuns(steps);
    InvOverRuns(steps);
    WakeupPendingIff(steps);
    var s := Run(INIT, steps);
    if s.waiter.Blocked? { NotDoomed(s, s.waiter.cause); }
  }

  lemma NotDoomed(s: State, w: Witness)
    requires OrderlyInv(s) && WitnessInv(s, w)
    ensures !Doomed(s, w)
  {
  }

  // ---------------------------------------------------------------- the pending steps lead to a permit

  function ThreadDebt(t: Thread): nat {
    match t
    case Running => 2
    case Cleared => 1
    case Ended => 0
  }

  function WatcherDebt(w: Watcher): nat {
    match w
    case NotSpawned => 4
    case Waiting => 3
    case Woken => 2
    case Recorded => 1
    case _ => 0
  }

  /** How many steps of the chain are left. */
  function Debt(s: State, w: Witness): nat {
    match w
    case SawGuard(g) => if g in s.guards then (if s.guards[g] == Held then 2 else if s.guards[g] == Released then 1 else 0) else 0
    case SawInstance(id) =>
      if id in s.instances then ThreadDebt(s.instances[id].thread) + WatcherDebt(s.instances[id].watcher) else 0
  }

  /** A pending step is possible and brings the permit closer; no other step takes it farther away. */
  lemma DebtFalls(s: State, step: Step, w: Witness)
    requires Inv(s) && WitnessInv(s, w)
    ensures Debt(Next(s, step), w) <= Debt(s, w)
    ensures Pending(s, w) == Some(step) ==> Debt(Next(s, step), w) < Debt(s, w)
  {
    if w.SawGuard? {
      match step
      case ReleaseGuard(_) =>
      case NotifyDrop(_) =>
      case RegisterGuard(_) =>
      case _ =>
    } else if IsChainStep(step) && step.id == w.id {
      ChainDebtFalls(s, step, w.id);
    } else {
      ChainUntouched(s, step, w.id);
    }
  }

  /** The steps of one instance's launcher, thread and watcher. */
  predicate IsChainStep(step: Step) {
    step.Insert? || step.Spawn? || step.ThreadClear? || step.ThreadNotify? || step.WatcherWake? || step.WatcherRecord?
    || step.WatcherPost? || step.WatcherLeave?
  }

  lemma ChainUntouched(s: State, step: Step, id: nat)
    requires id in s.instances && !(IsChainStep(step) && step.id == id)
    ensures var s' := Next(s, step);
            && id in s'.instances && s'.instances[id].thread == s.instances[id].thread
            && s'.instances[id].watcher == s.instances[id].watcher && s'.instances[id].inserted == s.instances[id].inserted
            && (!step.RemoveOne? ==> s'.instances[id].present == s.instances[id].present)
  {
  }

  lemma ChainDebtFalls(s: State, step: Step, id: nat)
    requires Inv(s) && id in s.instances && IsChainStep(step) && step.id == id
    ensures Debt(Next(s, step), SawInstance(id)) <= Debt(s, SawInstance(id))
    ensures Pending(s, SawInstance(id)) == Some(step) ==> Debt(Next(s, step), SawInstance(id)) < Debt(s, SawInstance(id))
  {
    assert ChainInv(s.instances[id]);
  }

  /** How many steps of a run were pending steps of the chain from `w`. */
  ghost function ChainSteps(s: State, steps: seq<Step>, w: Witness): nat {
    if steps == [] then 0
    else
      var n := |steps| - 1;
      ChainSteps(s, steps[..n], w) + if Pending(Run(s, steps[..n]), w) == Some(steps[n]) then 1 else 0
  }

  ghost predicate NeverWoken(steps: seq<Step>) {
    forall i :: 0 <= i < |steps| ==> !steps[i].Wake?
  }

  /**
   However the others behave, a blocked `wait` stays without a permit for at most `Debt` pending steps
   of its chain: six when it saw an instance, two when it saw a guard.
   */
  lemma {:induction false} BoundedWakeup(s: State, steps: seq<Step>, w: Witness)
    requires Inv(s) && WitnessInv(s, w) && NeverWoken(steps)
    ensures Inv(Run(s, steps)) && WitnessInv(Run(s, steps), w)
    ensures ChainSteps(s, steps, w) + Debt(Run(s, steps), w) <= Debt(s, w) <= 6
  {
    if steps != [] {
      var n := |steps| - 1;
      BoundedWakeup(s, steps[..n], w);
      StepKeepsInv(Run(s, steps[..n]), steps[n]);
      WitnessKept(Run(s, steps[..n]), steps[n], w);
      DebtFalls(Run(s, steps[..n]), steps[n], w);
    }
  }

  /** When the chain has no step left and its instance was watched, the permit is there. */
  lemma DebtPaid(s: State, w: Witness)
    requires Inv(s) && WitnessInv(s, w) && Debt(s, w) == 0
    ensures s.permit || Doomed(s, w)
  {
    if w.SawInstance? { assert ChainInv(s.instances[w.id]); }
  }

  // ---------------------------------------------------------------- sleeping for good

  /** The instance that `wait` saw has stopped and nobody will post for it. */
  ghost predicate Asleep(s: State) {
    Inv(s) && s.waiter.Blocked? && !s.permit && Doomed(s, s.waiter.cause)
  }

  /** No explicit stop check, no dropped guard and no other instance's watcher posts in the step. */
  predicate PostsNothing(step: Step, w: Witness) {
    && !step.NotifyStopCheck? && !step.NotifyDrop?
    && (step.WatcherPost? ==> w == SawInstance(step.id))
  }

  lemma DoomedStays(s: State, step: Step, w: Witness)
    requires Inv(s) && WitnessInv(s, w) && Doomed(s, w)
    ensures Doomed(Next(s, step), w)
  {
    var id := w.id;
    if step.RemoveOne? {
      if step.op in s.removals { RemovalMoves(s, step.op, s.removals[step.op], step, id); }
    } else if IsChainStep(step) && step.id == id {
      assert ChainInv(s.instances[id]);
    } else {
      ChainUntouched(s, step, id);
    }
  }

  lemma NoPermitFromNowhere(s: State, step: Step)
    requires !s.permit && Next(s, step).permit
    ensures step.NotifyStopCheck? || step.NotifyDrop? ||
            (step.WatcherPost? && step.id in s.instances && s.instances[step.id].watcher == Recorded)
  {
    match step
    case _ =>
  }

  lemma SleepStep(s: State, step: Step)
    requires Asleep(s) && PostsNothing(step, s.waiter.cause)
    ensures Asleep(Next(s, step)) && Next(s, step).waiter == s.waiter
  {
    StepKeepsInv(s, step);
    DoomedStays(s, step, s.waiter.cause);
    if Next(s, step).permit {
      NoPermitFromNowhere(s, step);
    }
    if !(step.ScanStart? || step.ScanOne? || step.CheckGuards? || step.Wake?) {
      WaiterMovesAlone(s, step);
    }
  }

  /** A `wait` whose instance nobody posts for sleeps until someone else posts, however long the run. */
  lemma {:induction false} SleepsForGood(s: State, steps: seq<Step>)
    requires Asleep(s) && forall i :: 0 <= i < |steps| ==> PostsNothing(steps[i], s.waiter.cause)
    ensures Asleep(Run(s, steps)) && Run(s, steps).waiter == s.waiter
  {
    if steps != [] {
      SleepsForGood(s, steps[..|steps| - 1]);
      SleepStep(Run(s, steps[..|steps| - 1]), steps[|steps| - 1]);
    }
  }

  // ---------------------------------------------------------------- leaving the loop

  /** `wait` leaves only when no guard is held and everything that was present when it looked has stopped. */
  lemma ExitIsJustified(steps: seq<Step>, step: Step)
    ensures var s := Run(INIT, steps);
            !s.waiter.Exited? && Next(s, step).waiter.Exited? ==>
              && s.waiter.Scanned?
              && (forall g :: !GuardHeld(s, g))
              && (forall id :: id in s.waiter.start ==> Stopped(s, id) && !IsRunning(s, id))
  {
    InvOverRuns(steps);
    var s := Run(INIT, steps);
    if !s.waiter.Exited? && Next(s, step).waiter.Exited? {
      if !step.CheckGuards? {
        if step.ScanStart? || step.ScanOne? || step.Wake? { } else { WaiterMovesAlone(s, step); }
      }
      assert s.waiter.seen.None?;
      assert forall id :: id in s.waiter.start ==> Stopped(s, id);
    }
  }

  // ---------------------------------------------------------------- error messages

  /** A delete or retain whose instances are gone, whoever removed them, finishes in two steps. */
  lemma RemovalFinishes(s: State, op: nat)
    requires op in s.removals && (s.removals[op].FromMap? ==> s.removals[op].pending !! PresentIds(s))
    ensures op !in Next(Next(s, LeaveMap(op)), CleanErrors(op)).removals
    ensures Next(Next(s, LeaveMap(op)), CleanErrors(op)).instances == s.instances
  {
  }

  /** Whenever no delete or retain is in progress, errors are kept for present instances only. */
  lemma ErrorsBelongToInstances(steps: seq<Step>)
    ensures var s := Run(INIT, steps);
            s.removals == map[] ==> s.errors <= PresentIds(s)
  {
    InvOverRuns(steps);
  }
}
