/**
 What the parties around the instance manager get done: a pass of `wait` leaves exactly when nothing runs, deletes and
 retains remove exactly their victims, and an error message is there exactly while it should be.
 */
module LifecycleProgress {
  import opened Wrappers
  import opened InstanceLifecycle
  import opened LifecycleRuns

  // ---------------------------------------------------------------- a pass of wait

  /** A check of the guards leaves exactly when the scan saw nothing running and no guard is held. */
  lemma CheckLeavesIff(s: State, g: nat)
    requires s.waiter.Scanned?
    ensures Next(s, CheckGuards(g)).waiter.Exited? <==> s.waiter.seen.None? && forall h :: !GuardHeld(s, h)
    ensures s.waiter.seen.Some? && (forall h :: !GuardHeld(s, h)) ==>
              Next(s, CheckGuards(g)).waiter == Blocked(SawInstance(s.waiter.seen.value))
    ensures GuardHeld(s, g) ==> Next(s, CheckGuards(g)).waiter.Blocked?
  {
    if h :| GuardHeld(s, h) {
      assert h in s.guards && s.guards[h] == Held;
    }
    if h :| h in s.guards && s.guards[h] == Held {
      assert GuardHeld(s, h);
    }
  }

  function ScanSteps(ids: seq<nat>): seq<Step> {
    seq(|ids|, i requires 0 <= i < |ids| => ScanOne(ids[i]))
  }

  /** The first running instance of a list. */
  function FirstRunning(s: State, ids: seq<nat>): Option<nat> {
    if ids == [] then None
    else
      var n := |ids| - 1;
      var before := FirstRunning(s, ids[..n]);
      if before.Some? then before else if IsRunning(s, ids[n]) then Some(ids[n]) else None
  }

  function Elements(ids: seq<nat>): set<nat> {
    set id | id in ids
  }

  /** Where a scan is after looking at some instances that do not change meanwhile. */
  function ScanState(s: State, start: set<nat>, ids: seq<nat>): Waiter {
    if FirstRunning(s, ids).Some? then Scanned(start, FirstRunning(s, ids))
    else if ids != [] && start <= Elements(ids) then Scanned(start, None)
    else Scanning(start, start - Elements(ids))
  }

  lemma {:induction false} ScanRun(s: State, start: set<nat>, ids: seq<nat>)
    requires s.waiter == Scanning(start, start) && forall id :: IsRunning(s, id) ==> id in start
    ensures Run(s, ScanSteps(ids)) == s.(waiter := ScanState(s, start, ids))
  {
    if ids == [] {
      assert start - Elements(ids) == start;
    } else {
      var n := |ids| - 1;
      ScanRun(s, start, ids[..n]);
      assert ScanSteps(ids)[..n] == ScanSteps(ids[..n]);
      assert Elements(ids) == Elements(ids[..n]) + {ids[n]};
      NoneRunning(s, ids[..n]);
      var before := Run(s, ScanSteps(ids[..n]));
      assert IsRunning(before, ids[n]) == IsRunning(s, ids[n]);
      assert start - Elements(ids[..n]) - {ids[n]} == start - Elements(ids);
      assert start <= Elements(ids) <==> start - Elements(ids) == {};
    }
  }

  /** A whole pass: start, look at the instances, check the guards. */
  function Pass(ids: seq<nat>, g: nat): seq<Step> {
    [ScanStart] + ScanSteps(ids) + [CheckGuards(g)]
  }

  lemma {:induction false} RunConcat(s: State, a: seq<Step>, b: seq<Step>)
    ensures Run(s, a + b) == Run(Run(s, a), b)
  {
    if b == [] {
      assert a + b == a;
    } else {
      var n := |b| - 1;
      RunConcat(s, a, b[..n]);
      assert (a + b)[..|a + b| - 1] == a + b[..n];
    }
  }

  lemma OneStep(s: State, step: Step)
    ensures Run(s, [step]) == Next(s, step)
  {
    assert [step][..0] == [];
  }

  lemma PassRuns(s: State, ids: seq<nat>, g: nat)
    ensures Run(s, Pass(ids, g)) == Next(Run(Next(s, ScanStart), ScanSteps(ids)), CheckGuards(g))
  {
    OneStep(s, ScanStart);
    RunConcat(s, [ScanStart], ScanSteps(ids));
    OneStep(Run(Next(s, ScanStart), ScanSteps(ids)), CheckGuards(g));
    RunConcat(s, [ScanStart] + ScanSteps(ids), [CheckGuards(g)]);
  }

  lemma {:induction false} NoneRunning(s: State, ids: seq<nat>)
    ensures FirstRunning(s, ids).None? <==> forall i :: 0 <= i < |ids| ==> !IsRunning(s, ids[i])
    ensures FirstRunning(s, ids).Some? ==> FirstRunning(s, ids).value in ids && IsRunning(s, FirstRunning(s, ids).value)
  {
    if ids != [] {
      var n := |ids| - 1;
      NoneRunning(s, ids[..n]);
      assert ids == ids[..n] + [ids[n]];
    }
  }

  /** The scan looks at every present instance, in any order; at any one if there is none. */
  ghost predicate LooksAtAll(s: State, ids: seq<nat>) {
    ids != [] && PresentIds(s) <= Elements(ids)
  }

  lemma {:induction false} SameRunning(s: State, s': State, ids: seq<nat>)
    requires s'.instances == s.instances
    ensures FirstRunning(s', ids) == FirstRunning(s, ids)
  {
    if ids != [] {
      SameRunning(s, s', ids[..|ids| - 1]);
    }
  }

  lemma PassScans(s: State, ids: seq<nat>)
    requires s.waiter.Idle? && LooksAtAll(s, ids)
    ensures Run(Next(s, ScanStart), ScanSteps(ids)) == s.(waiter := Scanned(PresentIds(s), FirstRunning(s, ids)))
    ensures FirstRunning(s, ids).None? <==> forall id :: !IsRunning(s, id)
  {
    var start := PresentIds(s);
    var begun := Next(s, ScanStart);
    assert begun == s.(waiter := Scanning(start, start));
    SameRunning(s, begun, ids);
    NoneRunning(s, ids);
    assert forall id :: IsRunning(s, id) ==> id in start && id in Elements(ids);
    assert forall id :: IsRunning(begun, id) ==> IsRunning(s, id);
    ScanRun(begun, start, ids);
  }

  /**
   A whole undisturbed pass of `wait`, over the instances in any order: it leaves exactly when no instance runs and no
   guard is held, and blocks on the first running instance if no guard is held.
   */
  lemma PassLeavesIff(s: State, ids: seq<nat>, g: nat)
    requires s.waiter.Idle? && LooksAtAll(s, ids)
    ensures Run(s, Pass(ids, g)).waiter.Exited? <==> Quiet(s)
    ensures (forall h :: !GuardHeld(s, h)) && !Quiet(s) ==>
              FirstRunning(s, ids).Some? && Run(s, Pass(ids, g)).waiter == Blocked(SawInstance(FirstRunning(s, ids).value))
  {
    PassScans(s, ids);
    PassRuns(s, ids, g);
    var scanned := s.(waiter := Scanned(PresentIds(s), FirstRunning(s, ids)));
    CheckLeavesIff(scanned, g);
    assert forall h :: GuardHeld(scanned, h) <==> GuardHeld(s, h);
  }

  /** A blocked `wait` with a permit, when nothing runs any more, wakes up and leaves after one undisturbed pass. */
  lemma WakesAndLeaves(s: State, ids: seq<nat>, g: nat)
    requires s.waiter.Blocked? && s.permit && Quiet(s) && LooksAtAll(s, ids)
    ensures Run(s, [Wake] + Pass(ids, g)).waiter.Exited?
  {
    var awake := Next(s, Wake);
    assert awake == s.(waiter := Idle, permit := false);
    assert PresentIds(awake) == PresentIds(s);
    assert Quiet(awake) by {
      assert forall id :: IsRunning(awake, id) == IsRunning(s, id);
      assert forall h :: GuardHeld(awake, h) == GuardHeld(s, h);
    }
    OneStep(s, Wake);
    RunConcat(s, [Wake], Pass(ids, g));
    PassLeavesIff(awake, ids, g);
  }

  // ---------------------------------------------------------------- error messages

  /** The watcher finds that its instance, still in the map, has failed. */
  predicate RecordsError(s: State, step: Step, e: nat) {
    && step == WatcherRecord(e) && e in s.instances
    && s.instances[e].watcher == Woken && s.instances[e].present && s.instances[e].errored
  }

  /** A delete or retain that is done with the map drops the message. */
  predicate ClearsError(s: State, step: Step, e: nat) {
    step.CleanErrors? && step.op in s.removals && s.removals[step.op].FromErrors? && Hits(s.removals[step.op].victims, e)
  }

  lemma ErrorStep(s: State, step: Step, e: nat)
    ensures e in Next(s, step).errors <==> RecordsError(s, step, e) || (e in s.errors && !ClearsError(s, step, e))
  {
  }

  ghost predicate RecordedAt(steps: seq<Step>, i: nat, e: nat) {
    i < |steps| && RecordsError(Run(INIT, steps[..i]), steps[i], e)
  }

  ghost predicate ClearedAt(steps: seq<Step>, i: nat, e: nat) {
    i < |steps| && ClearsError(Run(INIT, steps[..i]), steps[i], e)
  }

  /** The message was recorded at one step and not dropped since. */
  ghost predicate RecordedSince(steps: seq<Step>, i: nat, e: nat) {
    RecordedAt(steps, i, e) && forall j: nat :: i < j < |steps| ==> !ClearedAt(steps, j, e)
  }

  ghost predicate StillRecorded(steps: seq<Step>, e: nat) {
    exists i: nat :: RecordedSince(steps, i, e)
  }

  lemma SamePast(steps: seq<Step>, n: nat, i: nat, e: nat)
    requires i < n <= |steps|
    ensures RecordedAt(steps[..n], i, e) == RecordedAt(steps, i, e)
    ensures ClearedAt(steps[..n], i, e) == ClearedAt(steps, i, e)
  {
    assert steps[..n][..i] == steps[..i];
  }

  lemma SincePast(steps: seq<Step>, i: nat, e: nat)
    requires i + 1 < |steps|
    ensures var n := |steps| - 1;
            RecordedSince(steps, i, e) <==> RecordedSince(steps[..n], i, e) && !ClearedAt(steps, n, e)
  {
    var n := |steps| - 1;
    SamePast(steps, n, i, e);
    forall j: nat | i < j < n ensures ClearedAt(steps[..n], j, e) == ClearedAt(steps, j, e) {
      SamePast(steps, n, j, e);
    }
  }

  lemma StillRecordedStep(steps: seq<Step>, e: nat)
    requires steps != []
    ensures var init, n := steps[..|steps| - 1], |steps| - 1;
            StillRecorded(steps, e) <==> RecordedAt(steps, n, e) || (StillRecorded(init, e) && !ClearedAt(steps, n, e))
  {
    var init, n := steps[..|steps| - 1], |steps| - 1;
    if RecordedAt(steps, n, e) {
      assert RecordedSince(steps, n, e);
    }
    if i: nat :| RecordedSince(init, i, e) {
      SincePast(steps, i, e);
    }
    if i: nat :| RecordedSince(steps, i, e) {
      if i < n { SincePast(steps, i, e); }
    }
  }

  /** In every run there is a message for an instance exactly when its failure was recorded and no delete or retain has dropped it since. */
  lemma {:induction false} ErrorsIff(steps: seq<Step>, e: nat)
    ensures e in Run(INIT, steps).errors <==> StillRecorded(steps, e)
  {
    if steps != [] {
      var n := |steps| - 1;
      ErrorsIff(steps[..n], e);
      ErrorStep(Run(INIT, steps[..n]), steps[n], e);
      StillRecordedStep(steps, e);
      assert RecordedAt(steps, n, e) == RecordsError(Run(INIT, steps[..n]), steps[n], e);
      assert ClearedAt(steps, n, e) == ClearsError(Run(INIT, steps[..n]), steps[n], e);
    }
  }

  /** The state in which the watcher of a stopped instance has been woken. */
  lemma WakesWatcher(s: State, id: nat, fails: bool, i: Instance, woken: Instance)
    requires id in s.instances && i == s.instances[id] && i.thread == Running && i.watcher == Waiting
    requires woken == i.(thread := Ended, errored := fails, watcher := Woken, stopPermit := false)
    ensures Next(Next(Next(s, ThreadClear(id, fails)), ThreadNotify(id)), WatcherWake(id)) == Put(s, id, woken)
  {
    var s1 := Next(s, ThreadClear(id, fails));
    assert s1 == Put(s, id, i.(thread := Cleared, errored := fails));
    var s2 := Next(s1, ThreadNotify(id));
    assert s2 == Put(s, id, i.(thread := Ended, errored := fails, stopPermit := true));
  }

  lemma WatcherReports(s: State, id: nat, i: Instance)
    requires id in s.instances && i == s.instances[id] && i.watcher == Woken && i.present
    ensures Next(Next(s, WatcherRecord(id)), WatcherPost(id)) ==
              Put(s, id, i.(watcher := Posted)).(permit := true, errors := if i.errored then s.errors + {id} else s.errors)
  {
  }

  /** The instance thread clears its flag and posts, and the watcher wakes, records a failure and posts. */
  function Stop(s: State, id: nat, fails: bool): State {
    Next(Next(Next(Next(Next(s, ThreadClear(id, fails)), ThreadNotify(id)), WatcherWake(id)), WatcherRecord(id)), WatcherPost(id))
  }

  /** A watched instance that stops is no longer running, its failure is recorded if it failed, and `wait` gets its permit. */
  lemma StopIsNoticed(s: State, id: nat, fails: bool)
    requires id in s.instances
    requires s.instances[id].thread == Running && s.instances[id].present && s.instances[id].watcher == Waiting
    ensures var s' := Stop(s, id, fails);
            && !IsRunning(s', id) && PresentIds(s') == PresentIds(s) && s'.permit
            && s'.errors == if fails then s.errors + {id} else s.errors
  {
    var i := s.instances[id];
    var woken := i.(thread := Ended, errored := fails, watcher := Woken, stopPermit := false);
    WakesWatcher(s, id, fails, i, woken);
    WatcherReports(Put(s, id, woken), id, woken);
    StoppedState(s, id, woken, Stop(s, id, fails));
  }

  lemma StoppedState(s: State, id: nat, woken: Instance, s': State)
    requires id in s.instances && s.instances[id].present && woken.present && woken.thread == Ended
    requires s'.instances == s.instances[id := woken.(watcher := Posted)]
    ensures !IsRunning(s', id) && PresentIds(s') == PresentIds(s)
  {
  }

  /** A start puts a running instance with a waiting watcher into the map and changes nothing else. */
  lemma StartIsWatched(s: State, id: nat)
    requires id !in s.instances
    ensures Next(Next(Next(s, Launch(id, true)), Insert(id)), Spawn(id)) ==
              s.(instances := s.instances[id := Instance(Running, false, false, true, true, Waiting)])
  {
    var s1 := Next(s, Launch(id, true));
    assert s1 == Put(s, id, Instance(Running, false, false, false, false, NotSpawned));
    var s2 := Next(s1, Insert(id));
    assert s2 == Put(s, id, Instance(Running, false, false, true, true, NotSpawned));
  }

  /** Dropping a guard releases it and leaves `wait` its permit. */
  lemma DropIsNoticed(s: State, g: nat)
    requires GuardHeld(s, g)
    ensures Next(Next(s, ReleaseGuard(g)), NotifyDrop(g)) == s.(guards := s.guards[g := Dropped], permit := true)
  {
    assert Next(s, ReleaseGuard(g)) == s.(guards := s.guards[g := Released]);
  }

  // ---------------------------------------------------------------- deletes and retains

  /** An instance leaves the map only by a delete or retain that hits it, and only after its thread has ended. */
  lemma OnlyVictimsGo(s: State, step: Step, id: nat)
    requires id in PresentIds(s) && id !in PresentIds(Next(s, step))
    ensures step.RemoveOne? && step.id == id && step.op in s.removals && Hits(s.removals[step.op].victims, id)
    ensures s.instances[id].thread == Ended
  {
    if !(step.RemoveOne? && step.id == id) {
      PresentStays(s, step, id);
    }
  }

  /** An instance that has left the map does not come back. */
  lemma GoneStaysGone(s: State, step: Step, id: nat)
    requires id in s.instances && s.instances[id].inserted && !s.instances[id].present
    ensures var s' := Next(s, step); id in s'.instances && s'.instances[id].inserted && !s'.instances[id].present
  {
    if step.RemoveOne? {
      if step.op in s.removals { RemovedStaysGone(s, step.op, step.id, id); }
    } else if IsChainStep(step) && step.id == id {
      OwnStepStaysGone(s, id, s.instances[id], step);
    } else {
      ChainUntouched(s, step, id);
    }
  }

  lemma RemovedStaysGone(s: State, op: nat, id: nat, e: nat)
    requires op in s.removals && e in s.instances && s.instances[e].inserted && !s.instances[e].present
    ensures var s' := OnRemoval(s, op, s.removals[op], RemoveOne(op, id));
            e in s'.instances && s'.instances[e].inserted && !s'.instances[e].present
  {
  }

  lemma OwnStepStaysGone(s: State, id: nat, i: Instance, step: Step)
    requires id in s.instances && s.instances[id] == i && i.inserted && !i.present
    ensures var s' := OnInstance(s, id, i, step); id in s'.instances && s'.instances[id].inserted && !s'.instances[id].present
  {
  }

  /** How far the removal is with an instance that was in the map when it began. */
  ghost predicate OnItsWay(s: State, op: nat, victims: Victims, id: nat) {
    && id in s.instances && s.instances[id].inserted
    && (op in s.removals ==> s.removals[op].victims == victims)
    && (s.instances[id].present ==> op in s.removals && s.removals[op].FromMap? && id in s.removals[op].pending)
  }

  lemma OnItsWayStep(s: State, step: Step, op: nat, victims: Victims, id: nat)
    requires OnItsWay(s, op, victims, id) && !(step.BeginRemoval? && step.op == op)
    ensures OnItsWay(Next(s, step), op, victims, id)
  {
    if !s.instances[id].present {
      GoneStaysGone(s, step, id);
      VictimsStay(s, step, op);
    } else if step.RemoveOne? && step.id == id {
      RemoveTakes(s, step.op, op, victims, id);
    } else {
      StaysPending(s, step, op, id);
      if IsChainStep(step) && step.id == id {
        OwnStepStaysInserted(s, id, s.instances[id], step);
      } else if step.RemoveOne? {
        if step.op in s.removals { OtherRemoved(s, step.op, step.id, id); }
      } else {
        ChainUntouched(s, step, id);
      }
    }
  }

  lemma OwnStepStaysInserted(s: State, id: nat, i: Instance, step: Step)
    requires id in s.instances && s.instances[id] == i && i.inserted
    ensures id in OnInstance(s, id, i, step).instances && OnInstance(s, id, i, step).instances[id].inserted
  {
  }

  lemma OtherRemoved(s: State, op: nat, id: nat, e: nat)
    requires op in s.removals && e in s.instances && id != e
    ensures var s' := OnRemoval(s, op, s.removals[op], RemoveOne(op, id)); e in s'.instances && s'.instances[e] == s.instances[e]
  {
  }

  lemma VictimsStay(s: State, step: Step, op: nat)
    requires !(step.BeginRemoval? && step.op == op)
    ensures op in Next(s, step).removals ==> op in s.removals && Next(s, step).removals[op].victims == s.removals[op].victims
  {
  }

  lemma RemoveTakes(s: State, remover: nat, op: nat, victims: Victims, id: nat)
    requires OnItsWay(s, op, victims, id) && s.instances[id].present
    ensures OnItsWay(Next(s, RemoveOne(remover, id)), op, victims, id)
  {
  }

  /** A removal that still waits for an instance in the map goes on waiting for it. */
  lemma StaysPending(s: State, step: Step, op: nat, id: nat)
    requires op in s.removals && s.removals[op].FromMap? && id in s.removals[op].pending && id in PresentIds(s)
    requires !(step.BeginRemoval? && step.op == op) && !(step.RemoveOne? && step.id == id)
    ensures var s' := Next(s, step);
            && op in s'.removals && s'.removals[op].FromMap? && id in s'.removals[op].pending
            && s'.removals[op].victims == s.removals[op].victims
  {
  }

  ghost predicate NotBegunAgain(steps: seq<Step>, op: nat) {
    forall i :: 0 <= i < |steps| ==> !(steps[i].BeginRemoval? && steps[i].op == op)
  }

  lemma {:induction false} OnItsWayOverRun(s: State, steps: seq<Step>, op: nat, victims: Victims, id: nat)
    requires OnItsWay(s, op, victims, id) && NotBegunAgain(steps, op)
    ensures OnItsWay(Run(s, steps), op, victims, id)
  {
    if steps != [] {
      var n := |steps| - 1;
      OnItsWayOverRun(s, steps[..n], op, victims, id);
      OnItsWayStep(Run(s, steps[..n]), steps[n], op, victims, id);
    }
  }

  /**
   Over every run of all the parties: once a delete or retain that began in a reachable state is done with the map, none
   of the instances that were in the map when it began, and that it hits, is there any more.
   */
  lemma RemovalIsComplete(before: seq<Step>, op: nat, victims: Victims, steps: seq<Step>, id: nat)
    requires op !in Run(INIT, before).removals && NotBegunAgain(steps, op)
    requires id in PresentIds(Run(INIT, before)) && Hits(victims, id)
    ensures var s := Run(Next(Run(INIT, before), BeginRemoval(op, victims)), steps);
            op !in s.removals || s.removals[op].FromErrors? ==> id !in PresentIds(s)
  {
    InvOverRuns(before);
    var s := Run(INIT, before);
    assert ChainInv(s.instances[id]);
    var begun := Next(s, BeginRemoval(op, victims));
    assert OnItsWay(begun, op, victims, id);
    OnItsWayOverRun(begun, steps, op, victims, id);
  }

  function RemoveSteps(op: nat, ids: seq<nat>): seq<Step> {
    seq(|ids|, i requires 0 <= i < |ids| => RemoveOne(op, ids[i]))
  }

  /** The map without some of its instances. */
  function Without(instances: map<nat, Instance>, ids: set<nat>): map<nat, Instance> {
    map id | id in instances :: if id in ids then instances[id].(present := false) else instances[id]
  }

  lemma RemoveAnother(s: State, op: nat, r: Removal, gone: set<nat>, id: nat, was: State)
    requires op in was.removals && r == was.removals[op] && r.FromMap? && Hits(r.victims, id)
    requires id in PresentIds(was) && was.instances[id].thread == Ended && id !in gone
    requires s == was.(instances := Without(was.instances, gone), removals := was.removals[op := r.(pending := r.pending - gone)])
    ensures Next(s, RemoveOne(op, id)) ==
              was.(instances := Without(was.instances, gone + {id}), removals := was.removals[op := r.(pending := r.pending - (gone + {id}))])
  {
    assert s.instances[id] == was.instances[id];
    assert s.instances[id := s.instances[id].(present := false)] == Without(was.instances, gone + {id});
    assert r.pending - gone - {id} == r.pending - (gone + {id});
  }

  lemma {:induction false} RemoveRun(s: State, op: nat, ids: seq<nat>)
    requires op in s.removals && s.removals[op].FromMap?
    requires forall i :: 0 <= i < |ids| ==> ids[i] in PresentIds(s) && s.instances[ids[i]].thread == Ended && Hits(s.removals[op].victims, ids[i])
    requires forall i, j :: 0 <= i < j < |ids| ==> ids[i] != ids[j]
    ensures var r := s.removals[op];
            Run(s, RemoveSteps(op, ids)) ==
              s.(instances := Without(s.instances, Elements(ids)), removals := s.removals[op := r.(pending := r.pending - Elements(ids))])
  {
    var r := s.removals[op];
    if ids == [] {
      assert Elements(ids) == {};
      assert Without(s.instances, {}) == s.instances;
      assert r.pending - {} == r.pending;
      assert s.removals[op := r] == s.removals;
    } else {
      var n := |ids| - 1;
      RemoveRun(s, op, ids[..n]);
      assert RemoveSteps(op, ids)[..n] == RemoveSteps(op, ids[..n]);
      assert Elements(ids) == Elements(ids[..n]) + {ids[n]};
      assert ids[n] !in Elements(ids[..n]);
      RemoveAnother(Run(s, RemoveSteps(op, ids[..n])), op, r, Elements(ids[..n]), ids[n], s);
    }
  }

  /** Once nothing it waits for is in the map, the removal drops the messages of its victims and is over. */
  lemma RemovalEnds(s: State, op: nat, victims: Victims)
    requires op in s.removals && s.removals[op] == FromMap(victims, {})
    ensures Next(Next(s, LeaveMap(op)), CleanErrors(op)) ==
              s.(removals := s.removals - {op}, errors := set e | e in s.errors && !Hits(victims, e))
  {
    var left := Next(s, LeaveMap(op));
    assert left == s.(removals := s.removals[op := FromErrors(victims)]);
    assert left.removals - {op} == s.removals - {op};
  }

  /**
   A whole undisturbed delete or retain of instances whose threads have ended: exactly its victims leave the map, exactly
   their messages are dropped, and nothing else changes.
   */
  lemma RemovalPass(s: State, op: nat, victims: Victims, ids: seq<nat>)
    requires op !in s.removals
    requires Elements(ids) == (set id | id in PresentIds(s) && Hits(victims, id))
    requires forall i, j :: 0 <= i < j < |ids| ==> ids[i] != ids[j]
    requires forall id :: id in ids && id in s.instances ==> s.instances[id].thread == Ended
    ensures var end := Next(Next(Run(Next(s, BeginRemoval(op, victims)), RemoveSteps(op, ids)), LeaveMap(op)), CleanErrors(op));
            && end == s.(instances := end.instances, errors := end.errors)
            && PresentIds(end) == (set id | id in PresentIds(s) && !Hits(victims, id))
            && end.errors == (set e | e in s.errors && !Hits(victims, e))
  {
    var hit := set id | id in PresentIds(s) && Hits(victims, id);
    var begun := Next(s, BeginRemoval(op, victims));
    assert begun.removals[op] == FromMap(victims, hit);
    forall i | 0 <= i < |ids| ensures ids[i] in PresentIds(begun) && begun.instances[ids[i]].thread == Ended && Hits(victims, ids[i]) {
      assert ids[i] in Elements(ids);
    }
    RemoveRun(begun, op, ids);
    var removed := Run(begun, RemoveSteps(op, ids));
    assert hit - Elements(ids) == {};
    RemovalEnds(removed, op, victims);
    assert removed.removals - {op} == s.removals;
  }
}
