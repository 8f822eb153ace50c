/**
 Two runs in which `wait` stays blocked for good although nothing runs: an instance that is not watched,
 and an instance that is deleted before its watcher is started.
 */
module LifecycleHazards {
  import opened Wrappers
  import opened InstanceLifecycle
  import opened LifecycleRuns

  /** `wait` is blocked, nothing runs, and no step of the chain it depends on is left. */
  ghost predicate Stuck(s: State) {
    s.waiter.Blocked? && Quiet(s) && !s.permit && Pending(s, s.waiter.cause).None?
  }

  /** From here `wait` sleeps through every run in which no other party posts. */
  ghost predicate SleepsOn(s: State) {
    forall steps: seq<Step> | forall i :: 0 <= i < |steps| ==> PostsNothing(steps[i], SawInstance(1)) ::
      Run(s, steps).waiter == Blocked(SawInstance(1)) && !Run(s, steps).permit
  }

  lemma StuckSleepsOn(steps: seq<Step>, s: State)
    requires Run(INIT, steps) == s && Stuck(s) && s.waiter.cause == SawInstance(1) && Doomed(s, SawInstance(1))
    ensures Stuck(Run(INIT, steps)) && SleepsOn(Run(INIT, steps))
  {
    InvOverRuns(steps);
    forall more: seq<Step> | forall i :: 0 <= i < |more| ==> PostsNothing(more[i], SawInstance(1))
      ensures Run(s, more).waiter == Blocked(SawInstance(1)) && !Run(s, more).permit
    {
      SleepsForGood(s, more);
    }
  }

  function Launched(watcher: Watcher, waiter: Waiter): State {
    State(map[1 := Instance(Running, false, false, true, true, watcher)], {}, map[], map[], false, waiter)
  }

  function Begin(watch: bool): seq<Step> {
    [Launch(1, watch)] + [Insert(1)]
  }

  function Start(watch: bool): seq<Step> {
    Begin(watch) + [ScanStart] + [ScanOne(1)] + [CheckGuards(0)]
  }

  /** Extend a run by a step whose effect is known. */
  lemma Then(steps: seq<Step>, step: Step, s: State, s': State)
    requires Run(INIT, steps) == s && Next(s, step) == s'
    ensures Run(INIT, steps + [step]) == s'
  {
    var all := steps + [step];
    assert all[..|all| - 1] == steps;
  }

  lemma InstanceStarts(watch: bool)
    ensures Run(INIT, Begin(watch)) == Launched(if watch then NotSpawned else Absent, Idle)
  {
    var w := if watch then NotSpawned else Absent;
    var s := INIT.(instances := map[1 := Instance(Running, false, false, false, false, w)]);
    assert [Launch(1, watch)] == [] + [Launch(1, watch)];
    Then([], Launch(1, watch), INIT, s);
    Then([Launch(1, watch)], Insert(1), s, Launched(w, Idle));
  }

  lemma WaitSteps(w: Watcher)
    ensures Next(Launched(w, Idle), ScanStart) == Launched(w, Scanning({1}, {1}))
    ensures Next(Launched(w, Scanning({1}, {1})), ScanOne(1)) == Launched(w, Scanned({1}, Some(1)))
  {
    assert PresentIds(Launched(w, Idle)) == {1};
  }

  lemma WaitBlocks(w: Watcher)
    ensures Next(Launched(w, Scanned({1}, Some(1))), CheckGuards(0)) == Launched(w, Blocked(SawInstance(1)))
  {
  }

  /** An instance is started, and `wait` sees it running and blocks. */
  lemma WaitSeesInstance(watch: bool)
    ensures Run(INIT, Start(watch)) == Launched(if watch then NotSpawned else Absent, Blocked(SawInstance(1)))
  {
    var w := if watch then NotSpawned else Absent;
    InstanceStarts(watch);
    WaitSteps(w);
    WaitBlocks(w);
    var a := Begin(watch);
    var b := a + [ScanStart];
    var c := b + [ScanOne(1)];
    Then(a, ScanStart, Launched(w, Idle), Launched(w, Scanning({1}, {1})));
    Then(b, ScanOne(1), Launched(w, Scanning({1}, {1})), Launched(w, Scanned({1}, Some(1))));
    Then(c, CheckGuards(0), Launched(w, Scanned({1}, Some(1))), Launched(w, Blocked(SawInstance(1))));
  }

  function Silent(thread: Thread): State {
    Launched(Absent, Blocked(SawInstance(1))).(instances := map[1 := Instance(thread, true, thread == Ended, true, true, Absent)])
  }

  function UnwatchedSteps(): seq<Step> {
    Start(false) + [ThreadClear(1, true)] + [ThreadNotify(1)]
  }

  lemma UnwatchedRun()
    ensures Run(INIT, UnwatchedSteps()) == Silent(Ended)
  {
    WaitSeesInstance(false);
    Then(Start(false), ThreadClear(1, true), Launched(Absent, Blocked(SawInstance(1))), Silent(Cleared));
    Then(Start(false) + [ThreadClear(1, true)], ThreadNotify(1), Silent(Cleared), Silent(Ended));
  }

  lemma SilentIsStuck()
    ensures Stuck(Silent(Ended)) && Doomed(Silent(Ended), SawInstance(1))
  {
  }

  /** Without a watcher nobody tells `wait` that the last instance stopped. */
  lemma UnwatchedHazard()
    ensures Stuck(Run(INIT, UnwatchedSteps())) && SleepsOn(Run(INIT, UnwatchedSteps()))
  {
    UnwatchedRun();
    SilentIsStuck();
    StuckSleepsOn(UnwatchedSteps(), Silent(Ended));
  }

  function Dying(thread: Thread, stopPermit: bool, present: bool, watcher: Watcher, pending: set<nat>): State {
    State(map[1 := Instance(thread, false, stopPermit, true, present, watcher)], {}, map[0 := FromMap(These({1}), pending)],
          map[], false, Blocked(SawInstance(1)))
  }

  lemma DeleteBegins()
    ensures Next(Launched(NotSpawned, Blocked(SawInstance(1))), BeginRemoval(0, These({1}))) == Dying(Running, false, true, NotSpawned, {1})
  {
    var s := Launched(NotSpawned, Blocked(SawInstance(1)));
    assert (set id | id in PresentIds(s) && Hits(These({1}), id)) == {1};
  }

  lemma DeleteRemoves()
    ensures Next(Dying(Ended, true, true, NotSpawned, {1}), RemoveOne(0, 1)) == Dying(Ended, true, false, NotSpawned, {})
  {
    var s := Dying(Ended, true, true, NotSpawned, {1});
    assert s.removals[0].pending - {1} == {};
    assert Next(s, RemoveOne(0, 1)).removals == map[0 := FromMap(These({1}), {})];
  }

  lemma DyingSteps()
    ensures Next(Dying(Running, false, true, NotSpawned, {1}), ThreadClear(1, false)) == Dying(Cleared, false, true, NotSpawned, {1})
    ensures Next(Dying(Cleared, false, true, NotSpawned, {1}), ThreadNotify(1)) == Dying(Ended, true, true, NotSpawned, {1})
    ensures Next(Dying(Ended, true, false, NotSpawned, {}), Spawn(1)) == Dying(Ended, true, false, Absent, {})
  {
  }

  function RacingSteps(): seq<Step> {
    Start(true) + [BeginRemoval(0, These({1}))] + [ThreadClear(1, false)] + [ThreadNotify(1)] + [RemoveOne(0, 1)] + [Spawn(1)]
  }

  lemma RacingRun()
    ensures Run(INIT, RacingSteps()) == Dying(Ended, true, false, Absent, {})
  {
    WaitSeesInstance(true);
    DeleteBegins();
    DyingSteps();
    DeleteRemoves();
    var a := Start(true);
    var b := a + [BeginRemoval(0, These({1}))];
    var c := b + [ThreadClear(1, false)];
    var d := c + [ThreadNotify(1)];
    var e := d + [RemoveOne(0, 1)];
    Then(a, BeginRemoval(0, These({1})), Launched(NotSpawned, Blocked(SawInstance(1))), Dying(Running, false, true, NotSpawned, {1}));
    Then(b, ThreadClear(1, false), Dying(Running, false, true, NotSpawned, {1}), Dying(Cleared, false, true, NotSpawned, {1}));
    Then(c, ThreadNotify(1), Dying(Cleared, false, true, NotSpawned, {1}), Dying(Ended, true, true, NotSpawned, {1}));
    Then(d, RemoveOne(0, 1), Dying(Ended, true, true, NotSpawned, {1}), Dying(Ended, true, false, NotSpawned, {}));
    Then(e, Spawn(1), Dying(Ended, true, false, NotSpawned, {}), Dying(Ended, true, false, Absent, {}));
  }

  lemma DyingIsStuck()
    ensures Stuck(Dying(Ended, true, false, Absent, {})) && Doomed(Dying(Ended, true, false, Absent, {}), SawInstance(1))
  {
  }

  /** A delete that slips in between inserting an instance and starting its watcher loses the wakeup. */
  lemma RacingDeleteHazard()
    ensures Stuck(Run(INIT, RacingSteps())) && SleepsOn(Run(INIT, RacingSteps()))
  {
    RacingRun();
    DyingIsStuck();
    StuckSleepsOn(RacingSteps(), Dying(Ended, true, false, Absent, {}));
  }
}
