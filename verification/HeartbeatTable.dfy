/**
 What a heartbeat leaves in the table: one that reconciles undisturbed leaves exactly the configs of the revision it
 records.
 */
module HeartbeatTable {
  import opened Wrappers
  import opened ConfigTable
  import opened WebReconcile
  import opened HeartbeatSession

  function RunFrom(cfg: Settings, s: State, steps: seq<Step>): State {
    if steps == [] then s
    else Next(cfg, RunFrom(cfg, s, steps[..|steps| - 1]), steps[|steps| - 1])
  }

  // ---------------------------------------------------------------- a plan that is being written

  /** A web-owned, enabled row with the planned config, created when the row before it was. */
  ghost predicate Holds(t: Table, t': Table, k: Key, config: NetworkConfig) {
    && k in t' && FromDb(t'[k].source) == Web && !t'[k].disabled && t'[k].config == Encoded(config)
    && (k in t ==> t'[k].createTime == t[k].createTime)
  }

  predicate Unchanged(t: Table, t': Table, k: Key) {
    (k in t' <==> k in t) && (k in t ==> t'[k] == t[k])
  }

  /** Everything planned except `todo` is written, and nothing else is touched. */
  ghost predicate Partly(t: Table, t': Table, user: int, machine: Uuid, plan: map<Uuid, NetworkConfig>, todo: set<Uuid>) {
    forall k: Key ::
      if InScope(k, user, machine) && k.inst in plan && k.inst !in todo then Holds(t, t', k, plan[k.inst]) else Unchanged(t, t', k)
  }

  lemma PartlyStep(t: Table, t': Table, user: int, machine: Uuid, plan: map<Uuid, NetworkConfig>, todo: set<Uuid>,
                   inst: Uuid, now: int)
    requires Partly(t, t', user, machine, plan, todo) && inst in todo && inst in plan
    ensures Partly(t, Upsert(t', Key(user, machine, inst), plan[inst], Web, now), user, machine, plan, todo - {inst})
  {
    var key := Key(user, machine, inst);
    var t'' := Upsert(t', key, plan[inst], Web, now);
    forall k: Key
      ensures if InScope(k, user, machine) && k.inst in plan && k.inst !in todo - {inst}
              then Holds(t, t'', k, plan[k.inst]) else Unchanged(t, t'', k)
    {
      assert if InScope(k, user, machine) && k.inst in plan && k.inst !in todo
             then Holds(t, t', k, plan[k.inst]) else Unchanged(t, t', k);
      if k != key {
        assert (k in t'' <==> k in t') && (k in t' ==> t''[k] == t'[k]);
      }
    }
  }

  lemma FinishedAt(t: Table, t': Table, user: int, machine: Uuid, plan: map<Uuid, NetworkConfig>, k: Key)
    requires Partly(t, t', user, machine, plan, {})
    ensures var stale := WebSourced(ScopeSources(t, user, machine)) - plan.Keys;
            var t'' := DeleteMany(t', user, machine, stale);
            RowFinished(t, t'', user, machine, plan, k)
  {
    assert if InScope(k, user, machine) && k.inst in plan && k.inst !in {}
           then Holds(t, t', k, plan[k.inst]) else Unchanged(t, t', k);
    if InScope(k, user, machine) {
      assert k == Key(user, machine, k.inst);
      assert k.inst in ScopeSources(t, user, machine) <==> k in t;
    }
  }

  /** One row of the finished table. */
  ghost predicate RowFinished(t: Table, t': Table, user: int, machine: Uuid, plan: map<Uuid, NetworkConfig>, k: Key) {
    if InScope(k, user, machine) && k.inst in plan then Holds(t, t', k, plan[k.inst])
    else if InScope(k, user, machine) && k in t && FromDb(t[k].source) == Web then k !in t'
    else Unchanged(t, t', k)
  }

  lemma FinishedWebIds(t: Table, t': Table, user: int, machine: Uuid, plan: map<Uuid, NetworkConfig>)
    requires forall k: Key :: RowFinished(t, t', user, machine, plan, k)
    ensures ScopeWebIds(t', user, machine) == plan.Keys
  {
    forall id ensures id in ScopeWebIds(t', user, machine) <==> id in plan {
      var k := Key(user, machine, id);
      assert RowFinished(t, t', user, machine, plan, k);
      assert k.inst == id;
    }
  }

  lemma FinishedProtects(t: Table, t': Table, user: int, machine: Uuid, plan: map<Uuid, NetworkConfig>)
    requires forall k: Key :: RowFinished(t, t', user, machine, plan, k)
    requires forall id :: id in plan ==> !UserOwned(t, user, machine, id)
    ensures Protected(t, t', user, machine)
  {
    forall k | k in t.Keys + t'.Keys && (!InScope(k, user, machine) || UserOwned(t, user, machine, k.inst))
      ensures k in t && k in t' && t'[k] == t[k]
    {
      assert RowFinished(t, t', user, machine, plan, k);
      if InScope(k, user, machine) { assert k == Key(user, machine, k.inst); }
    }
  }

  lemma FinishedHolds(lib: Library, t: Table, t': Table, user: int, machine: Uuid, plan: map<Uuid, NetworkConfig>,
                      desired: seq<ManagedConfig>, id: Uuid)
    requires id in plan && RowFinished(t, t', user, machine, plan, Key(user, machine, id)) && Explained(lib, desired, id, plan[id])
    ensures HoldsLast(lib, t, t', user, machine, desired, id)
  {
  }

  lemma RowsFinishedIsExact(lib: Library, t: Table, t': Table, user: int, machine: Uuid, plan: map<Uuid, NetworkConfig>,
                            desired: seq<ManagedConfig>)
    requires Plan(lib, ScopeSources(t, user, machine), desired) == Some(plan)
    requires forall k: Key :: RowFinished(t, t', user, machine, plan, k)
    ensures Exact(lib, t, t', user, machine, desired)
  {
    PlanMeaning(lib, ScopeSources(t, user, machine), desired);
    OwnersAgree(t, user, machine);
    FinishedWebIds(t, t', user, machine, plan);
    FinishedProtects(t, t', user, machine, plan);
    forall id | id in plan ensures HoldsLast(lib, t, t', user, machine, desired, id) {
      FinishedHolds(lib, t, t', user, machine, plan, desired, id);
    }
    FinishedOwners(t, t', user, machine, plan);
  }

  lemma FinishedOwners(t: Table, t': Table, user: int, machine: Uuid, plan: map<Uuid, NetworkConfig>)
    requires forall k: Key :: RowFinished(t, t', user, machine, plan, k)
    ensures NoNewOwners(t, t', user, machine)
  {
    forall id | UserOwned(t', user, machine, id) ensures UserOwned(t, user, machine, id) {
      assert RowFinished(t, t', user, machine, plan, Key(user, machine, id));
    }
  }

  /** A plan that is written in full, with the stale rows deleted, is an exact reconcile. */
  lemma FinishedIsExact(lib: Library, t: Table, t': Table, user: int, machine: Uuid, plan: map<Uuid, NetworkConfig>,
                        desired: seq<ManagedConfig>)
    requires Plan(lib, ScopeSources(t, user, machine), desired) == Some(plan) && Partly(t, t', user, machine, plan, {})
    ensures var stale := WebSourced(ScopeSources(t, user, machine)) - plan.Keys;
            Exact(lib, t, DeleteMany(t', user, machine, stale), user, machine, desired)
  {
    var t'' := DeleteMany(t', user, machine, WebSourced(ScopeSources(t, user, machine)) - plan.Keys);
    forall k: Key ensures RowFinished(t, t'', user, machine, plan, k) {
      FinishedAt(t, t', user, machine, plan, k);
    }
    RowsFinishedIsExact(lib, t, t'', user, machine, plan, desired);
  }

  // ---------------------------------------------------------------- an undisturbed heartbeat

  /** The configs a task reconciles. */
  function ConfigsOf(info: Resolution): seq<ManagedConfig> {
    if info.response.None? then [] else ManagedConfigsForRevision(info.applied, info.response.value).GetOr([])
  }

  /** The reconcile that a task with this information begins on table `t`. */
  ghost predicate Plans(lib: Library, t: Table, info: Resolution, plan: map<Uuid, NetworkConfig>, stale: set<Uuid>) {
    var sources := ScopeSources(t, info.user, info.machine);
    Plan(lib, sources, ConfigsOf(info)) == Some(plan) && stale == WebSourced(sources) - plan.Keys
  }

  ghost predicate ExactFor(lib: Library, t: Table, t': Table, info: Resolution) {
    Exact(lib, t, t', info.user, info.machine, ConfigsOf(info))
  }

  /** How far a task is with the reconcile of `plan` and `stale` that it began on table `t`. */
  ghost predicate Phase(lib: Library, t: Table, info: Resolution, plan: map<Uuid, NetworkConfig>, stale: set<Uuid>,
                        now: Table, task: Task)
  {
    match task
    case Writing(info', todo, stale') =>
      && info' == info && stale' == stale && PartOf(todo, plan)
      && Partly(t, now, info.user, info.machine, plan, todo.Keys)
    case Ready(info', reconciled) => info' == info && reconciled && ExactFor(lib, t, now, info)
    case Finished(_) => true
    case _ => false
  }

  lemma BeginStarts(cfg: Settings, s: State, id: nat, info: Resolution) returns (plan: map<Uuid, NetworkConfig>, stale: set<Uuid>)
    requires ShouldReconcile(info)
    ensures var s' := OnBegin(cfg, s, id, info, true);
            && s'.table == s.table && (s'.tasks[id].Writing? || s'.tasks[id].Finished?)
            && (s'.tasks[id].Writing? ==>
                  Plans(cfg.lib, s.table, info, plan, stale) && Phase(cfg.lib, s.table, info, plan, stale, s.table, s'.tasks[id]))
  {
    var s' := OnBegin(cfg, s, id, info, true);
    plan, stale := map[], {};
    if s'.tasks[id].Writing? {
      plan, stale := s'.tasks[id].plan, s'.tasks[id].stale;
      assert Partly(s.table, s.table, info.user, info.machine, plan, plan.Keys);
    }
  }

  lemma WriteKeepsPhase(lib: Library, t: Table, info: Resolution, plan: map<Uuid, NetworkConfig>, stale: set<Uuid>,
                        s: State, id: nat, task: Task, inst: Uuid, ok: bool, now: int)
    requires task.Writing? && Phase(lib, t, info, plan, stale, s.table, task) && id in s.tasks && s.tasks[id] == task
    ensures var s' := OnWrite(s, id, task, inst, ok, now);
            id in s'.tasks && Phase(lib, t, info, plan, stale, s'.table, s'.tasks[id])
  {
    if inst in task.plan && ok {
      PartlyStep(t, s.table, info.user, info.machine, plan, task.plan.Keys, inst, now);
      assert (task.plan - {inst}).Keys == task.plan.Keys - {inst};
    }
  }

  lemma DeleteKeepsPhase(lib: Library, t: Table, info: Resolution, plan: map<Uuid, NetworkConfig>, stale: set<Uuid>,
                         s: State, id: nat, task: Task, ok: bool)
    requires Plans(lib, t, info, plan, stale)
    requires task.Writing? && Phase(lib, t, info, plan, stale, s.table, task) && id in s.tasks && s.tasks[id] == task
    ensures var s' := OnDelete(s, id, task, ok);
            id in s'.tasks && Phase(lib, t, info, plan, stale, s'.table, s'.tasks[id])
  {
    if task.plan == map[] {
      assert task.plan.Keys == {};
      FinishedIsExact(lib, t, s.table, info.user, info.machine, plan, ConfigsOf(info));
      assert ExactFor(lib, t, DeleteMany(s.table, info.user, info.machine, stale), info);
    }
  }

  /** A task that has begun its reconcile takes only the steps that follow. */
  lemma LateTaskIgnores(cfg: Settings, s: State, id: nat, step: Step)
    requires !step.Edit? && step.id == id && id in s.tasks
    requires s.tasks[id].Writing? || s.tasks[id].Ready? || s.tasks[id].Finished?
    requires !(s.tasks[id].Writing? && (step.WriteOne? || step.DeleteStale?)) && !(s.tasks[id].Ready? && step.Commit?)
    ensures Next(cfg, s, step) == s
  {
  }

  lemma OwnStepKeepsPhase(cfg: Settings, t: Table, info: Resolution, plan: map<Uuid, NetworkConfig>, stale: set<Uuid>,
                          s: State, id: nat, step: Step)
    requires Plans(cfg.lib, t, info, plan, stale) && !step.Edit? && step.id == id
    requires id in s.tasks && Phase(cfg.lib, t, info, plan, stale, s.table, s.tasks[id])
    ensures var s' := Next(cfg, s, step);
            id in s'.tasks && Phase(cfg.lib, t, info, plan, stale, s'.table, s'.tasks[id])
  {
    var task := s.tasks[id];
    if task.Writing? && step.WriteOne? {
      WriteKeepsPhase(cfg.lib, t, info, plan, stale, s, id, task, step.inst, step.ok, step.now);
      assert Next(cfg, s, step) == OnWrite(s, id, task, step.inst, step.ok, step.now);
    } else if task.Writing? && step.DeleteStale? {
      DeleteKeepsPhase(cfg.lib, t, info, plan, stale, s, id, task, step.ok);
      assert Next(cfg, s, step) == OnDelete(s, id, task, step.ok);
    } else if task.Ready? && step.Commit? {
      CommitFinishes(cfg, s, id);
    } else {
      LateTaskIgnores(cfg, s, id, step);
    }
  }

  lemma CommitFinishes(cfg: Settings, s: State, id: nat)
    requires id in s.tasks && s.tasks[id].Ready?
    ensures id in Next(cfg, s, Commit(id)).tasks && Next(cfg, s, Commit(id)).tasks[id].Finished?
  {
  }

  /** Nobody but task `id` changes the table in the steps. */
  ghost predicate Undisturbed(cfg: Settings, s: State, steps: seq<Step>, id: nat) {
    forall i :: 0 <= i < |steps| && (steps[i].Edit? || steps[i].id != id) ==>
      Next(cfg, RunFrom(cfg, s, steps[..i]), steps[i]).table == RunFrom(cfg, s, steps[..i]).table
  }

  lemma UndisturbedPrefix(cfg: Settings, s: State, steps: seq<Step>, id: nat)
    requires steps != [] && Undisturbed(cfg, s, steps, id)
    ensures Undisturbed(cfg, s, steps[..|steps| - 1], id)
  {
    var init := steps[..|steps| - 1];
    assert forall i :: 0 <= i < |init| ==> init[..i] == steps[..i] && init[i] == steps[i];
  }

  lemma {:induction false} PhaseOverRun(cfg: Settings, t: Table, info: Resolution, plan: map<Uuid, NetworkConfig>,
                                        stale: set<Uuid>, s: State, id: nat, steps: seq<Step>)
    requires Plans(cfg.lib, t, info, plan, stale) && Undisturbed(cfg, s, steps, id)
    requires id in s.tasks && Phase(cfg.lib, t, info, plan, stale, s.table, s.tasks[id])
    ensures var s' := RunFrom(cfg, s, steps);
            id in s'.tasks && Phase(cfg.lib, t, info, plan, stale, s'.table, s'.tasks[id])
  {
    if steps != [] {
      var n := |steps| - 1;
      UndisturbedPrefix(cfg, s, steps, id);
      PhaseOverRun(cfg, t, info, plan, stale, s, id, steps[..n]);
      var before := RunFrom(cfg, s, steps[..n]);
      if !steps[n].Edit? && steps[n].id == id {
        OwnStepKeepsPhase(cfg, t, info, plan, stale, before, id, steps[n]);
      } else {
        OtherTasksUntouched(cfg, before, steps[n], id);
      }
    }
  }

  /** A task that began its reconcile in `s` and was not disturbed in the table is ready only with an exact one. */
  lemma UndisturbedIsExact(cfg: Settings, s: State, id: nat, steps: seq<Step>)
    requires id in s.tasks && s.tasks[id].Resolved? && ShouldReconcile(s.tasks[id].info)
    requires Undisturbed(cfg, Next(cfg, s, BeginReconcile(id, true)), steps, id)
    ensures var info := s.tasks[id].info;
            var ready := RunFrom(cfg, Next(cfg, s, BeginReconcile(id, true)), steps);
            id in ready.tasks && ready.tasks[id].Ready? ==>
              ready.tasks[id] == Ready(info, true) && ExactFor(cfg.lib, s.table, ready.table, info)
  {
    var begun := Next(cfg, s, BeginReconcile(id, true));
    var plan, stale := BeginStarts(cfg, s, id, s.tasks[id].info);
    if begun.tasks[id].Writing? {
      PhaseOverRun(cfg, s.table, s.tasks[id].info, plan, stale, begun, id, steps);
    } else {
      FinishedStays(cfg, begun, id, steps);
    }
  }

  /**
   A heartbeat that begins its reconcile in `s`, is not disturbed in the table, and then commits: the recorded
   revision is that of its response, and the table is an exact reconcile of that response's configs.
   */
  lemma UndisturbedCommit(cfg: Settings, s: State, id: nat, steps: seq<Step>)
    requires id in s.tasks && s.tasks[id].Resolved? && ShouldReconcile(s.tasks[id].info)
    requires Undisturbed(cfg, Next(cfg, s, BeginReconcile(id, true)), steps, id)
    ensures var info := s.tasks[id].info;
            var ready := RunFrom(cfg, Next(cfg, s, BeginReconcile(id, true)), steps);
            var end := Next(cfg, ready, Commit(id));
            id in ready.tasks && ready.tasks[id].Ready? ==>
              && end.applied == Some(info.response.value.revision)
              && ExactFor(cfg.lib, s.table, end.table, info)
  {
    UndisturbedIsExact(cfg, s, id, steps);
    var ready := RunFrom(cfg, Next(cfg, s, BeginReconcile(id, true)), steps);
    if id in ready.tasks && ready.tasks[id].Ready? {
      CommitRecords(cfg, ready, id);
    }
  }

  lemma {:induction false} FinishedStays(cfg: Settings, s: State, id: nat, steps: seq<Step>)
    requires id in s.tasks && s.tasks[id].Finished?
    ensures id in RunFrom(cfg, s, steps).tasks && RunFrom(cfg, s, steps).tasks[id].Finished?
  {
    if steps != [] {
      var n := |steps| - 1;
      FinishedStays(cfg, s, id, steps[..n]);
      if steps[n].Edit? || steps[n].id != id {
        OtherTasksUntouched(cfg, RunFrom(cfg, s, steps[..n]), steps[n], id);
      }
    }
  }

  lemma CommitRecords(cfg: Settings, s: State, id: nat)
    requires id in s.tasks && s.tasks[id].Ready? && s.tasks[id].reconciled && s.tasks[id].info.response.Some?
    ensures var s' := Next(cfg, s, Commit(id));
            && s'.applied == Some(s.tasks[id].info.response.value.revision) && s'.table == s.table
            && (forall other :: other in s.tasks && other != id ==> other in s'.tasks && s'.tasks[other] == s.tasks[other])
  {
  }
}
