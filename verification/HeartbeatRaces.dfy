/**
 What the recorded revision of a session says about the table when heartbeats race: each row follows whoever touched
 it last, the revision follows whoever committed last, and the two agree exactly when these want the same.
 */
module HeartbeatRaces {
  import opened Wrappers
  import opened ConfigTable
  import opened WebReconcile
  import opened HeartbeatSession
  import opened HeartbeatTable

  // ---------------------------------------------------------------- who touched a row last

  /** What a step does to one row. */
  datatype Touch = Stores(writer: nat, config: NetworkConfig) | Drops(writer: nat) | Edits(row: Option<Row>)

  predicate IsWriting(s: State, id: nat) {
    id in s.tasks && s.tasks[id].Writing?
  }

  function ScopedKey(task: Task, inst: Uuid): Key
    requires task.Writing?
  {
    Key(task.info.user, task.info.machine, inst)
  }

  /** The touch of row `k` by a step, if it touches it. */
  function TouchOf(s: State, step: Step, k: Key): Option<Touch> {
    match step
    case Edit(t) => Some(Edits(RowOf(t, k)))
    case WriteOne(id, inst, ok, _) =>
      if IsWriting(s, id) && ok && inst in s.tasks[id].plan && k == ScopedKey(s.tasks[id], inst)
      then Some(Stores(id, s.tasks[id].plan[inst])) else None
    case DeleteStale(id, ok) =>
      if IsWriting(s, id) && s.tasks[id].plan == map[] && ok && k.inst in s.tasks[id].stale && k == ScopedKey(s.tasks[id], k.inst)
      then Some(Drops(id)) else None
    case _ => None
  }

  function LastTouch(cfg: Settings, s: State, steps: seq<Step>, k: Key): Option<Touch> {
    if steps == [] then None
    else
      var n := |steps| - 1;
      var touch := TouchOf(RunFrom(cfg, s, steps[..n]), steps[n], k);
      if touch.Some? then touch else LastTouch(cfg, s, steps[..n], k)
  }

  /** A web-owned, enabled row with a config. */
  predicate HasConfig(row: Option<Row>, config: NetworkConfig) {
    row.Some? && FromDb(row.value.source) == Web && !row.value.disabled && row.value.config == Encoded(config)
  }

  /** The row that a touch leaves. */
  predicate Leaves(touch: Touch, row: Option<Row>) {
    match touch
    case Stores(_, config) => HasConfig(row, config)
    case Drops(_) => row.None?
    case Edits(r) => row == r
  }

  lemma WriteTouches(s: State, id: nat, inst: Uuid, ok: bool, now: int, k: Key)
    requires IsWriting(s, id)
    ensures var row := RowOf(OnWrite(s, id, s.tasks[id], inst, ok, now).table, k);
            match TouchOf(s, WriteOne(id, inst, ok, now), k)
            case Some(touch) => Leaves(touch, row)
            case None => row == RowOf(s.table, k)
  {
  }

  lemma DeleteTouches(s: State, id: nat, ok: bool, k: Key)
    requires IsWriting(s, id)
    ensures var row := RowOf(OnDelete(s, id, s.tasks[id], ok).table, k);
            match TouchOf(s, DeleteStale(id, ok), k)
            case Some(touch) => Leaves(touch, row)
            case None => row == RowOf(s.table, k)
  {
  }

  /** A step that is neither an edit nor a statement of a writing task leaves the table alone. */
  lemma OtherStepsKeepTable(cfg: Settings, s: State, step: Step)
    requires !step.Edit?
    requires !((step.WriteOne? || step.DeleteStale?) && IsWriting(s, step.id))
    ensures Next(cfg, s, step).table == s.table
  {
    match step
    case Resolve(_, _) =>
    case BeginReconcile(_, _) =>
    case Commit(_) =>
    case _ =>
  }

  lemma StepTouches(cfg: Settings, s: State, step: Step, k: Key)
    ensures var row := RowOf(Next(cfg, s, step).table, k);
            match TouchOf(s, step, k)
            case Some(touch) => Leaves(touch, row)
            case None => row == RowOf(s.table, k)
  {
    if step.WriteOne? && IsWriting(s, step.id) {
      WriteTouches(s, step.id, step.inst, step.ok, step.now, k);
    } else if step.DeleteStale? && IsWriting(s, step.id) {
      DeleteTouches(s, step.id, step.ok, k);
    } else if !step.Edit? {
      OtherStepsKeepTable(cfg, s, step);
    }
  }

  /** Over every run of any tasks and edits, a row is what its last touch left, or what it was. */
  lemma {:induction false} RowFollowsLastTouch(cfg: Settings, s: State, steps: seq<Step>, k: Key)
    ensures var row := RowOf(RunFrom(cfg, s, steps).table, k);
            match LastTouch(cfg, s, steps, k)
            case Some(touch) => Leaves(touch, row)
            case None => row == RowOf(s.table, k)
  {
    if steps != [] {
      var n := |steps| - 1;
      RowFollowsLastTouch(cfg, s, steps[..n], k);
      StepTouches(cfg, RunFrom(cfg, s, steps[..n]), steps[n], k);
    }
  }

  // ---------------------------------------------------------------- who committed last

  /** A commit that records a revision. */
  predicate Records(s: State, step: Step) {
    && step.Commit? && step.id in s.tasks && s.tasks[step.id].Ready? && s.tasks[step.id].reconciled
    && s.tasks[step.id].info.response.Some?
  }

  /** The task whose commit recorded a revision last. */
  function LastRecord(cfg: Settings, s: State, steps: seq<Step>): Option<nat> {
    if steps == [] then None
    else
      var n := |steps| - 1;
      if Records(RunFrom(cfg, s, steps[..n]), steps[n]) then Some(steps[n].id) else LastRecord(cfg, s, steps[..n])
  }

  lemma RecordSets(cfg: Settings, s: State, step: Step)
    ensures Next(cfg, s, step).applied ==
              if Records(s, step) then Some(s.tasks[step.id].info.response.value.revision) else s.applied
  {
    if !step.Commit? {
      QuietStep(cfg, s, step);
    }
  }

  // ---------------------------------------------------------------- a task from its listing to its commit

  /** The task lists a row to be written or deleted. */
  predicate HasOnList(task: Task, k: Key)
    requires task.Writing?
  {
    k == ScopedKey(task, k.inst) && (k.inst in task.plan || k.inst in task.stale)
  }

  /** How far a task is that began as `start`. */
  ghost predicate Follows(start: Task, task: Task)
    requires start.Writing?
  {
    match task
    case Writing(info, todo, stale) => info == start.info && stale == start.stale && PartOf(todo, start.plan)
    case Ready(info, reconciled) => info == start.info && reconciled
    case Finished(_) => true
    case _ => false
  }

  lemma OwnStepFollows(cfg: Settings, s: State, step: Step, start: Task)
    requires start.Writing? && !step.Edit? && step.id in s.tasks && Follows(start, s.tasks[step.id])
    ensures step.id in Next(cfg, s, step).tasks && Follows(start, Next(cfg, s, step).tasks[step.id])
  {
    var task := s.tasks[step.id];
    if task.Writing? && step.WriteOne? {
      assert Next(cfg, s, step) == OnWrite(s, step.id, task, step.inst, step.ok, step.now);
    } else if task.Writing? && step.DeleteStale? {
      assert Next(cfg, s, step) == OnDelete(s, step.id, task, step.ok);
    } else if task.Ready? && step.Commit? {
      CommitFinishes(cfg, s, step.id);
    } else {
      LateTaskIgnores(cfg, s, step.id, step);
    }
  }

  lemma {:induction false} TasksFollow(cfg: Settings, s: State, steps: seq<Step>, id: nat)
    requires IsWriting(s, id)
    ensures var s' := RunFrom(cfg, s, steps); id in s'.tasks && Follows(s.tasks[id], s'.tasks[id])
  {
    if steps != [] {
      var n := |steps| - 1;
      TasksFollow(cfg, s, steps[..n], id);
      var before := RunFrom(cfg, s, steps[..n]);
      if !steps[n].Edit? && steps[n].id == id {
        OwnStepFollows(cfg, before, steps[n], s.tasks[id]);
      } else {
        OtherTasksUntouched(cfg, before, steps[n], id);
      }
    }
  }

  /** A row that the task lists has been touched, unless the task has yet to write or delete it. */
  ghost predicate Covered(cfg: Settings, s: State, steps: seq<Step>, id: nat, k: Key)
    requires IsWriting(s, id)
  {
    var s' := RunFrom(cfg, s, steps);
    && (IsWriting(s', id) && k.inst in s.tasks[id].plan && k.inst !in s'.tasks[id].plan ==> LastTouch(cfg, s, steps, k).Some?)
    && (id in s'.tasks && s'.tasks[id].Ready? ==> LastTouch(cfg, s, steps, k).Some?)
    && (LastRecord(cfg, s, steps) == Some(id) ==> LastTouch(cfg, s, steps, k).Some?)
  }

  /** A task that commits has touched every row it lists. */
  lemma {:induction false} CommittedCovers(cfg: Settings, s: State, steps: seq<Step>, id: nat, k: Key)
    requires IsWriting(s, id) && HasOnList(s.tasks[id], k)
    ensures Covered(cfg, s, steps, id, k)
  {
    if steps != [] {
      var n := |steps| - 1;
      CommittedCovers(cfg, s, steps[..n], id, k);
      TasksFollow(cfg, s, steps[..n], id);
      CoveredStep(cfg, s, steps, id, k);
    }
  }

  lemma CoveredStep(cfg: Settings, s: State, steps: seq<Step>, id: nat, k: Key)
    requires steps != [] && IsWriting(s, id) && HasOnList(s.tasks[id], k)
    requires Covered(cfg, s, steps[..|steps| - 1], id, k)
    requires var before := RunFrom(cfg, s, steps[..|steps| - 1]);
             id in before.tasks && Follows(s.tasks[id], before.tasks[id])
    ensures Covered(cfg, s, steps, id, k)
  {
    var n := |steps| - 1;
    var before, step := RunFrom(cfg, s, steps[..n]), steps[n];
    if step.Edit? || step.id != id {
      OtherTasksUntouched(cfg, before, step, id);
    } else {
      OwnStepCovers(cfg, s.tasks[id], before, step, k);
    }
  }

  /** What the task's own step brings about for a row it lists. */
  lemma OwnStepCovers(cfg: Settings, start: Task, s: State, step: Step, k: Key)
    requires start.Writing? && HasOnList(start, k) && !step.Edit? && step.id in s.tasks && Follows(start, s.tasks[step.id])
    ensures var s' := Next(cfg, s, step);
            var id := step.id;
            && (IsWriting(s', id) ==> IsWriting(s, id))
            && (IsWriting(s', id) && k.inst in s.tasks[id].plan && k.inst !in s'.tasks[id].plan ==> TouchOf(s, step, k).Some?)
            && (id in s'.tasks && s'.tasks[id].Ready? ==>
                  || s.tasks[id].Ready?
                  || (IsWriting(s, id) && s.tasks[id].plan == map[] && (k.inst in start.stale ==> TouchOf(s, step, k).Some?)))
            && (Records(s, step) ==> s.tasks[id].Ready?)
  {
    var task := s.tasks[step.id];
    if task.Writing? && step.WriteOne? {
      assert Next(cfg, s, step) == OnWrite(s, step.id, task, step.inst, step.ok, step.now);
    } else if task.Writing? && step.DeleteStale? {
      assert Next(cfg, s, step) == OnDelete(s, step.id, task, step.ok);
    } else if task.Ready? && step.Commit? {
      CommitFinishes(cfg, s, step.id);
    } else {
      LateTaskIgnores(cfg, s, step.id, step);
    }
  }

  /** The revision that is recorded in the end is that of the task that committed last. */
  lemma {:induction false} RevisionFollowsLastRecord(cfg: Settings, s: State, steps: seq<Step>, id: nat)
    requires IsWriting(s, id) && LastRecord(cfg, s, steps) == Some(id)
    ensures s.tasks[id].info.response.Some?
    ensures RunFrom(cfg, s, steps).applied == Some(s.tasks[id].info.response.value.revision)
  {
    var n := |steps| - 1;
    var before := RunFrom(cfg, s, steps[..n]);
    RecordSets(cfg, before, steps[n]);
    if Records(before, steps[n]) {
      TasksFollow(cfg, s, steps[..n], id);
    } else {
      RevisionFollowsLastRecord(cfg, s, steps[..n], id);
    }
  }

  // ---------------------------------------------------------------- the law

  /** What a task wants of a row of its device: its config, or no web-owned row. */
  datatype Want = Config(config: NetworkConfig) | NotWeb

  function WantOf(task: Task, k: Key): Want
    requires task.Writing?
  {
    if k.inst in task.plan then Config(task.plan[k.inst]) else NotWeb
  }

  predicate Agrees(row: Option<Row>, want: Want) {
    match want
    case Config(config) => HasConfig(row, config)
    case NotWeb => row.None? || FromDb(row.value.source) == User
  }

  /** A touch does what is wanted of the row. */
  predicate Fits(touch: Touch, want: Want) {
    match touch
    case Stores(_, config) => want == Config(config)
    case Drops(_) => want == NotWeb
    case Edits(row) => Agrees(row, want)
  }

  lemma FitsIff(touch: Touch, row: Option<Row>, want: Want)
    requires Leaves(touch, row)
    ensures Agrees(row, want) <==> Fits(touch, want)
  {
  }

  /** Task `c` has just listed the table in `s` and is about to write. */
  ghost predicate Begun(cfg: Settings, s: State, c: nat) {
    IsWriting(s, c) && Plans(cfg.lib, s.table, s.tasks[c].info, s.tasks[c].plan, s.tasks[c].stale)
  }

  /** A row the task does not list was nobody's or a user's when the task began. */
  lemma UnlistedIsNotWeb(cfg: Settings, s: State, c: nat, k: Key)
    requires Begun(cfg, s, c) && k == ScopedKey(s.tasks[c], k.inst) && !HasOnList(s.tasks[c], k)
    ensures Agrees(RowOf(s.table, k), WantOf(s.tasks[c], k))
  {
    var info := s.tasks[c].info;
    if k in s.table {
      assert InScope(k, info.user, info.machine) && k.inst in ScopeSources(s.table, info.user, info.machine);
    }
  }

  /**
   One row of the device, over every run of any tasks and edits after the listing of task `c`, when `c` is the last
   to commit: the row is what `c` wants exactly when nobody touched it or its last touch did what `c` wants.
   */
  lemma RowDescribedIff(cfg: Settings, s: State, steps: seq<Step>, c: nat, k: Key)
    requires Begun(cfg, s, c) && LastRecord(cfg, s, steps) == Some(c) && k == ScopedKey(s.tasks[c], k.inst)
    ensures Agrees(RowOf(RunFrom(cfg, s, steps).table, k), WantOf(s.tasks[c], k)) <==>
              match LastTouch(cfg, s, steps, k)
              case Some(touch) => Fits(touch, WantOf(s.tasks[c], k))
              case None => true
  {
    var row := RowOf(RunFrom(cfg, s, steps).table, k);
    RowFollowsLastTouch(cfg, s, steps, k);
    match LastTouch(cfg, s, steps, k)
    case Some(touch) => FitsIff(touch, row, WantOf(s.tasks[c], k));
    case None =>
      if HasOnList(s.tasks[c], k) {
        CommittedCovers(cfg, s, steps, c, k);
      } else {
        UnlistedIsNotWeb(cfg, s, c, k);
      }
  }

  /**
   A table holds what a response asks for, given the table `t` its reconcile began on: the web-owned rows of the
   device are those of the desired ids that no user owned, enabled and with their last listed config.
   */
  ghost predicate Describes(lib: Library, t: Table, t': Table, info: Resolution) {
    && ScopeWebIds(t', info.user, info.machine) ==
         (set id | id in DesiredIds(lib, ConfigsOf(info)) && !UserOwned(t, info.user, info.machine, id))
    && (forall id :: id in ScopeWebIds(t', info.user, info.machine) ==>
          var row := t'[Key(info.user, info.machine, id)];
          !row.disabled && row.config.Encoded? && Explained(lib, ConfigsOf(info), id, row.config.config))
  }

  lemma ExplainedOnce(lib: Library, desired: seq<ManagedConfig>, id: Uuid, x: NetworkConfig, y: NetworkConfig)
    requires Explained(lib, desired, id, x) && Explained(lib, desired, id, y)
    ensures x == y
  {
    var i: nat :| LastListed(lib, desired, i, id) && FilledIn(lib, desired[i].networkConfig, id, x);
    var j: nat :| LastListed(lib, desired, j, id) && FilledIn(lib, desired[j].networkConfig, id, y);
    assert i == j;
    NormaliseIff(lib, desired[i].networkConfig, id, x);
    NormaliseIff(lib, desired[i].networkConfig, id, y);
  }

  /** Every row of the device is what the task wants. */
  ghost predicate AllAgree(t: Table, task: Task)
    requires task.Writing?
  {
    forall inst :: Agrees(RowOf(t, ScopedKey(task, inst)), WantOf(task, ScopedKey(task, inst)))
  }

  /** The task plans its response's configs for the ids that no user owned. */
  lemma BegunPlan(cfg: Settings, s: State, c: nat)
    requires Begun(cfg, s, c)
    ensures var info, plan := s.tasks[c].info, s.tasks[c].plan;
            && plan.Keys == (set id | id in DesiredIds(cfg.lib, ConfigsOf(info)) && !UserOwned(s.table, info.user, info.machine, id))
            && forall id :: id in plan ==> Explained(cfg.lib, ConfigsOf(info), id, plan[id])
  {
    var info := s.tasks[c].info;
    PlanMeaning(cfg.lib, ScopeSources(s.table, info.user, info.machine), ConfigsOf(info));
    OwnersAgree(s.table, info.user, info.machine);
  }

  /** The rows are what the task wants exactly when the table holds what its response asks for. */
  lemma DescribesIff(cfg: Settings, s: State, c: nat, t': Table)
    requires Begun(cfg, s, c)
    ensures AllAgree(t', s.tasks[c]) <==> Describes(cfg.lib, s.table, t', s.tasks[c].info)
  {
    var task := s.tasks[c];
    BegunPlan(cfg, s, c);
    if AllAgree(t', task) {
      AgreeDescribes(cfg.lib, task, t');
    } else if Describes(cfg.lib, s.table, t', task.info) {
      forall inst ensures Agrees(RowOf(t', ScopedKey(task, inst)), WantOf(task, ScopedKey(task, inst))) {
        WebIdIff(t', task.info.user, task.info.machine, inst);
        DescribedAgrees(cfg.lib, task, t', inst);
      }
    }
  }

  lemma WebIdIff(t: Table, user: int, machine: Uuid, id: Uuid)
    ensures id in ScopeWebIds(t, user, machine) <==>
              Key(user, machine, id) in t && FromDb(t[Key(user, machine, id)].source) == Web
  {
    if Key(user, machine, id) in t { assert Key(user, machine, id).inst == id; }
  }

  lemma AgreeDescribes(lib: Library, task: Task, t': Table)
    requires task.Writing? && AllAgree(t', task)
    requires forall id :: id in task.plan ==> Explained(lib, ConfigsOf(task.info), id, task.plan[id])
    ensures ScopeWebIds(t', task.info.user, task.info.machine) == task.plan.Keys
    ensures forall id :: id in task.plan ==>
              var row := t'[Key(task.info.user, task.info.machine, id)];
              !row.disabled && row.config.Encoded? && Explained(lib, ConfigsOf(task.info), id, row.config.config)
  {
    forall id ensures id in ScopeWebIds(t', task.info.user, task.info.machine) <==> id in task.plan {
      assert Agrees(RowOf(t', ScopedKey(task, id)), WantOf(task, ScopedKey(task, id)));
      WebIdIff(t', task.info.user, task.info.machine, id);
    }
    forall id | id in task.plan
      ensures var row := t'[Key(task.info.user, task.info.machine, id)];
              !row.disabled && row.config.Encoded? && Explained(lib, ConfigsOf(task.info), id, row.config.config)
    {
      assert Agrees(RowOf(t', ScopedKey(task, id)), WantOf(task, ScopedKey(task, id)));
    }
  }

  lemma DescribedAgrees(lib: Library, task: Task, t': Table, inst: Uuid)
    requires task.Writing? && ScopeWebIds(t', task.info.user, task.info.machine) == task.plan.Keys
    requires inst in task.plan ==>
               && Explained(lib, ConfigsOf(task.info), inst, task.plan[inst])
               && Key(task.info.user, task.info.machine, inst) in t'
               && var row := t'[Key(task.info.user, task.info.machine, inst)];
                  !row.disabled && row.config.Encoded? && Explained(lib, ConfigsOf(task.info), inst, row.config.config)
    ensures Agrees(RowOf(t', ScopedKey(task, inst)), WantOf(task, ScopedKey(task, inst)))
  {
    WebIdIff(t', task.info.user, task.info.machine, inst);
    if inst in task.plan {
      ExplainedOnce(lib, ConfigsOf(task.info), inst, task.plan[inst], t'[Key(task.info.user, task.info.machine, inst)].config.config);
    }
  }

  /** The last touch of every row of the task's device, if there is one, did what the task wants. */
  ghost predicate TouchesFit(cfg: Settings, s: State, steps: seq<Step>, c: nat)
    requires IsWriting(s, c)
  {
    forall inst ::
      var touch := LastTouch(cfg, s, steps, ScopedKey(s.tasks[c], inst));
      touch.Some? ==> Fits(touch.value, WantOf(s.tasks[c], ScopedKey(s.tasks[c], inst)))
  }

  /**
   The recorded revision describes the table exactly when it should: over every run after the listing of task `c`
   in which `c` is the last to commit, the revision is that of its response, and the table holds what that response
   asks for if and only if the last touch of each row of the device did what `c` wants.
   */
  lemma RecordDescribesTableIff(cfg: Settings, s: State, steps: seq<Step>, c: nat)
    requires Begun(cfg, s, c) && LastRecord(cfg, s, steps) == Some(c)
    ensures var info := s.tasks[c].info;
            var end := RunFrom(cfg, s, steps);
            && info.response.Some? && end.applied == Some(info.response.value.revision)
            && (Describes(cfg.lib, s.table, end.table, info) <==> TouchesFit(cfg, s, steps, c))
  {
    var end := RunFrom(cfg, s, steps);
    var task := s.tasks[c];
    RevisionFollowsLastRecord(cfg, s, steps, c);
    DescribesIff(cfg, s, c, end.table);
    forall inst
      ensures Agrees(RowOf(end.table, ScopedKey(task, inst)), WantOf(task, ScopedKey(task, inst))) <==>
              var touch := LastTouch(cfg, s, steps, ScopedKey(task, inst));
              touch.Some? ==> Fits(touch.value, WantOf(task, ScopedKey(task, inst)))
    {
      RowDescribedIff(cfg, s, steps, c, ScopedKey(task, inst));
    }
  }

  // ---------------------------------------------------------------- racers

  predicate TouchedBy(touch: Option<Touch>, w: nat) {
    touch.Some? && !touch.value.Edits? && touch.value.writer == w
  }

  /** A task that was writing in `s` touches a row as it wanted to in `s`. */
  lemma {:induction false} TouchIsWant(cfg: Settings, s: State, steps: seq<Step>, k: Key, w: nat)
    requires IsWriting(s, w) && s.tasks[w].stale !! s.tasks[w].plan.Keys && TouchedBy(LastTouch(cfg, s, steps, k), w)
    ensures k == ScopedKey(s.tasks[w], k.inst)
    ensures forall want :: Fits(LastTouch(cfg, s, steps, k).value, want) <==> want == WantOf(s.tasks[w], k)
  {
    var n := |steps| - 1;
    var before := RunFrom(cfg, s, steps[..n]);
    if TouchOf(before, steps[n], k).Some? {
      TasksFollow(cfg, s, steps[..n], w);
    } else {
      TouchIsWant(cfg, s, steps[..n], k, w);
    }
  }

  /**
   Any number of tasks race, with any plans and stale sets: if `w` touched a row last and `c` committed last, the
   revision is that of `c`, and the row is what `c` wants exactly when `w` wants the same of it.
   */
  lemma RacersIff(cfg: Settings, s: State, steps: seq<Step>, c: nat, w: nat, k: Key)
    requires IsWriting(s, c) && IsWriting(s, w) && s.tasks[w].stale !! s.tasks[w].plan.Keys
    requires LastRecord(cfg, s, steps) == Some(c) && TouchedBy(LastTouch(cfg, s, steps, k), w)
    ensures var end := RunFrom(cfg, s, steps);
            && s.tasks[c].info.response.Some? && end.applied == Some(s.tasks[c].info.response.value.revision)
            && (Agrees(RowOf(end.table, k), WantOf(s.tasks[c], k)) <==> w == c || WantOf(s.tasks[w], k) == WantOf(s.tasks[c], k))
  {
    RevisionFollowsLastRecord(cfg, s, steps, c);
    RowFollowsLastTouch(cfg, s, steps, k);
    TouchIsWant(cfg, s, steps, k, w);
    FitsIff(LastTouch(cfg, s, steps, k).value, RowOf(RunFrom(cfg, s, steps).table, k), WantOf(s.tasks[c], k));
  }

  // ---------------------------------------------------------------- two heartbeats that race

  /** Two tasks about to write configs for the same instance. */
  ghost predicate Racing(s: State, a: nat, b: nat, inst: Uuid, x: NetworkConfig, y: NetworkConfig) {
    && a != b && IsWriting(s, a) && IsWriting(s, b)
    && s.tasks[a].plan == map[inst := x] && s.tasks[b].plan == map[inst := y]
    && s.tasks[a].stale == {} == s.tasks[b].stale
    && s.tasks[a].info.response.Some? && s.tasks[b].info.response.Some?
    && s.tasks[a].info.user == s.tasks[b].info.user && s.tasks[a].info.machine == s.tasks[b].info.machine
  }

  /** Only the two racers take steps. */
  predicate OnlySteps(steps: seq<Step>, a: nat, b: nat) {
    forall i :: 0 <= i < |steps| ==> !steps[i].Edit? && (steps[i].id == a || steps[i].id == b)
  }

  lemma {:induction false} TouchedByRacer(cfg: Settings, s: State, steps: seq<Step>, a: nat, b: nat, k: Key)
    requires OnlySteps(steps, a, b) && LastTouch(cfg, s, steps, k).Some?
    ensures TouchedBy(LastTouch(cfg, s, steps, k), a) || TouchedBy(LastTouch(cfg, s, steps, k), b)
  {
    var n := |steps| - 1;
    if TouchOf(RunFrom(cfg, s, steps[..n]), steps[n], k).None? {
      TouchedByRacer(cfg, s, steps[..n], a, b, k);
    }
  }

  /**
   Over every list of steps of the two racers, with any outcomes: the racer `c` that commits last has its revision
   recorded, some racer `w` wrote last, and the stored config is that of `c` exactly when `w` is `c` or the two
   configs are the same.
   */
  lemma RaceIff(cfg: Settings, s: State, steps: seq<Step>, a: nat, b: nat, inst: Uuid, x: NetworkConfig, y: NetworkConfig, c: nat)
    returns (w: nat)
    requires Racing(s, a, b, inst, x, y) && OnlySteps(steps, a, b)
    requires (c == a || c == b) && LastRecord(cfg, s, steps) == Some(c)
    ensures var k := ScopedKey(s.tasks[a], inst);
            var end := RunFrom(cfg, s, steps);
            && (w == a || w == b) && TouchedBy(LastTouch(cfg, s, steps, k), w)
            && end.applied == Some(s.tasks[c].info.response.value.revision) && k in end.table
            && (end.table[k].config == Encoded(if c == a then x else y) <==> w == c || x == y)
  {
    var k := ScopedKey(s.tasks[a], inst);
    CommittedCovers(cfg, s, steps, c, k);
    TouchedByRacer(cfg, s, steps, a, b, k);
    w := if TouchedBy(LastTouch(cfg, s, steps, k), a) then a else b;
    RacersIff(cfg, s, steps, c, w, k);
    RowFollowsLastTouch(cfg, s, steps, k);
    TouchIsWant(cfg, s, steps, k, w);
    assert Fits(LastTouch(cfg, s, steps, k).value, WantOf(s.tasks[w], k));
  }

  /** Task `id` writes its one row and ends its reconcile. */
  lemma WritesAndEnds(cfg: Settings, s: State, id: nat, inst: Uuid, x: NetworkConfig, now: int)
    requires id in s.tasks && s.tasks[id].Writing? && s.tasks[id].plan == map[inst := x] && s.tasks[id].stale == {}
    ensures var s' := Next(cfg, Next(cfg, s, WriteOne(id, inst, true, now)), DeleteStale(id, true));
            && id in s'.tasks && s'.tasks[id] == Ready(s.tasks[id].info, true)
            && s'.table == Upsert(s.table, Key(s.tasks[id].info.user, s.tasks[id].info.machine, inst), x, Web, now)
            && (forall other :: other in s.tasks && other != id ==> other in s'.tasks && s'.tasks[other] == s.tasks[other])
  {
    var s1 := Next(cfg, s, WriteOne(id, inst, true, now));
    assert s1.tasks[id].plan == map[];
    assert DeleteMany(s1.table, s.tasks[id].info.user, s.tasks[id].info.machine, {}) == s1.table;
  }

  /** `a` writes first and commits last: its revision is recorded, and the config that is stored is not its own. */
  lemma RaceRecordsTheWrongRevision(cfg: Settings, s: State, a: nat, b: nat, inst: Uuid, x: NetworkConfig, y: NetworkConfig)
    requires Racing(s, a, b, inst, x, y) && x != y
    ensures var info := s.tasks[a].info;
            var k := Key(info.user, info.machine, inst);
            var written := Next(cfg, Next(cfg, s, WriteOne(a, inst, true, 0)), DeleteStale(a, true));
            var overwritten := Next(cfg, Next(cfg, written, WriteOne(b, inst, true, 1)), DeleteStale(b, true));
            var end := Next(cfg, Next(cfg, overwritten, Commit(b)), Commit(a));
            && end.applied == Some(info.response.value.revision)
            && k in end.table && end.table[k].config == Encoded(y) && end.table[k].config != Encoded(x)
  {
    WritesAndEnds(cfg, s, a, inst, x, 0);
    var written := Next(cfg, Next(cfg, s, WriteOne(a, inst, true, 0)), DeleteStale(a, true));
    WritesAndEnds(cfg, written, b, inst, y, 1);
    var overwritten := Next(cfg, Next(cfg, written, WriteOne(b, inst, true, 1)), DeleteStale(b, true));
    CommitRecords(cfg, overwritten, b);
    CommitRecords(cfg, Next(cfg, overwritten, Commit(b)), a);
  }

  // ---------------------------------------------------------------- such a race happens

  function Heard(id: nat, request: Request, answer: Answer): seq<Step> {
    [Enter(id, request), ReadApplied(id, true), Count(id), Resolve(id, answer), BeginReconcile(id, true)]
  }

  /** A first heartbeat of a session, up to the point where it starts to write. */
  lemma HeardWrites(cfg: Settings, s: State, id: nat, request: Request, response: Response, user: int) returns (steps: seq<Step>)
    requires cfg.webhookEnabled && s.req.None? && s.applied.None? && id !in s.tasks && request.machine.Some? && response.configs.Some?
    requires Plan(cfg.lib, ScopeSources(s.table, user, request.machine.value), response.configs.value).Some?
    ensures var s' := RunFrom(cfg, s, steps);
            var sources := ScopeSources(s.table, user, request.machine.value);
            var plan := Plan(cfg.lib, sources, response.configs.value).value;
            && s'.req.None? && s'.applied.None? && s'.table == s.table
            && id in s'.tasks && s'.tasks[id].Writing? && s'.tasks[id].plan == plan
            && s'.tasks[id].stale == WebSourced(sources) - plan.Keys
            && s'.tasks[id].info.user == user && s'.tasks[id].info.machine == request.machine.value
            && s'.tasks[id].info.response == Some(response)
            && s'.tasks.Keys == s.tasks.Keys + {id}
            && (forall other :: other in s.tasks ==> s'.tasks[other] == s.tasks[other])
  {
    steps := Heard(id, request, WebhookValid(response, Some(user)));
    var s1 := Next(cfg, s, steps[0]);
    var s2 := Next(cfg, s1, steps[1]);
    var s3 := Next(cfg, s2, steps[2]);
    var s4 := Next(cfg, s3, steps[3]);
    FiveSteps(cfg, s, steps);
    assert s2.tasks[id] == KnowsApplied(request, None);
    assert s3.tasks[id].Counted? && s3.tasks[id].callWebhook;
    assert s4.tasks[id].Resolved?;
  }

  lemma FiveSteps(cfg: Settings, s: State, steps: seq<Step>)
    requires |steps| == 5
    ensures RunFrom(cfg, s, steps) ==
            Next(cfg, Next(cfg, Next(cfg, Next(cfg, Next(cfg, s, steps[0]), steps[1]), steps[2]), steps[3]), steps[4])
  {
    assert steps[..4][..3] == steps[..3] && steps[..3][..2] == steps[..2] && steps[..2][..1] == steps[..1];
    assert RunFrom(cfg, s, steps[..1]) == Next(cfg, s, steps[0]) by { assert steps[..1][..0] == []; }
    assert RunFrom(cfg, s, steps[..2]) == Next(cfg, RunFrom(cfg, s, steps[..1]), steps[1]);
    assert RunFrom(cfg, s, steps[..3]) == Next(cfg, RunFrom(cfg, s, steps[..2]), steps[2]);
    assert RunFrom(cfg, s, steps[..4]) == Next(cfg, RunFrom(cfg, s, steps[..3]), steps[3]);
  }

  lemma {:induction false} RunFromConcat(cfg: Settings, s: State, a: seq<Step>, b: seq<Step>)
    ensures RunFrom(cfg, s, a + b) == RunFrom(cfg, RunFrom(cfg, s, a), b)
  {
    if b == [] {
      assert a + b == a;
    } else {
      var n := |b| - 1;
      RunFromConcat(cfg, s, a, b[..n]);
      assert (a + b)[..|a + b| - 1] == a + b[..n];
    }
  }

  /** The same on an empty table, with one config wanted. */
  lemma HeardOnEmpty(cfg: Settings, s: State, id: nat, request: Request, response: Response, user: int, inst: Uuid, x: NetworkConfig)
    returns (steps: seq<Step>)
    requires cfg.webhookEnabled && s.req.None? && s.applied.None? && id !in s.tasks && request.machine.Some? && response.configs.Some?
    requires s.table == map[] && Plan(cfg.lib, map[], response.configs.value) == Some(map[inst := x])
    ensures var s' := RunFrom(cfg, s, steps);
            && s'.req.None? && s'.applied.None? && s'.table == map[] && s'.tasks.Keys == s.tasks.Keys + {id}
            && s'.tasks[id].Writing? && s'.tasks[id].plan == map[inst := x] && s'.tasks[id].stale == {}
            && s'.tasks[id].info.user == user && s'.tasks[id].info.machine == request.machine.value
            && s'.tasks[id].info.response == Some(response)
            && (forall other :: other in s.tasks ==> s'.tasks[other] == s.tasks[other])
  {
    assert ScopeSources(map[], user, request.machine.value) == map[];
    steps := HeardWrites(cfg, s, id, request, response, user);
  }

  /** Two first heartbeats of a session on an empty table whose responses want different configs for one instance race. */
  lemma RaceIsReachable(cfg: Settings, request: Request, user: int, p: Response, q: Response, inst: Uuid,
                        x: NetworkConfig, y: NetworkConfig) returns (steps: seq<Step>)
    requires cfg.webhookEnabled && request.machine.Some? && p.configs.Some? && q.configs.Some?
    requires Plan(cfg.lib, map[], p.configs.value) == Some(map[inst := x])
    requires Plan(cfg.lib, map[], q.configs.value) == Some(map[inst := y])
    ensures Racing(RunFrom(cfg, Init(map[]), steps), 0, 1, inst, x, y)
    ensures var info := RunFrom(cfg, Init(map[]), steps).tasks[0].info;
            info.response == Some(p) && info.user == user && info.machine == request.machine.value
  {
    var before := HeardOnEmpty(cfg, Init(map[]), 0, request, p, user, inst, x);
    var after := HeardOnEmpty(cfg, RunFrom(cfg, Init(map[]), before), 1, request, q, user, inst, y);
    RunFromConcat(cfg, Init(map[]), before, after);
    steps := before + after;
  }

  lemma RunFromSnoc(cfg: Settings, s: State, steps: seq<Step>, step: Step)
    ensures RunFrom(cfg, s, steps + [step]) == Next(cfg, RunFrom(cfg, s, steps), step)
  {
    assert (steps + [step])[..|steps|] == steps;
  }

  lemma {:induction false} RunIsRunFrom(cfg: Settings, t: Table, steps: seq<Step>)
    ensures Run(cfg, t, steps) == RunFrom(cfg, Init(t), steps)
  {
    if steps != [] {
      RunIsRunFrom(cfg, t, steps[..|steps| - 1]);
    }
  }

  /** The statements and commits of the race, `a` first and last. */
  lemma RaceSteps(cfg: Settings, s: State, inst: Uuid) returns (steps: seq<Step>)
    ensures var written := Next(cfg, Next(cfg, s, WriteOne(0, inst, true, 0)), DeleteStale(0, true));
            var overwritten := Next(cfg, Next(cfg, written, WriteOne(1, inst, true, 1)), DeleteStale(1, true));
            RunFrom(cfg, s, steps) == Next(cfg, Next(cfg, overwritten, Commit(1)), Commit(0))
  {
    var none: seq<Step> := [];
    var a := none + [WriteOne(0, inst, true, 0)];
    var b := a + [DeleteStale(0, true)];
    var c := b + [WriteOne(1, inst, true, 1)];
    var d := c + [DeleteStale(1, true)];
    var e := d + [Commit(1)];
    RunFromSnoc(cfg, s, none, WriteOne(0, inst, true, 0));
    RunFromSnoc(cfg, s, a, DeleteStale(0, true));
    RunFromSnoc(cfg, s, b, WriteOne(1, inst, true, 1));
    RunFromSnoc(cfg, s, c, DeleteStale(1, true));
    RunFromSnoc(cfg, s, d, Commit(1));
    RunFromSnoc(cfg, s, e, Commit(0));
    steps := e + [Commit(0)];
  }

  /** A whole session on an empty table that ends with one response's revision recorded and the other's config stored. */
  lemma WrongRevisionRun(cfg: Settings, request: Request, user: int, p: Response, q: Response, inst: Uuid,
                         x: NetworkConfig, y: NetworkConfig) returns (steps: seq<Step>)
    requires cfg.webhookEnabled && request.machine.Some? && p.configs.Some? && q.configs.Some? && x != y
    requires Plan(cfg.lib, map[], p.configs.value) == Some(map[inst := x])
    requires Plan(cfg.lib, map[], q.configs.value) == Some(map[inst := y])
    ensures var end := Run(cfg, map[], steps);
            var k := Key(user, request.machine.value, inst);
            end.applied == Some(p.revision) && k in end.table && end.table[k].config == Encoded(y) && end.table[k].config != Encoded(x)
  {
    var before := RaceIsReachable(cfg, request, user, p, q, inst, x, y);
    var racing := RunFrom(cfg, Init(map[]), before);
    var after := RaceSteps(cfg, racing, inst);
    RaceRecordsTheWrongRevision(cfg, racing, 0, 1, inst, x, y);
    RunFromConcat(cfg, Init(map[]), before, after);
    steps := before + after;
    RunIsRunFrom(cfg, map[], steps);
  }
}
