/**
 What a heartbeat gets done: when it asks the webhook, whom it acts for, that a response with a new revision is
 reconciled and recorded before the heartbeat succeeds, and that a heartbeat nobody disturbs does succeed.
 */
module HeartbeatProgress {
  import opened Wrappers
  import opened ConfigTable
  import opened WebReconcile
  import opened HeartbeatSession
  import opened HeartbeatTable

  // ---------------------------------------------------------------- a new revision is applied

  /** The response has a revision other than the given one. */
  predicate IsNews(info: Resolution, read: Option<string>) {
    info.response.Some? && read != Some(info.response.value.revision)
  }

  /** How far a heartbeat is that read `read` as the applied revision. */
  ghost predicate Pursues(s: State, task: Task, read: Option<string>) {
    match task
    case KnowsApplied(_, applied) => applied == read
    case Counted(_, _, applied, _, _) => applied == read
    case Resolved(info) => info.applied == read
    case Writing(info, _, _) => info.applied == read && IsNews(info, read)
    case Ready(info, reconciled) =>
      && info.applied == read && (reconciled <==> IsNews(info, read))
      && (reconciled ==> info.response.value in s.reconciles)
    case Finished(_) => true
    case Entered(_) => false
  }

  lemma OwnStepPursues(cfg: Settings, s: State, step: Step, read: Option<string>)
    requires !step.Edit? && step.id in s.tasks && Pursues(s, s.tasks[step.id], read)
    ensures step.id in Next(cfg, s, step).tasks && Pursues(Next(cfg, s, step), Next(cfg, s, step).tasks[step.id], read)
  {
    match step
    case ReadApplied(_, _) =>
    case Count(_) =>
    case Resolve(_, _) =>
    case BeginReconcile(_, _) =>
    case WriteOne(_, _, _, _) =>
    case DeleteStale(_, _) =>
    case Commit(_) =>
    case Enter(_, _) =>
  }

  lemma OtherStepPursues(cfg: Settings, s: State, step: Step, id: nat, read: Option<string>)
    requires (step.Edit? || step.id != id) && id in s.tasks && Pursues(s, s.tasks[id], read)
    ensures id in Next(cfg, s, step).tasks && Pursues(Next(cfg, s, step), Next(cfg, s, step).tasks[id], read)
  {
    OtherTasksUntouched(cfg, s, step, id);
    GrowingReconciles(cfg, s, step);
  }

  lemma GrowingReconciles(cfg: Settings, s: State, step: Step)
    ensures s.reconciles <= Next(cfg, s, step).reconciles
  {
    if !step.Commit? {
      QuietStep(cfg, s, step);
    }
  }

  lemma {:induction false} PursuesOverRun(cfg: Settings, s: State, steps: seq<Step>, id: nat, read: Option<string>)
    requires id in s.tasks && Pursues(s, s.tasks[id], read)
    ensures var s' := RunFrom(cfg, s, steps); id in s'.tasks && Pursues(s', s'.tasks[id], read)
  {
    if steps != [] {
      var n := |steps| - 1;
      PursuesOverRun(cfg, s, steps[..n], id, read);
      var before := RunFrom(cfg, s, steps[..n]);
      if !steps[n].Edit? && steps[n].id == id {
        OwnStepPursues(cfg, before, steps[n], read);
      } else {
        OtherStepPursues(cfg, before, steps[n], id, read);
      }
    }
  }

  /** Step `i` ends the heartbeat well: a new revision is reconciled and recorded by it, any other changes nothing. */
  ghost predicate EndsWell(cfg: Settings, s: State, steps: seq<Step>, i: nat, id: nat, read: Option<string>) {
    && i < |steps| && steps[i] == Commit(id)
    && var before, after := RunFrom(cfg, s, steps[..i]), RunFrom(cfg, s, steps[..i + 1]);
       && id in before.tasks && before.tasks[id].Ready?
       && var info := before.tasks[id].info;
          if IsNews(info, read)
          then info.response.value in before.reconciles && after.applied == Some(info.response.value.revision)
          else after.applied == before.applied
  }

  lemma CommitEndsWell(cfg: Settings, s: State, steps: seq<Step>, i: nat, id: nat, read: Option<string>)
    requires i < |steps| && steps[i] == Commit(id)
    requires var before := RunFrom(cfg, s, steps[..i]);
             id in before.tasks && before.tasks[id].Ready? && Pursues(before, before.tasks[id], read)
    ensures EndsWell(cfg, s, steps, i, id, read)
  {
    assert steps[..i + 1][..i] == steps[..i];
    var before := RunFrom(cfg, s, steps[..i]);
    assert RunFrom(cfg, s, steps[..i + 1]) == Next(cfg, before, Commit(id));
    if before.tasks[id].reconciled {
      CommitRecords(cfg, before, id);
    }
  }

  /**
   Over every run of any heartbeats: one that read the applied revision in `s` succeeds only by a commit, and if its
   response had another revision, that response has been reconciled by then and its revision is recorded.
   */
  lemma {:induction false} NewRevisionIsApplied(cfg: Settings, s: State, steps: seq<Step>, id: nat)
    requires id in s.tasks && s.tasks[id].Entered?
    ensures var begun := Next(cfg, s, ReadApplied(id, true));
            var end := RunFrom(cfg, begun, steps);
            id in end.tasks && (end.tasks[id] == Finished(Succeeded) ==> exists i :: EndsWell(cfg, begun, steps, i, id, s.applied))
  {
    var begun := Next(cfg, s, ReadApplied(id, true));
    assert begun.tasks[id] == KnowsApplied(s.tasks[id].request, s.applied);
    PursuesOverRun(cfg, begun, steps, id, s.applied);
    if RunFrom(cfg, begun, steps).tasks[id] == Finished(Succeeded) {
      var i := SucceedsByCommit(cfg, begun, steps, id);
      PursuesOverRun(cfg, begun, steps[..i], id, s.applied);
      CommitEndsWell(cfg, begun, steps, i, id, s.applied);
    }
  }

  lemma {:induction false} SucceedsByCommit(cfg: Settings, s: State, steps: seq<Step>, id: nat) returns (i: nat)
    requires id in s.tasks && !s.tasks[id].Finished?
    requires id in RunFrom(cfg, s, steps).tasks && RunFrom(cfg, s, steps).tasks[id] == Finished(Succeeded)
    ensures i < |steps| && steps[i] == Commit(id)
    ensures id in RunFrom(cfg, s, steps[..i]).tasks && RunFrom(cfg, s, steps[..i]).tasks[id].Ready?
  {
    var n := |steps| - 1;
    var before := RunFrom(cfg, s, steps[..n]);
    TaskStays(cfg, s, steps[..n], id);
    if before.tasks[id] == Finished(Succeeded) {
      i := SucceedsByCommit(cfg, s, steps[..n], id);
      assert steps[..n][..i] == steps[..i];
    } else {
      i := n;
      OnlyCommitSucceeds(cfg, before, steps[n], id);
    }
  }

  lemma {:induction false} TaskStays(cfg: Settings, s: State, steps: seq<Step>, id: nat)
    requires id in s.tasks
    ensures id in RunFrom(cfg, s, steps).tasks
  {
    if steps != [] {
      var n := |steps| - 1;
      TaskStays(cfg, s, steps[..n], id);
      StepKeepsTask(cfg, RunFrom(cfg, s, steps[..n]), steps[n], id);
    }
  }

  lemma StepKeepsTask(cfg: Settings, s: State, step: Step, id: nat)
    requires id in s.tasks
    ensures id in Next(cfg, s, step).tasks
  {
    match step
    case Resolve(_, _) =>
    case BeginReconcile(_, _) =>
    case WriteOne(_, _, _, _) =>
    case DeleteStale(_, _) =>
    case Commit(_) =>
    case _ =>
  }

  lemma OnlyCommitSucceeds(cfg: Settings, s: State, step: Step, id: nat)
    requires id in s.tasks && s.tasks[id] != Finished(Succeeded)
    requires id in Next(cfg, s, step).tasks && Next(cfg, s, step).tasks[id] == Finished(Succeeded)
    ensures step == Commit(id) && s.tasks[id].Ready?
  {
    if step.Edit? || step.id != id {
      OtherTasksUntouched(cfg, s, step, id);
    } else {
      match step
      case Resolve(_, _) =>
      case BeginReconcile(_, _) =>
      case WriteOne(_, _, _, _) =>
      case DeleteStale(_, _) =>
      case _ =>
    }
  }

  // ---------------------------------------------------------------- when the webhook is asked

  /** Step `i` counts a heartbeat. */
  ghost predicate CountsAt(cfg: Settings, t: Table, steps: seq<Step>, i: nat) {
    && i < |steps| && steps[i].Count?
    && var s := Run(cfg, t, steps[..i]);
       steps[i].id in s.tasks && s.tasks[steps[i].id].KnowsApplied? && s.tasks[steps[i].id].request.machine.Some?
  }

  /** The number of heartbeats counted in a run. */
  ghost function Beats(cfg: Settings, t: Table, steps: seq<Step>): nat {
    if steps == [] then 0
    else
      var n := |steps| - 1;
      Beats(cfg, t, steps[..n]) + if CountsAt(cfg, t, steps, n) then 1 else 0
  }

  /** Step `i` commits a heartbeat. */
  ghost predicate CommitsAt(cfg: Settings, t: Table, steps: seq<Step>, i: nat) {
    && i < |steps| && steps[i].Commit?
    && var s := Run(cfg, t, steps[..i]);
       steps[i].id in s.tasks && s.tasks[steps[i].id].Ready?
  }

  ghost predicate NoCommit(cfg: Settings, t: Table, steps: seq<Step>) {
    forall i :: !CommitsAt(cfg, t, steps, i)
  }

  lemma OnlyCountCounts(cfg: Settings, s: State, step: Step)
    ensures Next(cfg, s, step).count ==
              if step.Count? && step.id in s.tasks && s.tasks[step.id].KnowsApplied? && s.tasks[step.id].request.machine.Some?
              then (s.count + 1) % COUNT_WRAP else s.count
  {
    match step
    case Resolve(_, _) =>
    case BeginReconcile(_, _) =>
    case WriteOne(_, _, _, _) =>
    case DeleteStale(_, _) =>
    case Commit(_) =>
    case _ =>
  }

  lemma {:induction false} CountIsBeats(cfg: Settings, t: Table, steps: seq<Step>)
    ensures Run(cfg, t, steps).count == Beats(cfg, t, steps) % COUNT_WRAP
  {
    if steps != [] {
      var n := |steps| - 1;
      CountIsBeats(cfg, t, steps[..n]);
      OnlyCountCounts(cfg, Run(cfg, t, steps[..n]), steps[n]);
      NextBeat(Beats(cfg, t, steps[..n]));
    }
  }

  /** A run of which a prefix commits at some step commits there itself. */
  lemma CommitsInPrefix(cfg: Settings, t: Table, steps: seq<Step>, n: nat, i: nat)
    requires i < n <= |steps|
    ensures CommitsAt(cfg, t, steps[..n], i) <==> CommitsAt(cfg, t, steps, i)
  {
    assert steps[..n][..i] == steps[..i];
  }

  lemma {:induction false} FirstUntilCommit(cfg: Settings, t: Table, steps: seq<Step>)
    ensures Run(cfg, t, steps).req.None? <==> NoCommit(cfg, t, steps)
  {
    if steps != [] {
      var n := |steps| - 1;
      FirstUntilCommit(cfg, t, steps[..n]);
      forall i | 0 <= i < n ensures CommitsAt(cfg, t, steps[..n], i) <==> CommitsAt(cfg, t, steps, i) {
        CommitsInPrefix(cfg, t, steps, n, i);
      }
      var before := Run(cfg, t, steps[..n]);
      if CommitsAt(cfg, t, steps, n) {
        assert Next(cfg, before, steps[n]).req.Some?;
      } else {
        RequestKept(cfg, before, steps[n]);
      }
    }
  }

  lemma RequestKept(cfg: Settings, s: State, step: Step)
    requires !(step.Commit? && step.id in s.tasks && s.tasks[step.id].Ready?)
    ensures Next(cfg, s, step).req == s.req && Next(cfg, s, step).token == s.token && Next(cfg, s, step).binding == s.binding
  {
    if !step.Commit? {
      QuietStep(cfg, s, step);
    }
  }

  lemma NextBeat(n: nat)
    ensures (n % COUNT_WRAP + 1) % COUNT_WRAP == (n + 1) % COUNT_WRAP
  {
  }

  /** The heartbeat fails for want of a machine id, or goes on with the token it finds and knows whether to ask. */
  ghost predicate CountedAs(task: Task, task': Task, token: Option<Token>, asks: bool)
    requires task.KnowsApplied?
  {
    if task.request.machine.None? then task' == Finished(Failed)
    else task' == Counted(task.request, task.request.machine.value, task.applied, asks, token)
  }

  lemma CountStep(cfg: Settings, s: State, id: nat)
    requires id in s.tasks && s.tasks[id].KnowsApplied?
    ensures CountedAs(s.tasks[id], Next(cfg, s, Count(id)).tasks[id], s.token,
                      cfg.webhookEnabled && (s.req.None? || (s.count + 1) % COUNT_WRAP % 10 == 1))
  {
  }

  /**
   In every run a heartbeat asks the webhook exactly when the webhook is on and no heartbeat has been committed yet,
   or it is the first, eleventh, twenty-first and so on to be counted; and it keeps the token the session has then.
   */
  lemma WebhookAskedIff(cfg: Settings, t: Table, steps: seq<Step>, id: nat)
    requires var s := Run(cfg, t, steps); id in s.tasks && s.tasks[id].KnowsApplied?
    ensures var s := Run(cfg, t, steps);
            CountedAs(s.tasks[id], Next(cfg, s, Count(id)).tasks[id], s.token,
                      cfg.webhookEnabled && (NoCommit(cfg, t, steps) || (Beats(cfg, t, steps) + 1) % 0x1_0000_0000 % 10 == 1))
  {
    CountIsBeats(cfg, t, steps);
    FirstUntilCommit(cfg, t, steps);
    NextBeat(Beats(cfg, t, steps));
    CountStep(cfg, Run(cfg, t, steps), id);
  }

  // ---------------------------------------------------------------- whom a heartbeat acts for

  /** The webhook answers for a known owner, with configs or with the revision that was applied. */
  predicate Accepted(answer: Answer, applied: Option<string>) {
    && answer.WebhookValid? && answer.owner.Some?
    && (answer.response.configs.Some? || applied == Some(answer.response.revision))
  }

  /**
   What a heartbeat becomes by the answer it gets, in every run: with the webhook off it acts for the user the
   database finds; when the webhook is not asked, for the user and binding of the session; and when it is asked, for
   the owner of an accepted answer. Everything else fails.
   */
  lemma ResolveMeans(cfg: Settings, t: Table, steps: seq<Step>, id: nat, answer: Answer)
    requires var s := Run(cfg, t, steps); id in s.tasks && s.tasks[id].Counted?
    ensures var s := Run(cfg, t, steps);
            var task := s.tasks[id];
            var task' := Next(cfg, s, Resolve(id, answer)).tasks[id];
            if !cfg.webhookEnabled then
              if answer.UserFound?
              then task' == Resolved(Resolution(task.request, task.machine, task.applied, answer.user, None, None))
              else task' == Finished(Failed)
            else if !task.callWebhook then
              && s.token.Some?
              && task' == Resolved(Resolution(task.request, task.machine, task.applied, s.token.value.user, None, s.binding))
            else if Accepted(answer, task.applied) then
              task' == Resolved(Resolution(task.request, task.machine, task.applied, answer.owner.value, Some(answer.response),
                                           Some(answer.response.bindingVersion)))
            else task' == Finished(Failed)
  {
    InvOverRuns(cfg, t, steps);
    assert TaskInv(cfg, Run(cfg, t, steps), Run(cfg, t, steps).tasks[id]);
  }

  /** The information a committing heartbeat has. */
  ghost function CommittedInfo(cfg: Settings, t: Table, steps: seq<Step>, i: nat): Resolution
    requires CommitsAt(cfg, t, steps, i)
  {
    Run(cfg, t, steps[..i]).tasks[steps[i].id].info
  }

  ghost predicate IsFirstCommit(cfg: Settings, t: Table, steps: seq<Step>, i: nat) {
    CommitsAt(cfg, t, steps, i) && forall j :: 0 <= j < i ==> !CommitsAt(cfg, t, steps, j)
  }

  /** In every run the session's token and binding are those of the first heartbeat that was committed. */
  lemma {:induction false} TokenOfFirstCommit(cfg: Settings, t: Table, steps: seq<Step>, i: nat)
    requires IsFirstCommit(cfg, t, steps, i)
    ensures var info := CommittedInfo(cfg, t, steps, i);
            var s := Run(cfg, t, steps);
            s.token == Some(Token(info.request.userToken, info.machine, info.user)) && s.binding == info.binding
  {
    var n := |steps| - 1;
    var before := Run(cfg, t, steps[..n]);
    InvOverRuns(cfg, t, steps[..n]);
    if i < n {
      forall j | 0 <= j <= i ensures CommitsAt(cfg, t, steps[..n], j) <==> CommitsAt(cfg, t, steps, j) {
        CommitsInPrefix(cfg, t, steps, n, j);
      }
      assert steps[..n][..i] == steps[..i];
      TokenOfFirstCommit(cfg, t, steps[..n], i);
      StepKeepsIdentity(cfg, before, steps[n]);
    } else {
      assert NoCommit(cfg, t, steps[..n]) by {
        forall j | 0 <= j < n ensures !CommitsAt(cfg, t, steps[..n], j) {
          CommitsInPrefix(cfg, t, steps, n, j);
        }
      }
      FirstUntilCommit(cfg, t, steps[..n]);
    }
  }

  // ---------------------------------------------------------------- an undisturbed heartbeat succeeds

  lemma {:induction false} Chain(cfg: Settings, s: State, a: seq<Step>, b: seq<Step>)
    ensures RunFrom(cfg, s, a + b) == RunFrom(cfg, RunFrom(cfg, s, a), b)
  {
    if b == [] {
      assert a + b == a;
    } else {
      var n := |b| - 1;
      Chain(cfg, s, a, b[..n]);
      assert (a + b)[..|a + b| - 1] == a + b[..n];
    }
  }

  ghost predicate AllBy(steps: seq<Step>, id: nat) {
    forall i :: 0 <= i < |steps| ==> !steps[i].Edit? && steps[i].id == id
  }

  lemma OneStep(cfg: Settings, s: State, step: Step)
    ensures RunFrom(cfg, s, [step]) == Next(cfg, s, step)
  {
    assert [step][..0] == [];
  }

  /** A heartbeat that is writing gets through, whatever the order of its writes. */
  lemma {:induction false} WritesThrough(cfg: Settings, s: State, id: nat, now: int) returns (steps: seq<Step>)
    requires id in s.tasks && s.tasks[id].Writing?
    ensures AllBy(steps, id)
    ensures var s' := RunFrom(cfg, s, steps);
            && id in s'.tasks && s'.tasks[id] == Ready(s.tasks[id].info, true)
            && s'.req == s.req && s'.token == s.token && s'.applied == s.applied
    decreases |s.tasks[id].plan|
  {
    var plan := s.tasks[id].plan;
    if plan == map[] {
      steps := [DeleteStale(id, true)];
      OneStep(cfg, s, DeleteStale(id, true));
    } else {
      var inst :| inst in plan;
      var step := WriteOne(id, inst, true, now);
      var s1 := Next(cfg, s, step);
      assert |plan - {inst}| < |plan| by { assert plan == (plan - {inst})[inst := plan[inst]]; }
      var rest := WritesThrough(cfg, s1, id, now);
      OneStep(cfg, s, step);
      Chain(cfg, s, [step], rest);
      steps := [step] + rest;
    }
  }

  lemma CommitSucceeds(cfg: Settings, s: State, id: nat)
    requires (s.req.Some? <==> s.token.Some?) && id in s.tasks && s.tasks[id].Ready?
    ensures Next(cfg, s, Commit(id)).tasks[id] == Finished(Succeeded)
    ensures Next(cfg, s, Commit(id)).table == s.table
  {
  }

  lemma {:induction false} AllByIsUndisturbed(cfg: Settings, s: State, steps: seq<Step>, id: nat)
    requires AllBy(steps, id)
    ensures Undisturbed(cfg, s, steps, id)
  {
  }

  /** The heartbeat holds a response with a new revision and a list of configs that the table accepts. */
  ghost predicate HasNews(cfg: Settings, s: State, id: nat) {
    && id in s.tasks && s.tasks[id].Resolved? && s.tasks[id].info.response.Some?
    && var info := s.tasks[id].info;
       && info.applied != Some(info.response.value.revision) && info.response.value.configs.Some?
       && Plan(cfg.lib, ScopeSources(s.table, info.user, info.machine), info.response.value.configs.value).Some?
  }

  /** It begins to write. */
  lemma NewsBegins(cfg: Settings, s: State, id: nat)
    requires HasNews(cfg, s, id)
    ensures var begun := Next(cfg, s, BeginReconcile(id, true));
            id in begun.tasks && begun.tasks[id].Writing? && begun.req == s.req && begun.token == s.token
  {
    assert ShouldReconcile(s.tasks[id].info);
  }

  lemma NewsCommits(cfg: Settings, s: State, id: nat, writes: seq<Step>, ready: State)
    requires HasNews(cfg, s, id) && AllBy(writes, id)
    requires ready == RunFrom(cfg, Next(cfg, s, BeginReconcile(id, true)), writes)
    requires id in ready.tasks && ready.tasks[id].Ready?
    ensures Next(cfg, ready, Commit(id)).applied == Some(s.tasks[id].info.response.value.revision)
    ensures ExactFor(cfg.lib, s.table, Next(cfg, ready, Commit(id)).table, s.tasks[id].info)
  {
    AllByIsUndisturbed(cfg, Next(cfg, s, BeginReconcile(id, true)), writes, id);
    UndisturbedCommit(cfg, s, id, writes);
  }

  /** An exact reconcile of what the response holds. */
  lemma NewsConfigs(lib: Library, t: Table, t': Table, info: Resolution)
    requires info.response.Some? && info.response.value.configs.Some? && ExactFor(lib, t, t', info)
    ensures Exact(lib, t, t', info.user, info.machine, info.response.value.configs.value)
  {
    assert ConfigsOf(info) == info.response.value.configs.value;
  }

  lemma ThreeParts(cfg: Settings, s: State, first: Step, middle: seq<Step>, last: Step)
    ensures RunFrom(cfg, s, [first] + middle + [last]) == Next(cfg, RunFrom(cfg, Next(cfg, s, first), middle), last)
  {
    OneStep(cfg, s, first);
    Chain(cfg, s, [first], middle);
    OneStep(cfg, RunFrom(cfg, Next(cfg, s, first), middle), last);
    Chain(cfg, s, [first] + middle, [last]);
  }

  lemma NewsSucceeds(cfg: Settings, s: State, id: nat, now: int) returns (steps: seq<Step>)
    requires HasNews(cfg, s, id) && (s.req.Some? <==> s.token.Some?)
    ensures AllBy(steps, id)
    ensures var end := RunFrom(cfg, s, steps);
            && id in end.tasks && end.tasks[id] == Finished(Succeeded)
            && end.applied == Some(s.tasks[id].info.response.value.revision)
            && ExactFor(cfg.lib, s.table, end.table, s.tasks[id].info)
  {
    NewsBegins(cfg, s, id);
    var writes := WritesThrough(cfg, Next(cfg, s, BeginReconcile(id, true)), id, now);
    var ready := RunFrom(cfg, Next(cfg, s, BeginReconcile(id, true)), writes);
    NewsCommits(cfg, s, id, writes, ready);
    CommitSucceeds(cfg, ready, id);
    ThreeParts(cfg, s, BeginReconcile(id, true), writes, Commit(id));
    steps := [BeginReconcile(id, true)] + writes + [Commit(id)];
  }

  /**
   From every reachable state, a heartbeat that holds a response with a new revision and an acceptable list of configs
   succeeds if nothing fails, records the revision, and leaves an exact reconcile of the configs.
   */
  lemma NewRevisionSucceeds(cfg: Settings, t: Table, before: seq<Step>, id: nat, now: int) returns (steps: seq<Step>)
    requires HasNews(cfg, Run(cfg, t, before), id)
    ensures AllBy(steps, id)
    ensures var s := Run(cfg, t, before);
            var info, end := s.tasks[id].info, RunFrom(cfg, s, steps);
            && id in end.tasks && end.tasks[id] == Finished(Succeeded) && end.applied == Some(info.response.value.revision)
            && Exact(cfg.lib, s.table, end.table, info.user, info.machine, info.response.value.configs.value)
  {
    var s := Run(cfg, t, before);
    InvOverRuns(cfg, t, before);
    steps := NewsSucceeds(cfg, s, id, now);
    NewsConfigs(cfg.lib, s.table, RunFrom(cfg, s, steps).table, s.tasks[id].info);
  }

  /** A heartbeat without a new revision succeeds and changes neither the table nor the recorded revision. */
  lemma OldRevisionSucceeds(cfg: Settings, t: Table, before: seq<Step>, id: nat) returns (steps: seq<Step>)
    requires var s := Run(cfg, t, before);
             && id in s.tasks && s.tasks[id].Resolved?
             && (s.tasks[id].info.response.Some? ==>
                   s.tasks[id].info.applied == Some(s.tasks[id].info.response.value.revision))
    ensures AllBy(steps, id)
    ensures var s := Run(cfg, t, before);
            var end := RunFrom(cfg, s, steps);
            id in end.tasks && end.tasks[id] == Finished(Succeeded) && end.applied == s.applied && end.table == s.table
  {
    var s := Run(cfg, t, before);
    InvOverRuns(cfg, t, before);
    var ready := Next(cfg, s, BeginReconcile(id, true));
    assert ready.tasks[id] == Ready(s.tasks[id].info, false);
    CommitSucceeds(cfg, ready, id);
    OneStep(cfg, s, BeginReconcile(id, true));
    OneStep(cfg, ready, Commit(id));
    Chain(cfg, s, [BeginReconcile(id, true)], [Commit(id)]);
    steps := [BeginReconcile(id, true)] + [Commit(id)];
  }
}
