/**
 Concurrent heartbeats of one session (`handle_heartbeat`, iconnect-web/src/client_manager/session.rs).

 Each heartbeat is a task that is split at its awaits: every lock acquisition, every call to the
 webhook and every database statement is a step of its own, and the steps of different tasks interleave
 freely. What the outside world answers is part of a step, so a run is a list of steps.
 */
module HeartbeatSession {
  import opened Wrappers
  import opened ConfigTable
  import opened WebReconcile

  datatype Request = Request(userToken: string, machine: Option<Uuid>)

  datatype Token = Token(userToken: string, machine: Uuid, user: int)

  /** A validation response that accepted the token. */
  datatype Response = Response(bindingVersion: nat, configs: Option<seq<ManagedConfig>>, revision: string)

  datatype Settings = Settings(lib: Library, webhookEnabled: bool)

  /** What a task knows once the user is settled; `response` is present when the webhook was asked. */
  datatype Resolution = Resolution(
    request: Request,
    machine: Uuid,
    applied: Option<string>,
    user: int,
    response: Option<Response>,
    binding: Option<nat>)

  datatype Ending =
    | Succeeded
    | Failed
    | StorageGone
    | TokenMissing        // "Storage token not found for non-first heartbeat"
    | TokenUninitialised  // "Heartbeat succeeded before session token was initialized"
    | AssertionFired

  datatype Task =
    | Entered(request: Request)
    | KnowsApplied(request: Request, applied: Option<string>)
    | Counted(request: Request, machine: Uuid, applied: Option<string>, callWebhook: bool, cached: Option<Token>)
    | Resolved(info: Resolution)
    | Writing(info: Resolution, plan: map<Uuid, NetworkConfig>, stale: set<Uuid>)
    | Ready(info: Resolution, reconciled: bool)
    | Finished(ending: Ending)

  datatype Notice = Notice(token: Token, binding: Option<nat>)

  /** The session data, the table, and records of what happened. */
  datatype State = State(
    req: Option<Request>,
    token: Option<Token>,
    binding: Option<nat>,
    applied: Option<string>,
    count: nat,
    table: Table,
    tasks: map<nat, Task>,
    connects: seq<Notice>,
    reconciles: seq<Response>)

  datatype Answer =
    | UserError
    | UserFound(user: int)
    | WebhookError
    | WebhookValid(response: Response, owner: Option<int>)

  datatype Step =
    | Enter(id: nat, request: Request)
    | ReadApplied(id: nat, storageAlive: bool)
    | Count(id: nat)
    | Resolve(id: nat, answer: Answer)
    | BeginReconcile(id: nat, listOk: bool)
    | WriteOne(id: nat, inst: Uuid, ok: bool, now: int)
    | DeleteStale(id: nat, ok: bool)
    | Commit(id: nat)
    | Edit(newTable: Table)

  const COUNT_WRAP := 0x1_0000_0000

  function Init(t: Table): State {
    State(None, None, None, None, 0, t, map[], [], [])
  }

  function Set(s: State, id: nat, task: Task): State {
    s.(tasks := s.tasks[id := task])
  }

  /** The configs of a response; they may be omitted only for the revision already applied. */
  function ManagedConfigsForRevision(applied: Option<string>, resp: Response): Option<seq<ManagedConfig>> {
    match resp.configs
    case Some(configs) => Some(configs)
    case None => if applied == Some(resp.revision) then Some([]) else None
  }

  predicate ShouldReconcile(info: Resolution) {
    info.response.Some? && info.applied != Some(info.response.value.revision)
  }

  function OnCount(cfg: Settings, s: State, id: nat, request: Request, applied: Option<string>): State {
    if request.machine.None? then Set(s, id, Finished(Failed))
    else
      var count := (s.count + 1) % COUNT_WRAP;
      var call := cfg.webhookEnabled && (s.req.None? || count % 10 == 1);
      Set(s.(count := count), id, Counted(request, request.machine.value, applied, call, s.token))
  }

  function OnResolve(cfg: Settings, s: State, id: nat, task: Task, answer: Answer): State
    requires task.Counted?
  {
    if !cfg.webhookEnabled then
      if answer.UserFound?
      then Set(s, id, Resolved(Resolution(task.request, task.machine, task.applied, answer.user, None, None)))
      else Set(s, id, Finished(Failed))
    else if !task.callWebhook then
      if task.cached.None? then Set(s, id, Finished(TokenMissing))
      else Set(s, id, Resolved(Resolution(task.request, task.machine, task.applied, task.cached.value.user, None, s.binding)))
    else if answer.WebhookValid? && answer.owner.Some? && ManagedConfigsForRevision(task.applied, answer.response).Some? then
      Set(s, id, Resolved(Resolution(task.request, task.machine, task.applied, answer.owner.value, Some(answer.response),
                                     Some(answer.response.bindingVersion))))
    else Set(s, id, Finished(Failed))
  }

  function OnBegin(cfg: Settings, s: State, id: nat, info: Resolution, listOk: bool): State {
    if !ShouldReconcile(info) then Set(s, id, Ready(info, false))
    else
      var sources := ScopeSources(s.table, info.user, info.machine);
      var configs := ManagedConfigsForRevision(info.applied, info.response.value);
      if !listOk || configs.None? || Plan(cfg.lib, sources, configs.value).None? then Set(s, id, Finished(Failed))
      else
        var plan := Plan(cfg.lib, sources, configs.value).value;
        Set(s, id, Writing(info, plan, WebSourced(sources) - plan.Keys))
  }

  function OnCommit(cfg: Settings, s: State, id: nat, info: Resolution, reconciled: bool): State {
    var s1 := if reconciled && info.response.Some? then s.(applied := Some(info.response.value.revision)) else s;
    var s2 := s1.(req := Some(info.request));
    if s.req.Some? then
      Set(s2, id, Finished(if s2.token.None? then TokenUninitialised else Succeeded))
    else if s.token.Some? then
      Set(s2, id, Finished(AssertionFired))
    else
      var token := Token(info.request.userToken, info.machine, info.user);
      var s3 := s2.(token := Some(token), binding := info.binding,
                    connects := if cfg.webhookEnabled then s.connects + [Notice(token, info.binding)] else s.connects);
      Set(s3, id, Finished(Succeeded))
  }

  function OnWrite(s: State, id: nat, task: Task, inst: Uuid, ok: bool, now: int): State
    requires task.Writing?
  {
    if inst !in task.plan then s
    else if !ok then Set(s, id, Finished(Failed))
    else
      var k := Key(task.info.user, task.info.machine, inst);
      Set(s.(table := Upsert(s.table, k, task.plan[inst], Web, now)), id, task.(plan := task.plan - {inst}))
  }

  function OnDelete(s: State, id: nat, task: Task, ok: bool): State
    requires task.Writing?
  {
    if task.plan != map[] then s
    else if !ok && task.stale != {} then Set(s, id, Finished(Failed))
    else
      var done := if task.info.response.Some? then [task.info.response.value] else [];
      Set(s.(table := DeleteMany(s.table, task.info.user, task.info.machine, task.stale), reconciles := s.reconciles + done),
          id, Ready(task.info, true))
  }

  /** A step of task `id`. */
  function OnTask(cfg: Settings, s: State, id: nat, task: Task, step: Step): State {
    match step
    case ReadApplied(_, alive) =>
      if task.Entered? then Set(s, id, if alive then KnowsApplied(task.request, s.applied) else Finished(StorageGone)) else s
    case Count(_) => if task.KnowsApplied? then OnCount(cfg, s, id, task.request, task.applied) else s
    case Resolve(_, answer) => if task.Counted? then OnResolve(cfg, s, id, task, answer) else s
    case BeginReconcile(_, listOk) => if task.Resolved? then OnBegin(cfg, s, id, task.info, listOk) else s
    case WriteOne(_, inst, ok, now) => if task.Writing? then OnWrite(s, id, task, inst, ok, now) else s
    case DeleteStale(_, ok) => if task.Writing? then OnDelete(s, id, task, ok) else s
    case Commit(_) => if task.Ready? then OnCommit(cfg, s, id, task.info, task.reconciled) else s
    case Enter(_, _) => s
    case Edit(_) => s
  }

  /** One step. A step that is not possible in the current state changes nothing. */
  function Next(cfg: Settings, s: State, step: Step): State {
    if step.Edit? then s.(table := step.newTable)
    else if step.Enter? then (if step.id in s.tasks then s else Set(s, step.id, Entered(step.request)))
    else if step.id in s.tasks then OnTask(cfg, s, step.id, s.tasks[step.id], step)
    else s
  }

  function Run(cfg: Settings, t: Table, steps: seq<Step>): State {
    if steps == [] then Init(t)
    else Next(cfg, Run(cfg, t, steps[..|steps| - 1]), steps[|steps| - 1])
  }

  // ---------------------------------------------------------------- the invariant

  ghost predicate IdentityInv(cfg: Settings, s: State) {
    && (s.req.Some? <==> s.token.Some?)
    && s.connects == (if cfg.webhookEnabled && s.token.Some? then [Notice(s.token.value, s.binding)] else [])
  }

  ghost predicate TaskInv(cfg: Settings, s: State, task: Task) {
    match task
    case Counted(_, _, _, call, cached) =>
      && (cached.Some? ==> s.token == cached)
      && (cfg.webhookEnabled && !call ==> cached.Some?)
    case Writing(info, _, _) => ShouldReconcile(info) && info.response.value.configs.Some?
    case Ready(info, reconciled) =>
      reconciled ==> info.response.Some? && info.response.value.configs.Some? && info.response.value in s.reconciles
    case Finished(ending) =>
      && ending != TokenMissing && ending != TokenUninitialised && ending != AssertionFired
      && (ending == Succeeded ==> s.token.Some?)
    case _ => true
  }

  ghost predicate Inv(cfg: Settings, s: State) {
    && IdentityInv(cfg, s)
    && (forall id :: id in s.tasks ==> TaskInv(cfg, s, s.tasks[id]))
    && (s.applied.Some? ==>
          exists r :: r in s.reconciles && r.revision == s.applied.value && r.configs.Some?)
  }

  /** What a step may never do, whatever it does. */
  ghost predicate Monotone(s: State, s': State) {
    && (s.token.Some? ==> s'.token == s.token && s'.binding == s.binding)
    && s.connects <= s'.connects
    && s.reconciles <= s'.reconciles
  }

  /** Only a commit touches the identity of the session or the applied revision. */
  lemma QuietStep(cfg: Settings, s: State, step: Step)
    requires !step.Commit?
    ensures var s' := Next(cfg, s, step);
            && s'.req == s.req && s'.token == s.token && s'.binding == s.binding && s'.connects == s.connects
            && s'.applied == s.applied && s.reconciles <= s'.reconciles
  {
    match step
    case Resolve(_, _) =>
    case BeginReconcile(_, _) =>
    case WriteOne(_, _, _, _) =>
    case DeleteStale(_, _) =>
    case _ =>
  }

  lemma CommitKeepsIdentity(cfg: Settings, s: State, id: nat, info: Resolution, reconciled: bool)
    requires IdentityInv(cfg, s)
    ensures var s' := OnCommit(cfg, s, id, info, reconciled);
            IdentityInv(cfg, s') && Monotone(s, s') && s'.reconciles == s.reconciles && TaskInv(cfg, s', s'.tasks[id])
  {
  }

  lemma StepKeepsIdentity(cfg: Settings, s: State, step: Step)
    requires IdentityInv(cfg, s)
    ensures IdentityInv(cfg, Next(cfg, s, step)) && Monotone(s, Next(cfg, s, step))
  {
    if !step.Commit? {
      QuietStep(cfg, s, step);
    } else if step.id in s.tasks && s.tasks[step.id].Ready? {
      CommitKeepsIdentity(cfg, s, step.id, s.tasks[step.id].info, s.tasks[step.id].reconciled);
    }
  }

  lemma BeginKeepsTask(cfg: Settings, s: State, id: nat, info: Resolution, listOk: bool)
    ensures var s' := OnBegin(cfg, s, id, info, listOk);
            TaskInv(cfg, s', s'.tasks[id])
  {
  }

  lemma QuietStepKeepsOwnTask(cfg: Settings, s: State, step: Step)
    requires Inv(cfg, s) && !step.Edit? && !step.BeginReconcile? && !step.Commit? && step.id in s.tasks
    ensures TaskInv(cfg, Next(cfg, s, step), Next(cfg, s, step).tasks[step.id])
  {
    var task := s.tasks[step.id];
    assert TaskInv(cfg, s, task);
    match step
    case Enter(_, _) =>
    case ReadApplied(_, _) =>
    case Count(_) =>
    case Resolve(_, _) =>
    case WriteOne(_, _, _, _) =>
    case DeleteStale(_, _) =>
  }

  /** The task that takes a step ends up in a state allowed by the invariant. */
  lemma StepKeepsOwnTask(cfg: Settings, s: State, step: Step)
    requires Inv(cfg, s) && !step.Edit? && step.id in Next(cfg, s, step).tasks
    ensures TaskInv(cfg, Next(cfg, s, step), Next(cfg, s, step).tasks[step.id])
  {
    if step.id in s.tasks {
      var task := s.tasks[step.id];
      assert TaskInv(cfg, s, task);
      match step
      case BeginReconcile(_, listOk) => if task.Resolved? { BeginKeepsTask(cfg, s, step.id, task.info, listOk); }
      case Commit(_) => if task.Ready? { CommitKeepsIdentity(cfg, s, step.id, task.info, task.reconciled); }
      case _ => QuietStepKeepsOwnTask(cfg, s, step);
    }
  }

  lemma TaskInvIsStable(cfg: Settings, s: State, s': State, task: Task)
    requires TaskInv(cfg, s, task) && Monotone(s, s')
    ensures TaskInv(cfg, s', task)
  {
  }

  lemma OtherTasksUntouched(cfg: Settings, s: State, step: Step, id: nat)
    requires step.Edit? || id != step.id
    ensures id in Next(cfg, s, step).tasks <==> id in s.tasks
    ensures id in s.tasks ==> Next(cfg, s, step).tasks[id] == s.tasks[id]
  {
    match step
    case Resolve(_, _) =>
    case BeginReconcile(_, _) =>
    case WriteOne(_, _, _, _) =>
    case DeleteStale(_, _) =>
    case Commit(_) =>
    case _ =>
  }

  lemma AppliedHasEvidence(cfg: Settings, s: State, step: Step)
    requires Inv(cfg, s) && Next(cfg, s, step).applied.Some?
    ensures var s' := Next(cfg, s, step);
            exists r :: r in s'.reconciles && r.revision == s'.applied.value && r.configs.Some?
  {
    var s' := Next(cfg, s, step);
    if step.Commit? && step.id in s.tasks && s.tasks[step.id].Ready? {
      var task := s.tasks[step.id];
      assert TaskInv(cfg, s, task);
      assert s' == OnCommit(cfg, s, step.id, task.info, task.reconciled);
      assert s'.reconciles == s.reconciles;
      if task.reconciled {
        assert task.info.response.value in s'.reconciles;
      }
    } else {
      if !step.Commit? { QuietStep(cfg, s, step); } else { assert s' == s; }
      var r :| r in s.reconciles && r.revision == s.applied.value && r.configs.Some?;
      assert r in s'.reconciles;
    }
  }

  lemma StepKeepsInv(cfg: Settings, s: State, step: Step)
    requires Inv(cfg, s)
    ensures Inv(cfg, Next(cfg, s, step))
  {
    var s' := Next(cfg, s, step);
    StepKeepsIdentity(cfg, s, step);
    forall id | id in s'.tasks
      ensures TaskInv(cfg, s', s'.tasks[id])
    {
      if !step.Edit? && id == step.id {
        StepKeepsOwnTask(cfg, s, step);
      } else {
        OtherTasksUntouched(cfg, s, step, id);
        TaskInvIsStable(cfg, s, s', s.tasks[id]);
      }
    }
    if s'.applied.Some? {
      AppliedHasEvidence(cfg, s, step);
    }
  }

  lemma {:induction false} InvOverRuns(cfg: Settings, t: Table, steps: seq<Step>)
    ensures Inv(cfg, Run(cfg, t, steps))
  {
    if steps != [] {
      InvOverRuns(cfg, t, steps[..|steps| - 1]);
      StepKeepsInv(cfg, Run(cfg, t, steps[..|steps| - 1]), steps[|steps| - 1]);
    }
  }

  // ---------------------------------------------------------------- session identity

  /** In every interleaving: request and token come together, and no impossible branch is taken. */
  lemma SessionIdentity(cfg: Settings, t: Table, steps: seq<Step>)
    ensures var s := Run(cfg, t, steps);
            && (s.req.Some? <==> s.token.Some?)
            && (forall id :: id in s.tasks ==>
                  s.tasks[id] != Finished(TokenMissing) && s.tasks[id] != Finished(TokenUninitialised)
                  && s.tasks[id] != Finished(AssertionFired))
  {
    InvOverRuns(cfg, t, steps);
    var s := Run(cfg, t, steps);
    assert forall id :: id in s.tasks ==> TaskInv(cfg, s, s.tasks[id]);
  }

  /** Token and binding version, once set, keep their value for the rest of the session. */
  lemma {:induction false} TokenSetOnce(cfg: Settings, t: Table, steps: seq<Step>, n: nat)
    requires n <= |steps|
    ensures Monotone(Run(cfg, t, steps[..n]), Run(cfg, t, steps))
    decreases |steps|
  {
    if n == |steps| {
      assert steps[..n] == steps;
    } else {
      var m := |steps| - 1;
      assert steps[..m][..n] == steps[..n];
      TokenSetOnce(cfg, t, steps[..m], n);
      InvOverRuns(cfg, t, steps[..m]);
      StepKeepsIdentity(cfg, Run(cfg, t, steps[..m]), steps[m]);
    }
  }

  /** What dropping the session tells the webhook, if the storage is still there. */
  function Disconnects(cfg: Settings, s: State): seq<Notice> {
    if cfg.webhookEnabled && s.token.Some? then [Notice(s.token.value, s.binding)] else []
  }

  /**
   With the webhook on, a session in which some heartbeat succeeded made exactly one connect
   notification, and dropping it makes one disconnect notification for the same token and binding.
   */
  lemma OneConnectPerSession(cfg: Settings, t: Table, steps: seq<Step>)
    ensures var s := Run(cfg, t, steps);
            && s.connects == Disconnects(cfg, s)
            && |s.connects| <= 1
            && ((exists id :: id in s.tasks && s.tasks[id] == Finished(Succeeded)) && cfg.webhookEnabled ==> |s.connects| == 1)
  {
    InvOverRuns(cfg, t, steps);
    var s := Run(cfg, t, steps);
    if id :| id in s.tasks && s.tasks[id] == Finished(Succeeded) {
      assert TaskInv(cfg, s, s.tasks[id]);
    }
  }

  // ---------------------------------------------------------------- omitted configs

  /** The response behind a task, if its webhook answered. */
  function ResponseOf(task: Task): Option<Response> {
    match task
    case Resolved(info) => info.response
    case Writing(info, _, _) => info.response
    case Ready(info, _) => info.response
    case _ => None
  }

  /** No task of any run whose response omits the configs ever changes a stored row. */
  lemma OmittedConfigsNeverWipe(cfg: Settings, t: Table, steps: seq<Step>, step: Step)
    requires !step.Edit?
    ensures var s := Run(cfg, t, steps);
            Next(cfg, s, step).table != s.table ==>
              step.id in s.tasks && ResponseOf(s.tasks[step.id]).Some? && ResponseOf(s.tasks[step.id]).value.configs.Some?
  {
    InvOverRuns(cfg, t, steps);
    var s := Run(cfg, t, steps);
    if Next(cfg, s, step).table != s.table {
      assert TaskInv(cfg, s, s.tasks[step.id]);
    }
  }

  /** A revision is recorded as applied only by a task that completed the reconcile of a response with that revision. */
  lemma AppliedOnlyAfterReconcile(cfg: Settings, t: Table, steps: seq<Step>, step: Step)
    ensures var s := Run(cfg, t, steps);
            var s' := Next(cfg, s, step);
            && (s'.applied != s.applied ==>
                  && step.Commit? && step.id in s.tasks && s.tasks[step.id].Ready? && s.tasks[step.id].reconciled
                  && ResponseOf(s.tasks[step.id]).Some? && ResponseOf(s.tasks[step.id]).value in s.reconciles
                  && ResponseOf(s.tasks[step.id]).value.configs.Some?
                  && s'.applied == Some(ResponseOf(s.tasks[step.id]).value.revision))
  {
    InvOverRuns(cfg, t, steps);
    var s := Run(cfg, t, steps);
    if Next(cfg, s, step).applied != s.applied {
      assert TaskInv(cfg, s, s.tasks[step.id]);
    }
  }
}
