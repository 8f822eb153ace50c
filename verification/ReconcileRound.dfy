/**
 One round of the background task that keeps a client's running instances in step with the table
 (`reconcile_network_configs_on_heartbeat` and its helpers,
 iconnect-web/src/client_manager/session.rs), as a function of the state and of everything the
 outside world answers during the round.
 */
module ReconcileRound {
  import opened Wrappers
  import opened ConfigTable
  import opened WebReconcile

  /** What a client tells about one instance. Source codes are 1 for user and 2 for web. */
  datatype Meta = Meta(inst: Option<Uuid>, source: int)

  const RPC_USER := 1
  const RPC_WEB := 2

  function FromRpc(code: int): Option<ConfigSource> {
    if code == RPC_WEB then Some(Web) else if code == RPC_USER then Some(User) else None
  }

  function ToRpc(source: ConfigSource): int {
    match source
    case User => RPC_USER
    case Web => RPC_WEB
  }

  /** A runtime source replaces a different stored one, but "user" never takes over a web-owned row. */
  predicate ShouldUpdateFromRuntime(stored: ConfigSource, running: ConfigSource) {
    match (stored, running)
    case (Web, User) => false
    case _ => stored != running
  }

  /** The instances a client runs, each with the source it was started with. */
  type Runtime = map<Uuid, ConfigSource>

  /** The task's two local variables that survive from round to round. */
  datatype Cache = Cache(cleaned: bool, last: Option<set<Uuid>>)

  datatype World = World(table: Table, runtime: Runtime, cache: Cache)

  /**
   An answer to a delete call. A client also answers Ok when it keeps instances running because their config
   must not be deleted; an error may come after part of the work was done.
   */
  datatype DeleteOutcome = DeleteOk(kept: set<Uuid>) | DeleteErrored(removed: set<Uuid>)

  /**
   An answer to a run call, whether the instance was started or replaced anyway, and whether a failed call lost the
   instance it was to replace, because neither the new one started nor the old one could be restored.
   */
  datatype RunOutcome = RunOutcome(ok: bool, applied: bool, lost: bool)

  /** The heartbeat's report and the answers of the client and the database during the round. */
  datatype Answers = Answers(
    running: set<Uuid>,
    supportSource: bool,
    metas: Option<seq<Meta>>,
    syncFails: nat -> bool,
    deletion: DeleteOutcome,
    starts: Uuid -> RunOutcome,
    now: int)

  // ---------------------------------------------------------------- listings of one device

  function Rows(t: Table, user: int, machine: Uuid, props: ListProps): map<Uuid, Row> {
    map id | id in (set k | k in t && InScope(k, user, machine) && Lists(props, t[k]) :: k.inst) ::
      t[Key(user, machine, id)]
  }

  /** The web-owned instances of a listing. */
  function WebOf(rows: map<Uuid, Row>): set<Uuid> {
    set id | id in rows && FromDb(rows[id].source) == Web
  }

  lemma RowsAt(t: Table, user: int, machine: Uuid, props: ListProps, id: Uuid)
    ensures id in Rows(t, user, machine, props) <==>
              Key(user, machine, id) in t && Lists(props, t[Key(user, machine, id)])
    ensures id in Rows(t, user, machine, props) ==>
              Rows(t, user, machine, props)[id] == t[Key(user, machine, id)]
  {
    if Key(user, machine, id) in t && Lists(props, t[Key(user, machine, id)]) {
      assert Key(user, machine, id).inst == id;
    }
  }

  // ---------------------------------------------------------------- source sync

  datatype SyncResult = SyncResult(table: Table, ok: bool)

  /** Handle what the client says about one instance, given the listing taken before the sync. */
  function SyncOne(t: Table, user: int, machine: Uuid, local: map<Uuid, Row>, meta: Meta, fails: bool, now: int): SyncResult {
    if meta.inst.None? || meta.inst.value !in local then SyncResult(t, true)
    else
      var id := meta.inst.value;
      match FromRpc(meta.source)
      case None => SyncResult(t, true)
      case Some(source) =>
        if !ShouldUpdateFromRuntime(FromDb(local[id].source), source) then SyncResult(t, true)
        else if local[id].config.Garbled? || fails then SyncResult(t, false)
        else SyncResult(Upsert(t, Key(user, machine, id), local[id].config.config, source, now), true)
  }

  /** Handle the metadata in order, stopping at the first failure. */
  function Sync(t: Table, user: int, machine: Uuid, local: map<Uuid, Row>, metas: seq<Meta>, fails: nat -> bool, now: int): SyncResult {
    if metas == [] then SyncResult(t, true)
    else
      var n := |metas| - 1;
      var before := Sync(t, user, machine, local, metas[..n], fails, now);
      if !before.ok then before else SyncOne(before.table, user, machine, local, metas[n], fails(n), now)
  }

  /** The instances the client reports as web-sourced. */
  function WebReported(metas: seq<Meta>): set<Uuid> {
    set m | m in metas && m.inst.Some? && FromRpc(m.source) == Some(Web) :: m.inst.value
  }

  // ---------------------------------------------------------------- the phases of a round

  /** The metadata available in the round; a client that runs nothing is not asked. */
  function Metas(a: Answers): Option<seq<Meta>> {
    if !a.supportSource then None else if a.running == {} then Some([]) else a.metas
  }

  function Synced(t: Table, user: int, machine: Uuid, a: Answers): SyncResult {
    match Metas(a)
    case None => SyncResult(t, true)
    case Some(metas) => Sync(t, user, machine, Rows(t, user, machine, EnabledOnly), metas, a.syncFails, a.now)
  }

  /** The enabled rows the rest of the round works with. */
  function Local(t: Table, user: int, machine: Uuid, a: Answers): map<Uuid, Row> {
    var synced := Synced(t, user, machine, a);
    if Metas(a).Some? && Metas(a).value != [] && synced.ok
    then Rows(synced.table, user, machine, EnabledOnly)
    else Rows(t, user, machine, EnabledOnly)
  }

  function Desired(t: Table, user: int, machine: Uuid, a: Answers): set<Uuid> {
    WebOf(Local(t, user, machine, a))
  }

  /** The cleanup is skipped when it was done before and the desired set is the cached one. */
  predicate GuardSkips(cache: Cache, desired: set<Uuid>) {
    cache.cleaned && cache.last == Some(desired)
  }

  /** The instances a cleanup would ask the client to delete. */
  function CleanupSet(t: Table, user: int, machine: Uuid, a: Answers): set<Uuid> {
    var runningWeb :=
      match Metas(a)
      case Some(metas) => WebReported(metas)
      case None => a.running * WebOf(Rows(t, user, machine, All));
    runningWeb - Desired(t, user, machine, a)
  }

  /** The instances that a delete call stops. */
  function Removed(request: set<Uuid>, o: DeleteOutcome): set<Uuid> {
    if o.DeleteOk? then request - o.kept else request * o.removed
  }

  function AfterDelete(runtime: Runtime, request: set<Uuid>, o: DeleteOutcome): Runtime {
    runtime - Removed(request, o)
  }

  /** The rows to start: enabled, decodable and not reported as running. */
  function ToRun(local: map<Uuid, Row>, running: set<Uuid>): set<Uuid> {
    set id | id in local && id !in running && local[id].config.Encoded?
  }

  predicate Takes(runtime: Runtime, id: Uuid, o: RunOutcome) {
    o.applied || (o.ok && id !in runtime)
  }

  predicate Loses(o: RunOutcome) {
    !o.ok && !o.applied && o.lost
  }

  /** Answering a run call: a client that already runs the instance leaves it alone unless it replaces or loses it. */
  function Start(runtime: Runtime, id: Uuid, source: ConfigSource, o: RunOutcome): Runtime {
    if Takes(runtime, id, o) then runtime[id := source] else if Loses(o) then runtime - {id} else runtime
  }

  function StartAll(runtime: Runtime, local: map<Uuid, Row>, ids: set<Uuid>, starts: Uuid -> RunOutcome): Runtime
    requires ids <= local.Keys
  {
    map id | id in runtime.Keys + ids
             && (if id in ids then Takes(runtime, id, starts(id)) || (id in runtime && !Loses(starts(id))) else id in runtime) ::
      if id in ids && Takes(runtime, id, starts(id)) then FromDb(local[id].source) else runtime[id]
  }

  /** What a round asks of the client and what it leaves behind. */
  datatype RoundResult = RoundResult(
    world: World,
    skipped: bool,
    deleteRequest: set<Uuid>,
    runRequests: set<Uuid>,
    failed: bool)

  /**
   One round. `guarded` is the code as it is; without it the cleanup is done in every round, which is
   the simple form the cache is meant to speed up.
   */
  function Round(guarded: bool, w: World, user: int, machine: Uuid, a: Answers): RoundResult {
    var local := Local(w.table, user, machine, a);
    var desired := Desired(w.table, user, machine, a);
    var skipped := guarded && GuardSkips(w.cache, desired);
    var request := if skipped then {} else CleanupSet(w.table, user, machine, a);
    var deleteFailed := request != {} && a.deletion.DeleteErrored?;
    var cleaned := if request == {} then w.runtime else AfterDelete(w.runtime, request, a.deletion);
    var cache := if skipped || deleteFailed then w.cache else Cache(true, Some(desired));
    var runs := ToRun(local, a.running);
    var failed := deleteFailed
                  || (exists id :: id in local && id !in a.running && local[id].config.Garbled?)
                  || (exists id :: id in runs && !a.starts(id).ok);
    RoundResult(
      World(Synced(w.table, user, machine, a).table, StartAll(cleaned, local, runs, a.starts),
            if failed then cache else cache.(last := Some(desired))),
      skipped, request, runs, failed)
  }
}
