/**
 The reconcile task and the client it talks to as objects that change in place, proved to do what
 `ReconcileRound.Round` says.
 */
module ReconcileTask {
  import opened Wrappers
  import opened ConfigTable
  import opened WebReconcile
  import opened ReconcileRound
  import opened ReconcileRuns

  /** The client side of the calls (iconnectd/src/rpc_service/instance_manage.rs). */
  class Client {
    var runtime: Runtime

    constructor ()
      ensures runtime == map[]
    {
      runtime := map[];
    }

    /** Metadata of the requested instances; unknown ids are left out. */
    method ListMeta(ids: seq<Uuid>) returns (metas: seq<Meta>)
      ensures (set id | id in ids) >= runtime.Keys ==> Truthful(metas, runtime)
      ensures forall id :: id in WebReported(metas) <==> id in ids && id in WebRunning(runtime)
    {
      metas := [];
      var i := 0;
      while i < |ids|
        invariant 0 <= i <= |ids|
        invariant forall m :: m in metas <==>
          m.inst.Some? && m.inst.value in ids[..i] && m.inst.value in runtime && m.source == ToRpc(runtime[m.inst.value])
      {
        if ids[i] in runtime {
          metas := metas + [Meta(Some(ids[i]), ToRpc(runtime[ids[i]]))];
        }
        i := i + 1;
      }
      assert ids[..i] == ids;
      forall id | id in ids && id in WebRunning(runtime)
        ensures id in WebReported(metas)
      {
        assert Meta(Some(id), ToRpc(runtime[id])) in metas;
      }
    }

    /** Stop the listed instances whose config may be deleted; the others keep running and the answer is still Ok. */
    method DeleteInstances(ids: set<Uuid>, o: DeleteOutcome) returns (ok: bool)
      modifies this
      ensures ok == o.DeleteOk?
      ensures runtime == AfterDelete(old(runtime), ids, o)
    {
      ok := o.DeleteOk?;
      var deletable, todo := {}, ids;
      while todo != {}
        invariant todo <= ids
        invariant forall id :: id in deletable <==> id in Removed(ids, o) && id !in todo
        decreases |todo|
      {
        var id :| id in todo;
        if (ok && id !in o.kept) || (!ok && id in o.removed) {
          deletable := deletable + {id};
        }
        todo := todo - {id};
      }
      assert deletable == Removed(ids, o);
      runtime := runtime - deletable;
    }

    /** Run an instance without overwriting one that is fine. */
    method RunInstance(id: Uuid, source: ConfigSource, o: RunOutcome) returns (ok: bool)
      modifies this
      ensures ok == o.ok
      ensures runtime == Start(old(runtime), id, source, o)
    {
      if o.applied || (o.ok && id !in runtime) {
        runtime := runtime[id := source];
      } else if !o.ok && o.lost {
        runtime := runtime - {id};
      }
      ok := o.ok;
    }
  }

  /** Which of the round's three listings fail. */
  datatype ListFaults = ListFaults(first: bool, reload: bool, all: bool)

  datatype Report = Ignored | Stopped | Ran(deleteRequest: set<Uuid>, runRequests: set<Uuid>)

  // ---------------------------------------------------------------- listings

  /** Index a listing of one device by instance. */
  method RowsById(entries: seq<Entry>, ghost t: Table, ghost user: int, ghost machine: Uuid, ghost props: ListProps)
    returns (rows: map<Uuid, Row>)
    requires machine != NIL_UUID && Enumerates(entries, Listed(t, user, machine, props))
    ensures rows == Rows(t, user, machine, props)
    ensures forall i :: 0 <= i < |entries| ==> entries[i].key.inst in rows && rows[entries[i].key.inst] == entries[i].row
    ensures forall i, j :: 0 <= i < j < |entries| ==> entries[i].key.inst != entries[j].key.inst
    ensures forall id :: id in rows ==> exists i :: 0 <= i < |entries| && entries[i].key.inst == id
  {
    EntriesAreDistinct(entries, t, user, machine, props);
    rows := map[];
    var i := 0;
    while i < |entries|
      invariant 0 <= i <= |entries|
      invariant forall id :: id in rows ==> exists j :: 0 <= j < i && entries[j].key.inst == id
      invariant forall j :: 0 <= j < i ==> entries[j].key.inst in rows && rows[entries[j].key.inst] == entries[j].row
    {
      rows := rows[entries[i].key.inst := entries[i].row];
      i := i + 1;
    }
    forall id
      ensures id in rows <==> id in Rows(t, user, machine, props)
      ensures id in rows ==> rows[id] == Rows(t, user, machine, props)[id]
    {
      EntryOf(entries, t, user, machine, props, id);
    }
  }

  lemma EntriesAreDistinct(entries: seq<Entry>, t: Table, user: int, machine: Uuid, props: ListProps)
    requires machine != NIL_UUID && Enumerates(entries, Listed(t, user, machine, props))
    ensures forall i, j :: 0 <= i < j < |entries| ==> entries[i].key.inst != entries[j].key.inst
  {
    forall i, j | 0 <= i < j < |entries|
      ensures entries[i].key.inst != entries[j].key.inst
    {
      assert InScope(entries[i].key, user, machine) && InScope(entries[j].key, user, machine);
    }
  }

  /** A row of the device is listed under its instance, and only such rows are. */
  lemma EntryOf(entries: seq<Entry>, t: Table, user: int, machine: Uuid, props: ListProps, id: Uuid)
    requires machine != NIL_UUID && Enumerates(entries, Listed(t, user, machine, props))
    ensures id in Rows(t, user, machine, props) <==> exists i :: 0 <= i < |entries| && entries[i].key.inst == id
    ensures forall i :: 0 <= i < |entries| && entries[i].key.inst == id ==>
              id in Rows(t, user, machine, props) && entries[i].row == Rows(t, user, machine, props)[id]
  {
    RowsAt(t, user, machine, props, id);
    forall i | 0 <= i < |entries| && entries[i].key.inst == id
      ensures entries[i].key == Key(user, machine, id)
    {
      assert InScope(entries[i].key, user, machine);
    }
    if id in Rows(t, user, machine, props) {
      assert Key(user, machine, id) in Listed(t, user, machine, props);
      var i :| 0 <= i < |entries| && entries[i].key == Key(user, machine, id);
      assert entries[i].key.inst == id;
    }
  }

  // ---------------------------------------------------------------- the task

  /** Starting one more instance extends the set of instances started. */
  lemma StartStep(runtime: Runtime, local: map<Uuid, Row>, ids: set<Uuid>, id: Uuid, starts: Uuid -> RunOutcome)
    requires ids <= local.Keys && id in local && id !in ids
    ensures Start(StartAll(runtime, local, ids, starts), id, FromDb(local[id].source), starts(id)) ==
            StartAll(runtime, local, ids + {id}, starts)
  {
  }

  /** Write back the sources the client reports, one instance after the other. */
  method SyncRunningConfigSources(db: Db, user: int, machine: Uuid, local: map<Uuid, Row>, metas: seq<Meta>,
                                  fails: nat -> bool, now: int)
    returns (ok: bool)
    modifies db
    ensures SyncResult(db.rows, ok) == Sync(old(db.rows), user, machine, local, metas, fails, now)
  {
    ghost var t := db.rows;
    var i := 0;
    while i < |metas|
      invariant 0 <= i <= |metas|
      invariant Sync(t, user, machine, local, metas[..i], fails, now) == SyncResult(db.rows, true)
    {
      var meta := metas[i];
      assert metas[..i + 1][..i] == metas[..i];
      ghost var step := SyncOne(db.rows, user, machine, local, meta, fails(i), now);
      if meta.inst.Some? && meta.inst.value in local {
        var id := meta.inst.value;
        var source := FromRpc(meta.source);
        if source.Some? && ShouldUpdateFromRuntime(FromDb(local[id].source), source.value) {
          if local[id].config.Garbled? {
            SyncStopsAt(t, user, machine, local, metas, i, fails, now);
            return false;
          }
          ok := db.InsertOrUpdate(Key(user, machine, id), local[id].config.config, source.value, now, fails(i));
          if !ok {
            SyncStopsAt(t, user, machine, local, metas, i, fails, now);
            return;
          }
        }
      }
      assert step == SyncResult(db.rows, true);
      i := i + 1;
    }
    assert metas[..i] == metas;
    ok := true;
  }

  /** A sync that fails on its i-th item ends with what that item left. */
  lemma {:induction false} SyncStopsAt(t: Table, user: int, machine: Uuid, local: map<Uuid, Row>, metas: seq<Meta>, i: nat,
                                       fails: nat -> bool, now: int)
    requires i < |metas| && !Sync(t, user, machine, local, metas[..i + 1], fails, now).ok
    ensures Sync(t, user, machine, local, metas, fails, now) == Sync(t, user, machine, local, metas[..i + 1], fails, now)
    decreases |metas| - i
  {
    if i + 1 == |metas| {
      assert metas[..i + 1] == metas;
    } else {
      assert metas[..i + 2][..i + 1] == metas[..i + 1];
      SyncStopsAt(t, user, machine, local, metas, i + 1, fails, now);
    }
  }

  /** A listing fails before or after the sync. */
  predicate SyncStops(t: Table, user: int, machine: Uuid, a: Answers, faults: ListFaults) {
    faults.first ||
    (faults.reload && Metas(a).Some? && Metas(a).value != [] && Synced(t, user, machine, a).ok)
  }

  /** A listing that the round needs fails. */
  predicate Stops(t: Table, cache: Cache, user: int, machine: Uuid, a: Answers, faults: ListFaults) {
    || SyncStops(t, user, machine, a, faults)
    || (faults.all && !GuardSkips(cache, Desired(t, user, machine, a)))
  }

  class Task {
    var cleaned: bool
    var last: Option<set<Uuid>>

    constructor ()
      ensures GetCache() == Cache(false, None)
    {
      cleaned := false;
      last := None;
    }

    function GetCache(): Cache
      reads this
    {
      Cache(cleaned, last)
    }

    /** Start every enabled row the heartbeat did not report as running. */
    method StartMissing(client: Client, entries: seq<Entry>, ghost local: map<Uuid, Row>, running: set<Uuid>, starts: Uuid -> RunOutcome)
      returns (requests: set<Uuid>, failed: bool)
      requires forall i :: 0 <= i < |entries| ==> entries[i].key.inst in local && local[entries[i].key.inst] == entries[i].row
      requires forall i, j :: 0 <= i < j < |entries| ==> entries[i].key.inst != entries[j].key.inst
      requires forall id :: id in local ==> exists i :: 0 <= i < |entries| && entries[i].key.inst == id
      modifies client
      ensures requests == ToRun(local, running)
      ensures client.runtime == StartAll(old(client.runtime), local, requests, starts)
      ensures failed <==>
                || (exists id :: id in local && id !in running && local[id].config.Garbled?)
                || (exists id :: id in requests && !starts(id).ok)
    {
      requests, failed := {}, false;
      assert StartAll(client.runtime, local, {}, starts) == client.runtime;
      var i := 0;
      while i < |entries|
        invariant 0 <= i <= |entries|
        invariant forall id :: id in requests <==>
          exists j :: 0 <= j < i && entries[j].key.inst == id && id !in running && entries[j].row.config.Encoded?
        invariant requests <= local.Keys
        invariant client.runtime == StartAll(old(client.runtime), local, requests, starts)
        invariant failed <==>
          || (exists j :: 0 <= j < i && entries[j].key.inst !in running && entries[j].row.config.Garbled?)
          || (exists id :: id in requests && !starts(id).ok)
      {
        var id := entries[i].key.inst;
        if id !in running {
          if entries[i].row.config.Garbled? {
            failed := true;
          } else {
            assert id !in requests;
            StartStep(old(client.runtime), local, requests, id, starts);
            var ok := client.RunInstance(id, FromDb(entries[i].row.source), starts(id));
            requests := requests + {id};
            failed := failed || !ok;
          }
        }
        i := i + 1;
      }
    }

    /** List the enabled rows, sync their sources, and list them again if anything could have changed. */
    method SyncPhase(db: Db, user: int, machine: Uuid, a: Answers, faults: ListFaults)
      returns (stopped: bool, entries: seq<Entry>, local: map<Uuid, Row>)
      requires machine != NIL_UUID
      modifies db
      ensures stopped <==> SyncStops(old(db.rows), user, machine, a, faults)
      ensures db.rows == if faults.first then old(db.rows) else Synced(old(db.rows), user, machine, a).table
      ensures !stopped ==> local == Local(old(db.rows), user, machine, a)
      ensures !stopped ==>
                && (forall i :: 0 <= i < |entries| ==>
                      entries[i].key.inst in local && local[entries[i].key.inst] == entries[i].row)
                && (forall i, j :: 0 <= i < j < |entries| ==> entries[i].key.inst != entries[j].key.inst)
                && (forall id :: id in local ==> exists i :: 0 <= i < |entries| && entries[i].key.inst == id)
    {
      stopped, entries, local := faults.first, [], map[];
      if stopped {
        return;
      }
      entries := db.List(user, machine, EnabledOnly);
      local := RowsById(entries, db.rows, user, machine, EnabledOnly);
      var metas := Metas(a);
      if metas.Some? {
        var ok := SyncRunningConfigSources(db, user, machine, local, metas.value, a.syncFails, a.now);
        if ok && metas.value != [] {
          if faults.reload {
            stopped := true;
            return;
          }
          entries := db.List(user, machine, EnabledOnly);
          local := RowsById(entries, db.rows, user, machine, EnabledOnly);
        }
      }
    }

    /** Delete stale web-sourced instances unless the cache says there is nothing new. */
    method CleanupPhase(db: Db, client: Client, user: int, machine: Uuid, desired: set<Uuid>, a: Answers, faults: ListFaults)
      returns (stopped: bool, request: set<Uuid>, failed: bool)
      requires machine != NIL_UUID
      modifies this, client
      ensures stopped <==> faults.all && !GuardSkips(old(GetCache()), desired)
      ensures stopped ==> client.runtime == old(client.runtime) && GetCache() == old(GetCache())
      ensures !stopped ==>
                var runningWeb := match Metas(a)
                                  case Some(ms) => WebReported(ms)
                                  case None => a.running * WebOf(Rows(db.rows, user, machine, All));
                request == if GuardSkips(old(GetCache()), desired) then {} else runningWeb - desired
      ensures !stopped ==> failed == (request != {} && a.deletion.DeleteErrored?)
      ensures !stopped ==>
                client.runtime == if request == {} then old(client.runtime) else AfterDelete(old(client.runtime), request, a.deletion)
      ensures !stopped ==>
                GetCache() == if GuardSkips(old(GetCache()), desired) || failed then old(GetCache()) else Cache(true, Some(desired))
    {
      stopped, request, failed := false, {}, false;
      if !cleaned || last != Some(desired) {
        if faults.all {
          stopped := true;
          return;
        }
        var entries := db.List(user, machine, All);
        var rows := RowsById(entries, db.rows, user, machine, All);
        var runningWeb := match Metas(a) case Some(ms) => WebReported(ms) case None => a.running * WebOf(rows);
        request := runningWeb - desired;
        if request != {} {
          var ok := client.DeleteInstances(request, a.deletion);
          failed := !ok;
        }
        if !failed {
          cleaned := true;
          last := Some(desired);
        }
      }
    }

    /** One round for a known user and device; a failed listing ends it, and with it the task. */
    method RunRound(db: Db, client: Client, user: int, machine: Uuid, a: Answers, faults: ListFaults) returns (report: Report)
      requires machine != NIL_UUID
      modifies this, db, client
      ensures report == Stopped <==> Stops(old(db.rows), old(GetCache()), user, machine, a, faults)
      ensures report == Stopped ==>
                && client.runtime == old(client.runtime) && GetCache() == old(GetCache())
                && db.rows == if faults.first then old(db.rows) else Synced(old(db.rows), user, machine, a).table
      ensures report != Stopped ==>
                var r := Round(true, World(old(db.rows), old(client.runtime), old(GetCache())), user, machine, a);
                && World(db.rows, client.runtime, GetCache()) == r.world
                && report == Ran(r.deleteRequest, r.runRequests)
    {
      ghost var t := db.rows;
      ghost var r := Round(true, World(t, client.runtime, GetCache()), user, machine, a);
      var syncStopped, entries, local := SyncPhase(db, user, machine, a, faults);
      if syncStopped {
        return Stopped;
      }
      var desired := WebOf(local);
      if Metas(a).None? { assert db.rows == t; }
      var cleanupStopped, request, failed := CleanupPhase(db, client, user, machine, desired, a, faults);
      if cleanupStopped {
        return Stopped;
      }
      assert request == r.deleteRequest && db.rows == r.world.table;
      var requests, startFailed := StartMissing(client, entries, local, a.running, a.starts);
      assert requests == r.runRequests && client.runtime == r.world.runtime;
      assert r.failed <==> failed || startFailed;
      if !failed && !startFailed {
        last := Some(desired);
      }
      return Ran(request, requests);
    }

    /** One turn of the task's loop. A missing machine id is ignored; an unknown user ends the task. */
    method OnHeartbeat(db: Db, client: Client, userId: Option<int>, machineId: Option<Uuid>, a: Answers, faults: ListFaults)
      returns (report: Report)
      requires machineId != Some(NIL_UUID)
      modifies this, db, client
      ensures report == Ignored <==> machineId.None?
      ensures report == Stopped <==>
                && machineId.Some?
                && (userId.None? || Stops(old(db.rows), old(GetCache()), userId.value, machineId.value, a, faults))
      ensures report == Ignored || userId.None? ==>
                db.rows == old(db.rows) && client.runtime == old(client.runtime) && GetCache() == old(GetCache())
      ensures report == Stopped ==> client.runtime == old(client.runtime) && GetCache() == old(GetCache())
      ensures report.Ran? ==>
                var r := Round(true, World(old(db.rows), old(client.runtime), old(GetCache())), userId.value, machineId.value, a);
                && World(db.rows, client.runtime, GetCache()) == r.world
                && report == Ran(r.deleteRequest, r.runRequests)
    {
      if machineId.None? {
        return Ignored;
      }
      if userId.None? {
        return Stopped;
      }
      report := RunRound(db, client, userId.value, machineId.value, a, faults);
    }
  }
}
