/**
 What holds over whole runs of the reconcile task: the cleanup guard changes nothing, a round without
 failures converges, and deletes only ever hit stale web-sourced instances.
 */
module ReconcileRuns {
  import opened Wrappers
  import opened ConfigTable
  import opened WebReconcile
  import opened ReconcileRound

  function WebRunning(runtime: Runtime): set<Uuid> {
    set id | id in runtime && runtime[id] == Web
  }

  // ---------------------------------------------------------------- assumptions about the client

  /** The metadata tells the truth about every running instance. */
  ghost predicate Truthful(metas: seq<Meta>, runtime: Runtime) {
    && (forall m :: m in metas ==>
          m.inst.Some? && m.inst.value in runtime && m.source == ToRpc(runtime[m.inst.value]))
    && (forall id :: id in runtime ==> Meta(Some(id), ToRpc(runtime[id])) in metas)
  }

  /** The heartbeat is fresh and the client answers the metadata call truthfully. */
  ghost predicate Informed(runtime: Runtime, a: Answers) {
    && a.running == runtime.Keys
    && a.supportSource
    && (runtime.Keys == {} || (a.metas.Some? && Truthful(a.metas.value, runtime)))
  }

  /** The round is informed, its delete call does not fail, and of what it asks for exactly the `fixed` instances are kept. */
  ghost predicate Benign(w: World, user: int, machine: Uuid, a: Answers, fixed: set<Uuid>) {
    var request := CleanupSet(w.table, user, machine, a);
    Informed(w.runtime, a) && a.deletion.DeleteOk? && request * a.deletion.kept == request * fixed
  }

  /** Nothing fails: every write and every start succeeds, and every enabled row decodes. */
  ghost predicate Flawless(t: Table, user: int, machine: Uuid, a: Answers) {
    && (forall n :: !a.syncFails(n))
    && (forall id :: a.starts(id).ok)
    && (forall k :: k in t && InScope(k, user, machine) && !t[k].disabled ==> t[k].config.Encoded?)
  }

  lemma TruthfulWeb(runtime: Runtime, a: Answers)
    requires Informed(runtime, a)
    ensures Metas(a).Some? && WebReported(Metas(a).value) == WebRunning(runtime)
    ensures Truthful(Metas(a).value, runtime)
  {
    var metas := Metas(a).value;
    forall id | id in WebRunning(runtime)
      ensures id in WebReported(metas)
    {
      assert Meta(Some(id), ToRpc(runtime[id])) in metas;
    }
  }

  // ---------------------------------------------------------------- source sync

  /** Enabled user-owned rows of the given instances become web-owned; nothing else changes. */
  function Promoted(t: Table, user: int, machine: Uuid, ids: set<Uuid>, now: int): Table {
    map k | k in t ::
      if InScope(k, user, machine) && k.inst in ids && !t[k].disabled && FromDb(t[k].source) == User
      then t[k].(source := "web", updateTime := now) else t[k]
  }

  lemma NothingPromoted(t: Table, user: int, machine: Uuid, now: int)
    ensures Promoted(t, user, machine, WebReported([]), now) == t
  {
  }

  lemma SyncOneFails(t: Table, user: int, machine: Uuid, local: map<Uuid, Row>, meta: Meta, fails: bool, now: int)
    ensures var r := SyncOne(t, user, machine, local, meta, fails, now); !r.ok ==> r.table == t
  {
  }

  /** One more piece of metadata either promotes its row or fails and changes nothing. */
  lemma SyncNext(t: Table, user: int, machine: Uuid, init: seq<Meta>, last: Meta, fails: nat -> bool, now: int)
    ensures var local := Rows(t, user, machine, EnabledOnly);
            var before := Sync(t, user, machine, local, init, fails, now);
            var after := Sync(t, user, machine, local, init + [last], fails, now);
            && (!before.ok ==> after == before)
            && (!after.ok ==> after.table == before.table)
            && (before.ok && after.ok && before.table == Promoted(t, user, machine, WebReported(init), now) ==>
                  after.table == Promoted(t, user, machine, WebReported(init + [last]), now))
            && (before.ok ==> (!after.ok <==> SyncFailsAt(local, last, fails(|init|))))
  {
    var metas := init + [last];
    assert metas[..|init|] == init && metas[|init|] == last;
    var before := Sync(t, user, machine, Rows(t, user, machine, EnabledOnly), init, fails, now);
    SyncOneFails(before.table, user, machine, Rows(t, user, machine, EnabledOnly), last, fails(|init|), now);
    SyncOnePromotes(t, user, machine, init, last, fails(|init|), now);
  }

  /** The metadata calls for an update that cannot be made: the row is unreadable or its write fails. */
  predicate SyncFailsAt(local: map<Uuid, Row>, meta: Meta, fails: bool) {
    && meta.inst.Some? && meta.inst.value in local
    && FromRpc(meta.source) == Some(Web) && FromDb(local[meta.inst.value].source) == User
    && (local[meta.inst.value].config.Garbled? || fails)
  }

  /** `n` is the number of pieces of metadata that a sync gets through. */
  ghost predicate GetsThrough(t: Table, user: int, machine: Uuid, metas: seq<Meta>, fails: nat -> bool, n: nat) {
    var local := Rows(t, user, machine, EnabledOnly);
    && n <= |metas|
    && (forall i :: 0 <= i < n ==> !SyncFailsAt(local, metas[i], fails(i)))
    && (n < |metas| ==> SyncFailsAt(local, metas[n], fails(n)))
  }

  /** A sync promotes the rows reported as web by the metadata it got through, and does nothing else. */
  lemma {:induction false} SyncMeaning(t: Table, user: int, machine: Uuid, metas: seq<Meta>, fails: nat -> bool, now: int) returns (n: nat)
    ensures GetsThrough(t, user, machine, metas, fails, n)
    ensures var r := Sync(t, user, machine, Rows(t, user, machine, EnabledOnly), metas, fails, now);
            r.table == Promoted(t, user, machine, WebReported(metas[..n]), now) && (r.ok <==> n == |metas|)
  {
    if metas == [] {
      n := 0;
      NothingPromoted(t, user, machine, now);
    } else {
      var init, last := metas[..|metas| - 1], metas[|metas| - 1];
      assert metas == init + [last];
      n := SyncMeaning(t, user, machine, init, fails, now);
      SyncNext(t, user, machine, init, last, fails, now);
      assert init[..n] == metas[..n];
      assert forall i :: 0 <= i < |init| ==> init[i] == metas[i];
      if Sync(t, user, machine, Rows(t, user, machine, EnabledOnly), metas, fails, now).ok {
        assert init[..n] == init;
        n := |metas|;
        assert metas[..n] == metas;
      }
    }
  }

  lemma SyncOnePromotes(t: Table, user: int, machine: Uuid, init: seq<Meta>, meta: Meta, fails: bool, now: int)
    ensures var local := Rows(t, user, machine, EnabledOnly);
            var r := SyncOne(Promoted(t, user, machine, WebReported(init), now), user, machine, local, meta, fails, now);
            r.ok ==> r.table == Promoted(t, user, machine, WebReported(init + [meta]), now)
  {
    var ids := WebReported(init);
    var ids' := WebReported(init + [meta]);
    if meta.inst.Some? && FromRpc(meta.source) == Some(Web) {
      assert ids' == ids + {meta.inst.value} by {
        assert forall m :: m in init + [meta] <==> m in init || m == meta;
      }
      var id := meta.inst.value;
      RowsAt(t, user, machine, EnabledOnly, id);
      forall k | k in t && InScope(k, user, machine) && k.inst == id
        ensures k == Key(user, machine, id)
      {
      }
    } else {
      assert ids' == ids by {
        assert forall m :: m in init + [meta] <==> m in init || m == meta;
      }
    }
  }

  /** Syncing neither adds nor removes rows, nor changes which are enabled or what they hold. */
  lemma SyncedKeepsRows(t: Table, user: int, machine: Uuid, a: Answers)
    ensures var t' := Synced(t, user, machine, a).table;
            && t'.Keys == t.Keys
            && (forall k :: k in t ==> t'[k].config == t[k].config && t'[k].disabled == t[k].disabled)
            && (forall k :: k in t && FromDb(t[k].source) == Web ==> t'[k] == t[k])
            && (forall k :: k in t && !InScope(k, user, machine) ==> t'[k] == t[k])
  {
    if Metas(a).Some? {
      var _ := SyncMeaning(t, user, machine, Metas(a).value, a.syncFails, a.now);
    }
  }

  /** Without failing writes and garbled rows a sync goes through. */
  lemma {:induction false} SyncSucceeds(t: Table, user: int, machine: Uuid, local: map<Uuid, Row>, metas: seq<Meta>, fails: nat -> bool, now: int)
    requires forall n :: !fails(n)
    requires forall id :: id in local ==> local[id].config.Encoded?
    ensures Sync(t, user, machine, local, metas, fails, now).ok
  {
    if metas != [] {
      SyncSucceeds(t, user, machine, local, metas[..|metas| - 1], fails, now);
    }
  }

  /** In a flawless informed round the listing used is that of the table after the sync. */
  lemma FlawlessLocal(t: Table, runtime: Runtime, user: int, machine: Uuid, a: Answers)
    requires Informed(runtime, a) && Flawless(t, user, machine, a)
    ensures Synced(t, user, machine, a) == SyncResult(Promoted(t, user, machine, WebRunning(runtime), a.now), true)
    ensures Local(t, user, machine, a) == Rows(Synced(t, user, machine, a).table, user, machine, EnabledOnly)
    ensures forall id :: id in Local(t, user, machine, a) ==> Local(t, user, machine, a)[id].config.Encoded?
  {
    TruthfulWeb(runtime, a);
    var metas := Metas(a).value;
    var local := Rows(t, user, machine, EnabledOnly);
    SyncSucceeds(t, user, machine, local, metas, a.syncFails, a.now);
    var n := SyncMeaning(t, user, machine, metas, a.syncFails, a.now);
    assert metas[..n] == metas;
  }

  // ---------------------------------------------------------------- the guard

  /** Once cleaned, every web-sourced instance that a delete can stop is in the cached desired set. */
  ghost predicate GuardInv(w: World, fixed: set<Uuid>) {
    && (w.cache.cleaned <==> w.cache.last.Some?)
    && (w.cache.cleaned ==> WebRunning(w.runtime) - fixed <= w.cache.last.value)
  }

  lemma WebAfterStarts(runtime: Runtime, local: map<Uuid, Row>, ids: set<Uuid>, starts: Uuid -> RunOutcome)
    requires ids <= local.Keys && ids !! runtime.Keys
    ensures WebRunning(StartAll(runtime, local, ids, starts)) ==
              WebRunning(runtime) + (set id | id in ids && id in WebOf(local) && (starts(id).ok || starts(id).applied))
  {
  }

  lemma WebAfterDelete(runtime: Runtime, request: set<Uuid>, o: DeleteOutcome)
    ensures WebRunning(AfterDelete(runtime, request, o)) ==
              WebRunning(runtime) - Removed(request, o)
  {
  }

  /** The web-owned instances that a round starts with success, or replaces anyway. */
  function StartedWeb(t: Table, user: int, machine: Uuid, a: Answers): set<Uuid> {
    set id | id in ToRun(Local(t, user, machine, a), a.running) && id in Desired(t, user, machine, a)
             && (a.starts(id).ok || a.starts(id).applied)
  }

  /** The sources a round leaves running, in terms of what ran before. */
  lemma WebAfterRound(guarded: bool, w: World, user: int, machine: Uuid, a: Answers)
    requires a.running == w.runtime.Keys
    ensures var r := Round(guarded, w, user, machine, a);
            WebRunning(r.world.runtime) ==
              (WebRunning(w.runtime) - Removed(r.deleteRequest, a.deletion)) + StartedWeb(w.table, user, machine, a)
  {
    var r := Round(guarded, w, user, machine, a);
    var cleaned := if r.deleteRequest == {} then w.runtime else AfterDelete(w.runtime, r.deleteRequest, a.deletion);
    WebAfterDelete(w.runtime, r.deleteRequest, a.deletion);
    WebAfterStarts(cleaned, Local(w.table, user, machine, a), r.runRequests, a.starts);
  }

  /** In an informed round with a true invariant, a skipped cleanup had nothing to delete but what cannot be deleted. */
  lemma SkipIsHarmless(w: World, user: int, machine: Uuid, a: Answers, fixed: set<Uuid>)
    requires GuardInv(w, fixed) && Informed(w.runtime, a)
    requires GuardSkips(w.cache, Desired(w.table, user, machine, a))
    ensures CleanupSet(w.table, user, machine, a) <= fixed
  {
    TruthfulWeb(w.runtime, a);
  }

  /** The assignment at the end of a round never changes the cache. */
  lemma FinalAssignmentIsIdle(w: World, user: int, machine: Uuid, a: Answers)
    ensures var r := Round(true, w, user, machine, a);
            r.world.cache == (if r.skipped || (r.deleteRequest != {} && a.deletion.DeleteErrored?) then w.cache
                              else Cache(true, Some(Desired(w.table, user, machine, a))))
  {
  }

  /** What an informed round with an Ok answer has to keep running for the invariant to break. */
  lemma OkDeleteKeepsIff(w: World, user: int, machine: Uuid, a: Answers, fixed: set<Uuid>)
    requires GuardInv(w, fixed) && Informed(w.runtime, a) && a.deletion.DeleteOk?
    ensures GuardInv(Round(true, w, user, machine, a).world, fixed) <==>
              CleanupSet(w.table, user, machine, a) * a.deletion.kept <= fixed
  {
    TruthfulWeb(w.runtime, a);
    WebAfterRound(true, w, user, machine, a);
    FinalAssignmentIsIdle(w, user, machine, a);
    var r := Round(true, w, user, machine, a);
    var desired, request := Desired(w.table, user, machine, a), CleanupSet(w.table, user, machine, a);
    if r.skipped {
      SkipIsHarmless(w, user, machine, a, fixed);
    } else {
      assert request * a.deletion.kept <= WebRunning(r.world.runtime) - desired;
      assert WebRunning(r.world.runtime) - desired <= request * a.deletion.kept;
    }
  }

  /** After a failed delete the cache stays, so what the round starts must be in it already. */
  lemma FailedDeleteKeepsIff(w: World, user: int, machine: Uuid, a: Answers, fixed: set<Uuid>)
    requires GuardInv(w, fixed) && Informed(w.runtime, a) && a.deletion.DeleteErrored?
    ensures GuardInv(Round(true, w, user, machine, a).world, fixed) <==>
              || CleanupSet(w.table, user, machine, a) == {}
              || !w.cache.cleaned
              || StartedWeb(w.table, user, machine, a) - fixed <= w.cache.last.value
  {
    TruthfulWeb(w.runtime, a);
    WebAfterRound(true, w, user, machine, a);
    FinalAssignmentIsIdle(w, user, machine, a);
    var r := Round(true, w, user, machine, a);
    var started := StartedWeb(w.table, user, machine, a);
    if CleanupSet(w.table, user, machine, a) == {} {
      forall id | id in WebRunning(w.runtime) ensures id in Desired(w.table, user, machine, a) {
        assert id !in CleanupSet(w.table, user, machine, a);
      }
    } else if w.cache.cleaned {
      assert r.world.cache == w.cache;
      assert WebRunning(r.world.runtime) - fixed <= w.cache.last.value <==> started - fixed <= w.cache.last.value;
    }
  }

  /**
   An informed round, whatever else fails in it, keeps the invariant exactly when an Ok delete keeps nothing
   running that could be deleted, and a failed delete had nothing to do, came before anything was cached, or
   is followed by no start of a web config that is not cached already.
   */
  lemma GuardInvKeptIff(w: World, user: int, machine: Uuid, a: Answers, fixed: set<Uuid>)
    requires GuardInv(w, fixed) && Informed(w.runtime, a)
    ensures GuardInv(Round(true, w, user, machine, a).world, fixed) <==>
              match a.deletion
              case DeleteOk(kept) => CleanupSet(w.table, user, machine, a) * kept <= fixed
              case DeleteErrored(_) =>
                || CleanupSet(w.table, user, machine, a) == {}
                || !w.cache.cleaned
                || StartedWeb(w.table, user, machine, a) - fixed <= w.cache.last.value
  {
    if a.deletion.DeleteOk? {
      OkDeleteKeepsIff(w, user, machine, a, fixed);
    } else {
      FailedDeleteKeepsIff(w, user, machine, a, fixed);
    }
  }

  lemma GuardInvKept(w: World, user: int, machine: Uuid, a: Answers, fixed: set<Uuid>)
    requires GuardInv(w, fixed) && Benign(w, user, machine, a, fixed)
    ensures GuardInv(Round(true, w, user, machine, a).world, fixed)
  {
    OkDeleteKeepsIff(w, user, machine, a, fixed);
  }

  // ---------------------------------------------------------------- runs

  /** Between rounds anyone may edit the table in any way. */
  datatype Step = Edit(table: Table) | Beat(user: int, machine: Uuid, a: Answers)

  function Next(guarded: bool, w: World, step: Step): World {
    match step
    case Edit(t) => w.(table := t)
    case Beat(user, machine, a) => Round(guarded, w, user, machine, a).world
  }

  function Run(guarded: bool, w: World, steps: seq<Step>): World {
    if steps == [] then w
    else Next(guarded, Run(guarded, w, steps[..|steps| - 1]), steps[|steps| - 1])
  }

  /** Every round of the run is informed, and its delete calls stop everything except the `fixed` instances. */
  ghost predicate BenignRun(w: World, steps: seq<Step>, fixed: set<Uuid>) {
    forall i :: 0 <= i < |steps| && steps[i].Beat? ==>
      Benign(Run(true, w, steps[..i]), steps[i].user, steps[i].machine, steps[i].a, fixed)
  }

  lemma BenignPrefix(w: World, steps: seq<Step>, fixed: set<Uuid>, n: nat)
    requires BenignRun(w, steps, fixed) && n <= |steps|
    ensures BenignRun(w, steps[..n], fixed)
  {
    var init := steps[..n];
    forall i | 0 <= i < n && init[i].Beat?
      ensures Benign(Run(true, w, init[..i]), init[i].user, init[i].machine, init[i].a, fixed)
    {
      assert init[..i] == steps[..i];
    }
  }

  lemma {:induction false} GuardInvOverRuns(w: World, steps: seq<Step>, fixed: set<Uuid>)
    requires GuardInv(w, fixed) && BenignRun(w, steps, fixed)
    ensures GuardInv(Run(true, w, steps), fixed)
  {
    if steps != [] {
      var n := |steps| - 1;
      BenignPrefix(w, steps, fixed, n);
      GuardInvOverRuns(w, steps[..n], fixed);
      if steps[n].Beat? {
        GuardInvKept(Run(true, w, steps[..n]), steps[n].user, steps[n].machine, steps[n].a, fixed);
      }
    }
  }

  /** The task as it starts: nothing cleaned, nothing cached. */
  ghost predicate Fresh(w: World) {
    w.cache == Cache(false, None)
  }

  /** Whenever the guard skips a cleanup in a run, the cleanup would have stopped nothing. */
  lemma GuardSound(w: World, steps: seq<Step>, fixed: set<Uuid>, i: nat)
    requires Fresh(w) && BenignRun(w, steps, fixed)
    requires i < |steps| && steps[i].Beat?
    ensures var before := Run(true, w, steps[..i]);
            var request := CleanupSet(before.table, steps[i].user, steps[i].machine, steps[i].a);
            GuardSkips(before.cache, Desired(before.table, steps[i].user, steps[i].machine, steps[i].a)) ==>
              request <= fixed && Removed(request, steps[i].a.deletion) == {}
  {
    BenignPrefix(w, steps, fixed, i);
    GuardInvOverRuns(w, steps[..i], fixed);
    var before := Run(true, w, steps[..i]);
    if GuardSkips(before.cache, Desired(before.table, steps[i].user, steps[i].machine, steps[i].a)) {
      SkipIsHarmless(before, steps[i].user, steps[i].machine, steps[i].a, fixed);
      assert Benign(before, steps[i].user, steps[i].machine, steps[i].a, fixed);
      var request := CleanupSet(before.table, steps[i].user, steps[i].machine, steps[i].a);
      assert request * fixed == request;
    }
  }

  /** The guarded task leaves the same table and the same instances as one that cleans up in every round. */
  lemma {:induction false} GuardRefinesUnguarded(w: World, steps: seq<Step>, fixed: set<Uuid>)
    requires Fresh(w) && BenignRun(w, steps, fixed)
    ensures Run(true, w, steps).table == Run(false, w, steps).table
    ensures Run(true, w, steps).runtime == Run(false, w, steps).runtime
  {
    if steps != [] {
      var n := |steps| - 1;
      BenignPrefix(w, steps, fixed, n);
      GuardRefinesUnguarded(w, steps[..n], fixed);
      if steps[n].Beat? {
        GuardSound(w, steps, fixed, n);
        SameRound(Run(true, w, steps[..n]), Run(false, w, steps[..n]).cache, steps[n].user, steps[n].machine, steps[n].a);
      }
    }
  }

  /** Skipping a cleanup that stops nothing is the same as doing it. */
  lemma SameRound(w: World, other: Cache, user: int, machine: Uuid, a: Answers)
    requires GuardSkips(w.cache, Desired(w.table, user, machine, a)) ==>
               Removed(CleanupSet(w.table, user, machine, a), a.deletion) == {}
    ensures var r, q := Round(true, w, user, machine, a).world, Round(false, w.(cache := other), user, machine, a).world;
            r.table == q.table && r.runtime == q.runtime
  {
    assert w.runtime - {} == w.runtime;
  }

  // ---------------------------------------------------------------- convergence

  /**
   Every enabled row runs, and an instance that runs as web has an enabled web-owned row, or no enabled row at
   all and cannot be deleted.
   */
  ghost predicate InStep(t: Table, runtime: Runtime, user: int, machine: Uuid, fixed: set<Uuid>) {
    var enabled := Rows(t, user, machine, EnabledOnly);
    && (forall id :: id in enabled ==> id in runtime)
    && (forall id :: id in WebRunning(runtime) ==> if id in enabled then id in WebOf(enabled) else id in fixed)
  }

  /** What is running as web after a flawless informed round, row by row. */
  lemma WebAfterFlawless(w: World, user: int, machine: Uuid, a: Answers, id: Uuid)
    requires Informed(w.runtime, a) && Flawless(w.table, user, machine, a)
    requires id in WebRunning(Round(true, w, user, machine, a).world.runtime)
    ensures var r := Round(true, w, user, machine, a);
            var enabled := Rows(r.world.table, user, machine, EnabledOnly);
            if id in enabled then id in WebOf(enabled)
            else id in CleanupSet(w.table, user, machine, a) && id !in Removed(r.deleteRequest, a.deletion)
  {
    FlawlessLocal(w.table, w.runtime, user, machine, a);
    TruthfulWeb(w.runtime, a);
    WebAfterRound(true, w, user, machine, a);
    RowsAt(Synced(w.table, user, machine, a).table, user, machine, EnabledOnly, id);
  }

  /** A flawless informed round leaves every enabled row running. */
  lemma EnabledRowsRun(w: World, user: int, machine: Uuid, a: Answers, id: Uuid)
    requires Informed(w.runtime, a) && Flawless(w.table, user, machine, a)
    requires id in Rows(Round(true, w, user, machine, a).world.table, user, machine, EnabledOnly)
    ensures id in Round(true, w, user, machine, a).world.runtime
  {
    FlawlessLocal(w.table, w.runtime, user, machine, a);
    if id in Round(true, w, user, machine, a).deleteRequest {
      DeleteSafety(w, user, machine, a, id);
    }
  }

  /** A flawless benign round brings the client in step with the table it leaves. */
  lemma RoundConverges(w: World, user: int, machine: Uuid, a: Answers, fixed: set<Uuid>)
    requires GuardInv(w, fixed) && Benign(w, user, machine, a, fixed) && Flawless(w.table, user, machine, a)
    ensures var r := Round(true, w, user, machine, a);
            !r.failed && InStep(r.world.table, r.world.runtime, user, machine, fixed)
  {
    var r := Round(true, w, user, machine, a);
    var enabled := Rows(r.world.table, user, machine, EnabledOnly);
    var request := CleanupSet(w.table, user, machine, a);
    FlawlessLocal(w.table, w.runtime, user, machine, a);
    forall id | id in enabled ensures id in r.world.runtime {
      EnabledRowsRun(w, user, machine, a, id);
    }
    forall id | id in WebRunning(r.world.runtime) ensures if id in enabled then id in WebOf(enabled) else id in fixed {
      WebAfterFlawless(w, user, machine, a, id);
      if r.skipped {
        SkipIsHarmless(w, user, machine, a, fixed);
      } else if id !in enabled {
        assert id in request * a.deletion.kept;
      }
    }
  }

  /** With an Ok answer, the client ends up strictly in step exactly when nothing that was asked for is kept. */
  lemma ConvergesIff(w: World, user: int, machine: Uuid, a: Answers)
    requires GuardInv(w, {}) && Informed(w.runtime, a) && a.deletion.DeleteOk? && Flawless(w.table, user, machine, a)
    ensures var r := Round(true, w, user, machine, a);
            InStep(r.world.table, r.world.runtime, user, machine, {}) <==>
              CleanupSet(w.table, user, machine, a) !! a.deletion.kept
  {
    var r := Round(true, w, user, machine, a);
    var request := CleanupSet(w.table, user, machine, a);
    if request !! a.deletion.kept {
      assert request * a.deletion.kept == {} == request * {};
      RoundConverges(w, user, machine, a, {});
    } else {
      var id :| id in request && id in a.deletion.kept;
      if GuardSkips(w.cache, Desired(w.table, user, machine, a)) {
        SkipIsHarmless(w, user, machine, a, {});
      }
      TruthfulWeb(w.runtime, a);
      WebAfterRound(true, w, user, machine, a);
      DeleteSafety(w, user, machine, a, id);
      FlawlessLocal(w.table, w.runtime, user, machine, a);
      assert id in WebRunning(r.world.runtime);
    }
  }

  /**
   In step, a further flawless round starts nothing and writes nothing; it asks for no delete either, unless the
   guard lets it and there are instances that cannot be deleted.
   */
  lemma InStepIsQuiet(w: World, user: int, machine: Uuid, a: Answers, fixed: set<Uuid>)
    requires InStep(w.table, w.runtime, user, machine, fixed)
    requires Informed(w.runtime, a) && Flawless(w.table, user, machine, a)
    ensures var r := Round(true, w, user, machine, a);
            && r.runRequests == {} && r.world.table == w.table && r.deleteRequest <= fixed
            && (r.skipped || fixed == {} ==> r.deleteRequest == {})
            && (r.deleteRequest == {} ==> !r.failed && r.world.runtime == w.runtime)
  {
    InStepHasNoWork(w.table, w.runtime, user, machine, a, fixed);
    var local := Local(w.table, user, machine, a);
    assert StartAll(w.runtime, local, {}, a.starts) == w.runtime;
  }

  lemma InStepHasNoWork(t: Table, runtime: Runtime, user: int, machine: Uuid, a: Answers, fixed: set<Uuid>)
    requires InStep(t, runtime, user, machine, fixed)
    requires Informed(runtime, a) && Flawless(t, user, machine, a)
    ensures Synced(t, user, machine, a).table == t
    ensures CleanupSet(t, user, machine, a) <= fixed
    ensures Local(t, user, machine, a) == Rows(t, user, machine, EnabledOnly)
    ensures ToRun(Local(t, user, machine, a), a.running) == {}
  {
    FlawlessLocal(t, runtime, user, machine, a);
    TruthfulWeb(runtime, a);
    NothingToPromote(t, runtime, user, machine, a.now, fixed);
  }

  /** In step, every enabled row of an instance running as web is web-owned already. */
  lemma NothingToPromote(t: Table, runtime: Runtime, user: int, machine: Uuid, now: int, fixed: set<Uuid>)
    requires InStep(t, runtime, user, machine, fixed)
    ensures Promoted(t, user, machine, WebRunning(runtime), now) == t
  {
    var t' := Promoted(t, user, machine, WebRunning(runtime), now);
    forall k | k in t
      ensures t'[k] == t[k]
    {
      if InScope(k, user, machine) && k.inst in WebRunning(runtime) {
        assert k == Key(user, machine, k.inst);
        RowsAt(t, user, machine, EnabledOnly, k.inst);
      }
    }
  }

  /** The round after a converged one, on an unedited table, is idle. */
  lemma ConvergesThenRests(w: World, user: int, machine: Uuid, a: Answers, b: Answers, fixed: set<Uuid>)
    requires GuardInv(w, fixed) && Benign(w, user, machine, a, fixed) && Flawless(w.table, user, machine, a)
    requires var w' := Round(true, w, user, machine, a).world;
             Informed(w'.runtime, b) && (forall n :: !b.syncFails(n)) && (forall id :: b.starts(id).ok)
    ensures var w' := Round(true, w, user, machine, a).world;
            var r := Round(true, w', user, machine, b);
            && InStep(w'.table, w'.runtime, user, machine, fixed)
            && r.deleteRequest == {} && r.runRequests == {} && r.world.table == w'.table && r.world.runtime == w'.runtime
  {
    var w' := Round(true, w, user, machine, a).world;
    RoundConverges(w, user, machine, a, fixed);
    SyncedKeepsRows(w.table, user, machine, a);
    FlawlessLocal(w.table, w.runtime, user, machine, a);
    InStepHasNoWork(w'.table, w'.runtime, user, machine, b, fixed);
    assert Desired(w'.table, user, machine, b) == Desired(w.table, user, machine, a);
    FinalAssignmentIsIdle(w, user, machine, a);
    InStepIsQuiet(w', user, machine, b, fixed);
  }

  // ---------------------------------------------------------------- delete safety

  /**
   Whatever the client answers, an instance in a delete request was reported as web-sourced (or, without
   metadata, is reported running and stored as web-owned); when the round began it had no enabled web-owned
   row; and unless the sync failed it has no enabled row when the request is sent.
   */
  lemma DeleteSafety(w: World, user: int, machine: Uuid, a: Answers, id: Uuid)
    requires id in Round(true, w, user, machine, a).deleteRequest
    ensures match Metas(a)
            case Some(metas) => id in WebReported(metas)
            case None => id in a.running && id in WebOf(Rows(w.table, user, machine, All))
    ensures id !in WebOf(Rows(w.table, user, machine, EnabledOnly))
    ensures Synced(w.table, user, machine, a).ok ==>
              id !in Rows(Round(true, w, user, machine, a).world.table, user, machine, EnabledOnly)
  {
    var t := w.table;
    var synced := Synced(t, user, machine, a);
    var k := Key(user, machine, id);
    RowsAt(t, user, machine, EnabledOnly, id);
    RowsAt(t, user, machine, All, id);
    RowsAt(synced.table, user, machine, EnabledOnly, id);
    SyncedKeepsRows(t, user, machine, a);
    if Metas(a).Some? && synced.ok {
      var metas := Metas(a).value;
      var n := SyncMeaning(t, user, machine, metas, a.syncFails, a.now);
      assert metas[..n] == metas;
      assert metas != [];
    }
  }

  /**
   An instance that is asked to be deleted has an enabled web-owned row at that moment exactly when the sync
   failed after it had promoted that very row.
   */
  lemma DeletesWebRowIff(w: World, user: int, machine: Uuid, a: Answers, id: Uuid) returns (n: nat)
    requires id in Round(true, w, user, machine, a).deleteRequest
    ensures Metas(a).Some? ==> GetsThrough(w.table, user, machine, Metas(a).value, a.syncFails, n)
    ensures id in WebOf(Rows(Round(true, w, user, machine, a).world.table, user, machine, EnabledOnly)) <==>
              && Metas(a).Some? && n < |Metas(a).value|
              && id in Rows(w.table, user, machine, EnabledOnly)
              && id in WebReported(Metas(a).value[..n])
  {
    var t := w.table;
    var synced := Synced(t, user, machine, a).table;
    n := 0;
    DeleteSafety(w, user, machine, a, id);
    RowsAt(t, user, machine, EnabledOnly, id);
    RowsAt(synced, user, machine, EnabledOnly, id);
    SyncedKeepsRows(t, user, machine, a);
    if Metas(a).Some? {
      n := SyncMeaning(t, user, machine, Metas(a).value, a.syncFails, a.now);
    }
  }

  // ---------------------------------------------------------------- end to end

  /** A heartbeat that takes the world from `w` to `w'` by an exact reconcile of `desired`. */
  ghost predicate Reconciles(lib: Library, w: World, w': World, user: int, machine: Uuid, desired: seq<ManagedConfig>) {
    w' == w.(table := w'.table) && Exact(lib, w.table, w'.table, user, machine, desired)
  }

  /** The desired instances that no user owns. */
  function Wanted(lib: Library, t: Table, user: int, machine: Uuid, desired: seq<ManagedConfig>): set<Uuid> {
    set id | id in DesiredIds(lib, desired) && !OwnedByUser(ScopeSources(t, user, machine), id)
  }

  /** After an exact reconcile, promoting rows that no user owns leaves the wanted ids as the enabled web-owned rows. */
  lemma ReconciledRowsAreWanted(lib: Library, t: Table, t': Table, user: int, machine: Uuid, desired: seq<ManagedConfig>,
                                ids: set<Uuid>, later: int)
    requires Exact(lib, t, t', user, machine, desired)
    requires forall id :: id in ids ==> !UserOwned(t, user, machine, id)
    ensures WebOf(Rows(Promoted(t', user, machine, ids, later), user, machine, EnabledOnly)) ==
            Wanted(lib, t, user, machine, desired)
  {
    var wanted := Wanted(lib, t, user, machine, desired);
    OwnersAgree(t, user, machine);
    assert ScopeWebIds(t', user, machine) == wanted;
    forall id
      ensures id in WebOf(Rows(Promoted(t', user, machine, ids, later), user, machine, EnabledOnly)) <==> id in wanted
    {
      WantedRow(lib, t, t', user, machine, desired, ids, later, id);
    }
  }

  lemma WantedRow(lib: Library, t: Table, t': Table, user: int, machine: Uuid, desired: seq<ManagedConfig>,
                  ids: set<Uuid>, later: int, id: Uuid)
    requires Exact(lib, t, t', user, machine, desired)
    requires id in ids ==> !UserOwned(t, user, machine, id)
    ensures id in WebOf(Rows(Promoted(t', user, machine, ids, later), user, machine, EnabledOnly)) <==>
              id in ScopeWebIds(t', user, machine)
  {
    var k := Key(user, machine, id);
    RowsAt(Promoted(t', user, machine, ids, later), user, machine, EnabledOnly, id);
    assert id in ScopeWebIds(t', user, machine) <==> k in t' && FromDb(t'[k].source) == Web by {
      assert k.inst == id;
    }
    if id in ScopeWebIds(t', user, machine) {
      assert HoldsLast(lib, t, t', user, machine, desired, id);
    } else if k in t' {
      assert UserOwned(t', user, machine, id);
    }
  }

  /**
   After an exact reconcile of the list `desired` and one flawless benign round, with no user's instance
   running as web, every desired instance that no user owns is running, and every instance running as
   web is one of them or cannot be deleted.
   */
  lemma EndToEnd(lib: Library, w: World, w': World, user: int, machine: Uuid, desired: seq<ManagedConfig>, a: Answers,
                 fixed: set<Uuid>)
    requires GuardInv(w, fixed) && Reconciles(lib, w, w', user, machine, desired)
    requires Benign(w', user, machine, a, fixed) && Flawless(w'.table, user, machine, a)
    requires forall id :: id in WebRunning(w.runtime) ==> !UserOwned(w.table, user, machine, id)
    ensures var runtime := Round(true, w', user, machine, a).world.runtime;
            var wanted := Wanted(lib, w.table, user, machine, desired);
            wanted <= runtime.Keys && WebRunning(runtime) <= wanted + fixed
  {
    ReconciledRowsAreWanted(lib, w.table, w'.table, user, machine, desired, WebRunning(w.runtime), a.now);
    RoundConverges(w', user, machine, a, fixed);
    FlawlessLocal(w'.table, w'.runtime, user, machine, a);
  }
}
