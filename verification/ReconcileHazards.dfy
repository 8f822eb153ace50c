/**
 The assumptions behind the cleanup guard are needed. For each one that is dropped there is an exact
 condition under which a round still keeps the guard's invariant, and a run from a fresh start in which
 the guard skips a cleanup that has something to delete.
 */
module ReconcileHazards {
  import opened Wrappers
  import opened ConfigTable
  import opened WebReconcile
  import opened ReconcileRound
  import opened ReconcileRuns

  // ---------------------------------------------------------------- the invariant is what the guard needs

  /** A set is cached exactly when a cleanup has been done. */
  predicate CacheOk(c: Cache) {
    c.cleaned <==> c.last.Some?
  }

  /** Whatever the table is edited to and whatever an informed client answers, a skipped cleanup has nothing to delete. */
  ghost predicate GuardSafe(w: World, user: int, machine: Uuid, fixed: set<Uuid>) {
    forall t, a | Informed(w.runtime, a) && GuardSkips(w.cache, Desired(t, user, machine, a)) ::
      CleanupSet(t, user, machine, a) <= fixed
  }

  /** A table whose enabled rows are web-owned rows of the given instances. */
  function WebTable(user: int, machine: Uuid, ids: set<Uuid>): Table {
    map id | id in ids :: Key(user, machine, id) := ROW
  }

  lemma {:induction false} SomeMetas(runtime: Runtime) returns (metas: seq<Meta>)
    ensures Truthful(metas, runtime)
    decreases |runtime|
  {
    if runtime == map[] {
      metas := [];
    } else {
      var id :| id in runtime;
      var rest := runtime - {id};
      assert |rest| < |runtime| by { assert runtime == rest[id := runtime[id]]; }
      metas := SomeMetas(rest);
      metas := metas + [Meta(Some(id), ToRpc(runtime[id]))];
    }
  }

  lemma WebTableRound(user: int, machine: Uuid, ids: set<Uuid>, a: Answers)
    ensures Desired(WebTable(user, machine, ids), user, machine, a) == ids
  {
    var t := WebTable(user, machine, ids);
    SyncedKeepsRows(t, user, machine, a);
    assert Synced(t, user, machine, a).table == t;
    forall id ensures id in WebOf(Rows(t, user, machine, EnabledOnly)) <==> id in ids {
      RowsAt(t, user, machine, EnabledOnly, id);
    }
  }

  /** When the invariant is broken there is an edit and an informed answer that make the guard skip a needed cleanup. */
  lemma BrokenInvIsUnsafe(w: World, user: int, machine: Uuid, fixed: set<Uuid>) returns (t: Table, a: Answers)
    requires w.cache.cleaned && w.cache.last.Some? && !(WebRunning(w.runtime) - fixed <= w.cache.last.value)
    ensures Informed(w.runtime, a) && GuardSkips(w.cache, Desired(t, user, machine, a))
    ensures !(CleanupSet(t, user, machine, a) <= fixed)
  {
    var metas := SomeMetas(w.runtime);
    t := WebTable(user, machine, w.cache.last.value);
    a := Answered(w.runtime.Keys, Some(metas), DeleteOk({}));
    WebTableRound(user, machine, w.cache.last.value, a);
    TruthfulWeb(w.runtime, a);
    var id :| id in WebRunning(w.runtime) - fixed && id !in w.cache.last.value;
    assert id in CleanupSet(t, user, machine, a);
  }

  /** The invariant says exactly that the guard is safe. */
  lemma GuardSafeIff(w: World, user: int, machine: Uuid, fixed: set<Uuid>)
    requires CacheOk(w.cache)
    ensures GuardSafe(w, user, machine, fixed) <==> GuardInv(w, fixed)
  {
    if GuardInv(w, fixed) {
      forall t, a | Informed(w.runtime, a) && GuardSkips(w.cache, Desired(t, user, machine, a))
        ensures CleanupSet(t, user, machine, a) <= fixed
      {
        SkipIsHarmless(w.(table := t), user, machine, a, fixed);
      }
    } else {
      var t, a := BrokenInvIsUnsafe(w, user, machine, fixed);
    }
  }

  /** After an informed round the guard is safe exactly when the invariant's condition holds, and unsafe otherwise. */
  lemma SafeAfterRoundIff(w: World, user: int, machine: Uuid, a: Answers, fixed: set<Uuid>)
    requires GuardSafe(w, user, machine, fixed) && CacheOk(w.cache) && Informed(w.runtime, a)
    ensures GuardSafe(Round(true, w, user, machine, a).world, user, machine, fixed) <==>
              match a.deletion
              case DeleteOk(kept) => CleanupSet(w.table, user, machine, a) * kept <= fixed
              case DeleteErrored(_) =>
                || CleanupSet(w.table, user, machine, a) == {}
                || !w.cache.cleaned
                || StartedWeb(w.table, user, machine, a) - fixed <= w.cache.last.value
  {
    GuardSafeIff(w, user, machine, fixed);
    GuardInvKeptIff(w, user, machine, a, fixed);
    FinalAssignmentIsIdle(w, user, machine, a);
    GuardSafeIff(Round(true, w, user, machine, a).world, user, machine, fixed);
  }

  // ---------------------------------------------------------------- stale heartbeats

  /** The metadata tells the truth about the instances the heartbeat reported, fresh or not. */
  ghost predicate InformedAboutReport(runtime: Runtime, a: Answers) {
    && a.supportSource
    && (a.running == {} || a.metas.Some?)
    && (forall id :: id in WebReported(Metas(a).value) <==> id in a.running && id in WebRunning(runtime))
  }

  /** Instances that a start replaces or loses although the heartbeat missed them. */
  function Replaced(t: Table, user: int, machine: Uuid, a: Answers): set<Uuid> {
    set id | id in ToRun(Local(t, user, machine, a), a.running) && (a.starts(id).applied || Loses(a.starts(id)))
  }

  /** The undesired web-sourced instances that the heartbeat misses and no start replaces or loses. */
  function Missed(w: World, user: int, machine: Uuid, a: Answers): set<Uuid> {
    WebRunning(w.runtime) - a.running - Desired(w.table, user, machine, a) - Replaced(w.table, user, machine, a)
  }

  /** The desired instances that a round starts as web, or replaces by a web-sourced one. */
  function StartedStale(w: World, user: int, machine: Uuid, a: Answers): set<Uuid> {
    set id | id in ToRun(Local(w.table, user, machine, a), a.running) && id in Desired(w.table, user, machine, a)
             && Takes(w.runtime, id, a.starts(id))
  }

  /** One undesired instance after such a round: it runs as web only if it did so before and nothing removed it. */
  lemma WebAfterStale(w: World, user: int, machine: Uuid, a: Answers, id: Uuid)
    requires InformedAboutReport(w.runtime, a)
    requires id !in Desired(w.table, user, machine, a)
    ensures var r := Round(true, w, user, machine, a);
            id in WebRunning(r.world.runtime) <==>
              && id in WebRunning(w.runtime) && id !in Replaced(w.table, user, machine, a)
              && id !in Removed(r.deleteRequest, a.deletion)
  {
  }

  /** One desired instance after such a round. */
  lemma DesiredAfterStale(w: World, user: int, machine: Uuid, a: Answers, id: Uuid)
    requires InformedAboutReport(w.runtime, a)
    requires id in Desired(w.table, user, machine, a)
    ensures var web := WebRunning(Round(true, w, user, machine, a).world.runtime);
            && (id in web ==> id in WebRunning(w.runtime) || id in StartedStale(w, user, machine, a))
            && (id in StartedStale(w, user, machine, a) ==> id in web)
  {
  }

  /** A cleanup that goes through caches the desired set; the invariant then asks for no leftovers. */
  lemma StaleCleanupIff(w: World, user: int, machine: Uuid, a: Answers, fixed: set<Uuid>)
    requires GuardInv(w, fixed) && InformedAboutReport(w.runtime, a) && !GuardSkips(w.cache, Desired(w.table, user, machine, a))
    requires a.deletion.DeleteOk? || CleanupSet(w.table, user, machine, a) == {}
    ensures GuardInv(Round(true, w, user, machine, a).world, fixed) <==>
              && CleanupSet(w.table, user, machine, a) - Removed(CleanupSet(w.table, user, machine, a), a.deletion) <= fixed
              && Missed(w, user, machine, a) <= fixed
  {
    var r := Round(true, w, user, machine, a);
    var desired, request := Desired(w.table, user, machine, a), CleanupSet(w.table, user, machine, a);
    var left, missed := request - Removed(request, a.deletion), Missed(w, user, machine, a);
    FinalAssignmentIsIdle(w, user, machine, a);
    forall id ensures id in WebRunning(r.world.runtime) - desired <==> id in left + missed {
      if id !in desired { WebAfterStale(w, user, machine, a, id); }
    }
    Leftovers(WebRunning(r.world.runtime), desired, left, missed, fixed);
  }

  /** After a failed delete the cache stays, so what the round starts must be in it already. */
  lemma StaleFailedDeleteIff(w: World, user: int, machine: Uuid, a: Answers, fixed: set<Uuid>)
    requires GuardInv(w, fixed) && InformedAboutReport(w.runtime, a) && !GuardSkips(w.cache, Desired(w.table, user, machine, a))
    requires a.deletion.DeleteErrored? && CleanupSet(w.table, user, machine, a) != {}
    ensures GuardInv(Round(true, w, user, machine, a).world, fixed) <==>
              !w.cache.cleaned || StartedStale(w, user, machine, a) - fixed <= w.cache.last.value
  {
    var r := Round(true, w, user, machine, a);
    var started := StartedStale(w, user, machine, a);
    FinalAssignmentIsIdle(w, user, machine, a);
    forall id
      ensures id in WebRunning(r.world.runtime) ==> id in WebRunning(w.runtime) || id in started
      ensures id in started ==> id in WebRunning(r.world.runtime)
    {
      if id in Desired(w.table, user, machine, a) {
        DesiredAfterStale(w, user, machine, a, id);
      } else {
        WebAfterStale(w, user, machine, a, id);
      }
    }
  }

  /** A skipped cleanup keeps the invariant. */
  lemma StaleSkipKeeps(w: World, user: int, machine: Uuid, a: Answers, fixed: set<Uuid>)
    requires GuardInv(w, fixed) && InformedAboutReport(w.runtime, a) && GuardSkips(w.cache, Desired(w.table, user, machine, a))
    ensures GuardInv(Round(true, w, user, machine, a).world, fixed)
  {
    var r := Round(true, w, user, machine, a);
    FinalAssignmentIsIdle(w, user, machine, a);
    forall id | id in WebRunning(r.world.runtime) - fixed ensures id in w.cache.last.value {
      if id !in Desired(w.table, user, machine, a) { WebAfterStale(w, user, machine, a, id); }
    }
  }

  /**
   With a heartbeat that may be out of date and a delete that may fail or keep instances, the guard stays safe
   exactly when the round skips the cleanup; or the cleanup goes through, keeps nothing that could be deleted and
   misses nothing undesired; or it fails with nothing cached, or with everything it starts cached already.
   */
  lemma StaleReportIff(w: World, user: int, machine: Uuid, a: Answers, fixed: set<Uuid>)
    requires GuardSafe(w, user, machine, fixed) && CacheOk(w.cache) && InformedAboutReport(w.runtime, a)
    ensures var request := CleanupSet(w.table, user, machine, a);
            GuardSafe(Round(true, w, user, machine, a).world, user, machine, fixed) <==>
              || GuardSkips(w.cache, Desired(w.table, user, machine, a))
              || (if a.deletion.DeleteOk? || request == {}
                  then request - Removed(request, a.deletion) <= fixed && Missed(w, user, machine, a) <= fixed
                  else !w.cache.cleaned || StartedStale(w, user, machine, a) - fixed <= w.cache.last.value)
  {
    GuardSafeIff(w, user, machine, fixed);
    FinalAssignmentIsIdle(w, user, machine, a);
    GuardSafeIff(Round(true, w, user, machine, a).world, user, machine, fixed);
    if GuardSkips(w.cache, Desired(w.table, user, machine, a)) {
      StaleSkipKeeps(w, user, machine, a, fixed);
    } else if a.deletion.DeleteOk? || CleanupSet(w.table, user, machine, a) == {} {
      StaleCleanupIff(w, user, machine, a, fixed);
    } else {
      StaleFailedDeleteIff(w, user, machine, a, fixed);
    }
  }

  /** Nothing is left over but fixed instances exactly when neither source of leftovers has any other. */
  lemma Leftovers(web: set<Uuid>, desired: set<Uuid>, left: set<Uuid>, missed: set<Uuid>, fixed: set<Uuid>)
    requires forall id :: id in web - desired <==> id in left + missed
    ensures web - fixed <= desired <==> left <= fixed && missed <= fixed
  {
    if web - fixed <= desired {
      assert forall id :: id in left ==> id in left + missed;
      assert forall id :: id in missed ==> id in left + missed;
    } else {
      var id :| id in web - fixed && id !in desired;
      assert id in web - desired;
    }
  }

  // ---------------------------------------------------------------- no metadata

  /** The web-sourced instances that a round without metadata leaves although they are not desired. */
  lemma NoMetadataLeftovers(w: World, user: int, machine: Uuid, a: Answers)
    requires a.running == w.runtime.Keys && Metas(a).None?
    ensures var r := Round(false, w, user, machine, a);
            var stored := WebOf(Rows(w.table, user, machine, All));
            var undesired := WebRunning(w.runtime) - Desired(w.table, user, machine, a);
            forall id :: id in WebRunning(r.world.runtime) - Desired(w.table, user, machine, a) <==>
              id in (undesired - stored) + (undesired * stored - Removed(r.deleteRequest, a.deletion))
  {
    var r := Round(false, w, user, machine, a);
    DesiredIsStored(w.table, user, machine, a);
    WebAfterRound(false, w, user, machine, a);
    assert r.deleteRequest == a.running * WebOf(Rows(w.table, user, machine, All)) - Desired(w.table, user, machine, a);
  }

  /** A cleanup that goes through without metadata. */
  lemma NoMetadataCleanupIff(w: World, user: int, machine: Uuid, a: Answers, fixed: set<Uuid>)
    requires GuardInv(w, fixed) && a.running == w.runtime.Keys && Metas(a).None?
    requires !GuardSkips(w.cache, Desired(w.table, user, machine, a))
    requires a.deletion.DeleteOk? || CleanupSet(w.table, user, machine, a) == {}
    ensures var stored := WebOf(Rows(w.table, user, machine, All));
            var undesired := WebRunning(w.runtime) - Desired(w.table, user, machine, a);
            GuardInv(Round(true, w, user, machine, a).world, fixed) <==>
              && undesired - stored <= fixed
              && undesired * stored - Removed(CleanupSet(w.table, user, machine, a), a.deletion) <= fixed
  {
    var r := Round(true, w, user, machine, a);
    var desired, stored := Desired(w.table, user, machine, a), WebOf(Rows(w.table, user, machine, All));
    var undesired := WebRunning(w.runtime) - desired;
    FinalAssignmentIsIdle(w, user, machine, a);
    NoMetadataLeftovers(w, user, machine, a);
    Leftovers(WebRunning(r.world.runtime), desired, undesired - stored,
              undesired * stored - Removed(CleanupSet(w.table, user, machine, a), a.deletion), fixed);
  }

  /** The other two ways a round without metadata can go. */
  lemma NoMetadataElseIff(w: World, user: int, machine: Uuid, a: Answers, fixed: set<Uuid>)
    requires GuardInv(w, fixed) && a.running == w.runtime.Keys && Metas(a).None?
    ensures GuardSkips(w.cache, Desired(w.table, user, machine, a)) ==> GuardInv(Round(true, w, user, machine, a).world, fixed)
    ensures !GuardSkips(w.cache, Desired(w.table, user, machine, a)) &&
            a.deletion.DeleteErrored? && CleanupSet(w.table, user, machine, a) != {} ==>
              (GuardInv(Round(true, w, user, machine, a).world, fixed) <==>
                 !w.cache.cleaned || StartedWeb(w.table, user, machine, a) - fixed <= w.cache.last.value)
  {
    WebAfterRound(true, w, user, machine, a);
    FinalAssignmentIsIdle(w, user, machine, a);
    var started := StartedWeb(w.table, user, machine, a);
    assert started <= WebRunning(Round(true, w, user, machine, a).world.runtime) <= WebRunning(w.runtime) + started;
    assert started <= Desired(w.table, user, machine, a);
  }

  /**
   Without metadata, whatever the delete does, the guard stays safe exactly when the round skips the cleanup; or the
   cleanup goes through, every undesired web-sourced instance that could be deleted has a web-owned row, enabled or
   not, and none of these is kept; or it fails with nothing cached, or with everything it starts cached already.
   */
  lemma NoMetadataIff(w: World, user: int, machine: Uuid, a: Answers, fixed: set<Uuid>)
    requires GuardSafe(w, user, machine, fixed) && CacheOk(w.cache) && a.running == w.runtime.Keys && Metas(a).None?
    ensures var request := CleanupSet(w.table, user, machine, a);
            var stored := WebOf(Rows(w.table, user, machine, All));
            var undesired := WebRunning(w.runtime) - Desired(w.table, user, machine, a);
            GuardSafe(Round(true, w, user, machine, a).world, user, machine, fixed) <==>
              || GuardSkips(w.cache, Desired(w.table, user, machine, a))
              || (if a.deletion.DeleteOk? || request == {}
                  then undesired - stored <= fixed && undesired * stored - Removed(request, a.deletion) <= fixed
                  else !w.cache.cleaned || StartedWeb(w.table, user, machine, a) - fixed <= w.cache.last.value)
  {
    GuardSafeIff(w, user, machine, fixed);
    FinalAssignmentIsIdle(w, user, machine, a);
    GuardSafeIff(Round(true, w, user, machine, a).world, user, machine, fixed);
    NoMetadataElseIff(w, user, machine, a, fixed);
    if !GuardSkips(w.cache, Desired(w.table, user, machine, a)) &&
       (a.deletion.DeleteOk? || CleanupSet(w.table, user, machine, a) == {}) {
      NoMetadataCleanupIff(w, user, machine, a, fixed);
    }
  }

  lemma DesiredIsStored(t: Table, user: int, machine: Uuid, a: Answers)
    requires Metas(a).None?
    ensures Desired(t, user, machine, a) <= WebOf(Rows(t, user, machine, All))
  {
    forall id | id in Desired(t, user, machine, a)
      ensures id in WebOf(Rows(t, user, machine, All))
    {
      RowsAt(t, user, machine, EnabledOnly, id);
      RowsAt(t, user, machine, All, id);
    }
  }

  // ---------------------------------------------------------------- runs that go wrong

  const USER := 1
  const MACHINE: Uuid := 9
  const ROW := Row(Encoded(map[]), "web", false, 0, 0)

  /** A table with one enabled web-owned row. */
  function OneWeb(id: Uuid): Table {
    map[Key(USER, MACHINE, id) := ROW]
  }

  function Answered(running: set<Uuid>, metas: Option<seq<Meta>>, deletion: DeleteOutcome): Answers {
    Answers(running, true, metas, n => false, deletion, id => RunOutcome(true, false, false), 0)
  }

  function WebMetas(ids: seq<Uuid>): Option<seq<Meta>> {
    Some(seq(|ids|, i requires 0 <= i < |ids| => Meta(Some(ids[i]), RPC_WEB)))
  }

  /** The guard skips although the cleanup has something to delete. */
  ghost predicate SkipsNeededCleanup(w: World, a: Answers) {
    && GuardSkips(w.cache, Desired(w.table, USER, MACHINE, a))
    && CleanupSet(w.table, USER, MACHINE, a) != {}
  }

  function Beat(w: World, a: Answers): World {
    Round(true, w, USER, MACHINE, a).world
  }

  /** With one web-owned row, no answer of the client changes the table or the desired set. */
  lemma OneWebRound(id: Uuid, a: Answers)
    ensures Synced(OneWeb(id), USER, MACHINE, a).table == OneWeb(id)
    ensures Local(OneWeb(id), USER, MACHINE, a) == map[id := ROW]
    ensures Desired(OneWeb(id), USER, MACHINE, a) == {id}
    ensures WebOf(Rows(OneWeb(id), USER, MACHINE, All)) == {id}
  {
    var t := OneWeb(id);
    SyncedKeepsRows(t, USER, MACHINE, a);
    assert Synced(t, USER, MACHINE, a).table == t;
    assert Key(USER, MACHINE, id).inst == id;
    assert Rows(t, USER, MACHINE, EnabledOnly) == map[id := ROW];
    assert Rows(t, USER, MACHINE, All) == map[id := ROW];
  }

  /** A fresh task that sees one web-owned row and an idle client starts it and caches it. */
  lemma FirstRound(a: Answers)
    requires a == Answered({}, None, DeleteOk({}))
    ensures Beat(World(OneWeb(1), map[], Cache(false, None)), a) ==
            World(OneWeb(1), map[1 := Web], Cache(true, Some({1})))
  {
    OneWebRound(1, a);
    assert ToRun(map[1 := ROW], {}) == {1};
  }

  const CACHED := World(OneWeb(2), map[1 := Web], Cache(true, Some({1})))
  const BOTH_RUN: Runtime := map[1 := Web, 2 := Web]

  /** With 1 cached and running and 2 wanted: the delete of 1 fails, 2 is started, the cache stays. */
  lemma RoundWithFailedDelete(b: Answers)
    requires b == Answered({1}, WebMetas([1]), DeleteErrored({}))
    ensures Informed(CACHED.runtime, b)
    ensures Beat(CACHED, b) == World(OneWeb(2), BOTH_RUN, Cache(true, Some({1})))
  {
    OneWebRound(2, b);
    assert b.metas.value == [Meta(Some(1), RPC_WEB)];
    assert WebReported(b.metas.value) == {1};
    assert ToRun(map[2 := ROW], {1}) == {2};
    assert AfterDelete(CACHED.runtime, {1}, b.deletion) == CACHED.runtime;
    assert StartAll(CACHED.runtime, map[2 := ROW], {2}, b.starts) == BOTH_RUN;
  }

  /** The same round when the client keeps 1 and answers Ok: 2 is started, and the cache says that all is clean. */
  lemma RoundWithKeptInstance(b: Answers)
    requires b == Answered({1}, WebMetas([1]), DeleteOk({1}))
    ensures Informed(CACHED.runtime, b)
    ensures Beat(CACHED, b) == World(OneWeb(2), BOTH_RUN, Cache(true, Some({2})))
  {
    OneWebRound(2, b);
    assert b.metas.value == [Meta(Some(1), RPC_WEB)];
    assert WebReported(b.metas.value) == {1};
    assert ToRun(map[2 := ROW], {1}) == {2};
    assert AfterDelete(CACHED.runtime, {1}, b.deletion) == CACHED.runtime;
    assert StartAll(CACHED.runtime, map[2 := ROW], {2}, b.starts) == BOTH_RUN;
  }

  /** The same round when the heartbeat misses 1, or when there is no metadata: 1 is not even considered. */
  lemma RoundThatMisses(b: Answers)
    requires b == Answered({}, None, DeleteOk({})) || b == Answered({1}, None, DeleteOk({}))
    ensures Beat(CACHED, b) == World(OneWeb(2), BOTH_RUN, Cache(true, Some({2})))
  {
    OneWebRound(2, b);
    assert ToRun(map[2 := ROW], b.running) == {2};
    assert CleanupSet(CACHED.table, USER, MACHINE, b) == {};
    assert StartAll(CACHED.runtime, map[2 := ROW], {2}, b.starts) == BOTH_RUN;
  }

  /** With both instances running, a desired set equal to the cached one hides the other instance. */
  lemma HiddenInstance(id: Uuid, c: Answers)
    requires id == 1 || id == 2
    requires c == Answered({1, 2}, WebMetas([1, 2]), DeleteOk({}))
    ensures Informed(BOTH_RUN, c)
    ensures SkipsNeededCleanup(World(OneWeb(id), BOTH_RUN, Cache(true, Some({id}))), c)
  {
    OneWebRound(id, c);
    assert c.metas.value == [Meta(Some(1), RPC_WEB), Meta(Some(2), RPC_WEB)];
    assert Meta(Some(1), RPC_WEB) in c.metas.value && Meta(Some(2), RPC_WEB) in c.metas.value;
    assert 3 - id in WebReported(c.metas.value);
    assert 3 - id in CleanupSet(OneWeb(id), USER, MACHINE, c);
  }

  // ---------------------------------------------------------------- a promoted row is deleted

  const USER_ROW := Row(Encoded(map[]), "user", false, 0, 0)
  const GARBLED_ROW := Row(Garbled(""), "user", false, 0, 0)
  const TWO_USER_ROWS: Table := map[Key(USER, MACHINE, 5) := USER_ROW, Key(USER, MACHINE, 6) := GARBLED_ROW]

  /** The listing of the two rows, and what the sync makes of metadata that reports both as web. */
  lemma TwoUserRows(a: Answers)
    requires a == Answered({5, 6}, WebMetas([5, 6]), DeleteOk({}))
    ensures Rows(TWO_USER_ROWS, USER, MACHINE, EnabledOnly) == map[5 := USER_ROW, 6 := GARBLED_ROW]
    ensures a.metas.value == [Meta(Some(5), RPC_WEB), Meta(Some(6), RPC_WEB)]
    ensures forall n :: GetsThrough(TWO_USER_ROWS, USER, MACHINE, a.metas.value, a.syncFails, n) ==> n == 1
  {
    var rows := Rows(TWO_USER_ROWS, USER, MACHINE, EnabledOnly);
    forall id ensures id in rows <==> id == 5 || id == 6 {
      RowsAt(TWO_USER_ROWS, USER, MACHINE, EnabledOnly, id);
    }
    assert rows == map[5 := USER_ROW, 6 := GARBLED_ROW];
    assert a.metas.value == [Meta(Some(5), RPC_WEB), Meta(Some(6), RPC_WEB)];
    assert !SyncFailsAt(rows, a.metas.value[0], a.syncFails(0)) && SyncFailsAt(rows, a.metas.value[1], a.syncFails(1));
  }

  const TWO_WEB_RUN: Runtime := map[5 := Web, 6 := Web]

  /** The sync fails, so the round works with the listing from before it and finds nothing desired. */
  lemma TwoUserRowsRound(a: Answers)
    requires a == Answered({5, 6}, WebMetas([5, 6]), DeleteOk({}))
    ensures Informed(TWO_WEB_RUN, a)
    ensures Desired(TWO_USER_ROWS, USER, MACHINE, a) == {}
    ensures 5 in CleanupSet(TWO_USER_ROWS, USER, MACHINE, a)
  {
    TwoUserRows(a);
    var metas := a.metas.value;
    assert metas[0] in metas && metas[1] in metas;
    var n := SyncMeaning(TWO_USER_ROWS, USER, MACHINE, metas, a.syncFails, a.now);
    assert !Synced(TWO_USER_ROWS, USER, MACHINE, a).ok;
    assert 5 in WebReported(metas);
  }

  /**
   A delete that hits an enabled web-owned row: the sync promotes the row of 5 and fails at the unreadable row of
   6, so the round goes on with its old listing and asks for the delete of 5.
   */
  lemma PromotedRowHazard()
    ensures var a := Answered({5, 6}, WebMetas([5, 6]), DeleteOk({}));
            var w := World(TWO_USER_ROWS, TWO_WEB_RUN, Cache(false, None));
            var r := Round(true, w, USER, MACHINE, a);
            && Benign(w, USER, MACHINE, a, {})
            && 5 in r.deleteRequest && 5 in WebOf(Rows(r.world.table, USER, MACHINE, EnabledOnly))
  {
    var a := Answered({5, 6}, WebMetas([5, 6]), DeleteOk({}));
    var w := World(TWO_USER_ROWS, TWO_WEB_RUN, Cache(false, None));
    TwoUserRowsRound(a);
    TwoUserRows(a);
    var n := DeletesWebRowIff(w, USER, MACHINE, a, 5);
    var first := a.metas.value[..1];
    assert first[0] in first;
    assert 5 in WebReported(first);
  }

  /**
   A failed delete: the desired set moves from {1} to {2} and the delete of 1 fails, then it moves back
   to {1}. The guard skips, and 2 keeps running although nothing wants it.
   */
  lemma FailedDeleteHazard()
    ensures var a := Answered({}, None, DeleteOk({}));
            var b := Answered({1}, WebMetas([1]), DeleteErrored({}));
            var c := Answered({1, 2}, WebMetas([1, 2]), DeleteOk({}));
            var w := Beat(World(OneWeb(1), map[], Cache(false, None)), a);
            var w' := Beat(w.(table := OneWeb(2)), b);
            && Informed(w.runtime, b) && Informed(w'.runtime, c)
            && SkipsNeededCleanup(w'.(table := OneWeb(1)), c)
  {
    FirstRound(Answered({}, None, DeleteOk({})));
    RoundWithFailedDelete(Answered({1}, WebMetas([1]), DeleteErrored({})));
    HiddenInstance(1, Answered({1, 2}, WebMetas([1, 2]), DeleteOk({})));
  }

  /**
   A kept instance: no call fails, but the client answers Ok to the delete of 1 and keeps it, since its config
   must not be deleted. From then on the guard skips, and 1 is not asked for again.
   */
  lemma KeptInstanceHazard()
    ensures var a := Answered({}, None, DeleteOk({}));
            var b := Answered({1}, WebMetas([1]), DeleteOk({1}));
            var c := Answered({1, 2}, WebMetas([1, 2]), DeleteOk({}));
            var w := Beat(World(OneWeb(1), map[], Cache(false, None)), a);
            var w' := Beat(w.(table := OneWeb(2)), b);
            && Informed(w.runtime, b) && Informed(w'.runtime, c)
            && SkipsNeededCleanup(w', c)
  {
    FirstRound(Answered({}, None, DeleteOk({})));
    RoundWithKeptInstance(Answered({1}, WebMetas([1]), DeleteOk({1})));
    HiddenInstance(2, Answered({1, 2}, WebMetas([1, 2]), DeleteOk({})));
  }

  /** A stale heartbeat: it misses instance 1 while the desired set becomes {2}, and 1 is never cleaned up. */
  lemma StaleReportHazard()
    ensures var a := Answered({}, None, DeleteOk({}));
            var c := Answered({1, 2}, WebMetas([1, 2]), DeleteOk({}));
            var w := Beat(World(OneWeb(1), map[], Cache(false, None)), a);
            var w' := Beat(w.(table := OneWeb(2)), a);
            && InformedAboutReport(w.runtime, a) && Informed(w'.runtime, c)
            && SkipsNeededCleanup(w', c)
  {
    var a := Answered({}, None, DeleteOk({}));
    FirstRound(a);
    RoundThatMisses(a);
    HiddenInstance(2, Answered({1, 2}, WebMetas([1, 2]), DeleteOk({})));
  }

  /** A failed metadata call: the row of instance 1 is gone, so the round cannot tell that 1 is stale. */
  lemma NoMetadataHazard()
    ensures var a := Answered({}, None, DeleteOk({}));
            var b := Answered({1}, None, DeleteOk({}));
            var c := Answered({1, 2}, WebMetas([1, 2]), DeleteOk({}));
            var w := Beat(World(OneWeb(1), map[], Cache(false, None)), a);
            var w' := Beat(w.(table := OneWeb(2)), b);
            && b.running == w.runtime.Keys && Informed(w'.runtime, c)
            && SkipsNeededCleanup(w', c)
  {
    FirstRound(Answered({}, None, DeleteOk({})));
    RoundThatMisses(Answered({1}, None, DeleteOk({})));
    HiddenInstance(2, Answered({1, 2}, WebMetas([1, 2]), DeleteOk({})));
  }
}
