/**
 What one round of the reconcile task does, read off the table, the client and the answers alone: which rows the
 sync promotes, which instances are started and deleted, what runs afterwards, and what is cached. These hold of
 every round, with outdated reports, without metadata and with failures.
 */
module RoundMeaning {
  import opened Wrappers
  import opened ConfigTable
  import opened WebReconcile
  import opened ReconcileRound
  import opened ReconcileRuns

  // ---------------------------------------------------------------- what the client said

  /** The client was asked for metadata and answered. */
  predicate Answered(a: Answers) {
    a.supportSource && a.running != {} && a.metas.Some?
  }

  /** Nothing is known about the sources: the client cannot tell, or the call failed. */
  predicate Unknown(a: Answers) {
    !a.supportSource || (a.running != {} && a.metas.None?)
  }

  /** Piece `i` of the metadata reports the instance as started from the web, which is source 2. */
  predicate ReportsWeb(a: Answers, i: nat, id: Uuid) {
    Answered(a) && i < |a.metas.value| && a.metas.value[i] == Meta(Some(id), 2)
  }

  predicate IsEnabled(t: Table, k: Key) {
    k in t && !t[k].disabled
  }

  predicate IsEnabledWeb(t: Table, k: Key) {
    IsEnabled(t, k) && t[k].source == "web"
  }

  /** Piece `i` calls for an update of a user's row that cannot be made. */
  predicate Fails(t: Table, user: int, machine: Uuid, a: Answers, i: nat) {
    && Answered(a) && i < |a.metas.value| && a.metas.value[i].source == 2 && a.metas.value[i].inst.Some?
    && var k := Key(user, machine, a.metas.value[i].inst.value);
       IsEnabled(t, k) && t[k].source != "web" && (t[k].config.Garbled? || a.syncFails(i))
  }

  /** The sync meets no update that cannot be made. */
  ghost predicate SyncGoesThrough(t: Table, user: int, machine: Uuid, a: Answers) {
    forall i :: !Fails(t, user, machine, a, i)
  }

  /** The sync gets to a piece of metadata that reports the instance as web. */
  ghost predicate Promotes(t: Table, user: int, machine: Uuid, a: Answers, id: Uuid) {
    exists i :: ReportsWeb(a, i, id) && forall j :: 0 <= j <= i ==> !Fails(t, user, machine, a, j)
  }

  lemma KnownMetas(a: Answers)
    ensures Answered(a) ==> Metas(a) == a.metas
    ensures Unknown(a) <==> Metas(a).None?
    ensures !Answered(a) && !Unknown(a) ==> Metas(a) == Some([])
  {
  }

  lemma FailsIff(t: Table, user: int, machine: Uuid, a: Answers, i: nat)
    requires Answered(a) && i < |a.metas.value|
    ensures SyncFailsAt(Rows(t, user, machine, EnabledOnly), a.metas.value[i], a.syncFails(i)) <==> Fails(t, user, machine, a, i)
  {
    var m := a.metas.value[i];
    if m.inst.Some? {
      RowsAt(t, user, machine, EnabledOnly, m.inst.value);
    }
  }

  // ---------------------------------------------------------------- the table

  /** The number of pieces of metadata that the sync gets through, and what it makes of the table. */
  lemma SyncReads(t: Table, user: int, machine: Uuid, a: Answers) returns (n: nat)
    requires Answered(a)
    ensures n <= |a.metas.value|
    ensures forall i :: 0 <= i < n ==> !Fails(t, user, machine, a, i)
    ensures n < |a.metas.value| ==> Fails(t, user, machine, a, n)
    ensures Synced(t, user, machine, a) ==
            SyncResult(Promoted(t, user, machine, WebReported(a.metas.value[..n]), a.now), n == |a.metas.value|)
  {
    KnownMetas(a);
    n := SyncMeaning(t, user, machine, a.metas.value, a.syncFails, a.now);
    forall i | 0 <= i < |a.metas.value|
      ensures SyncFailsAt(Rows(t, user, machine, EnabledOnly), a.metas.value[i], a.syncFails(i)) <==> Fails(t, user, machine, a, i)
    {
      FailsIff(t, user, machine, a, i);
    }
  }

  lemma PromotesIff(t: Table, user: int, machine: Uuid, a: Answers, id: Uuid, n: nat)
    requires Answered(a) && n <= |a.metas.value|
    requires forall i :: 0 <= i < n ==> !Fails(t, user, machine, a, i)
    requires n < |a.metas.value| ==> Fails(t, user, machine, a, n)
    ensures id in WebReported(a.metas.value[..n]) <==> Promotes(t, user, machine, a, id)
  {
    var done := a.metas.value[..n];
    if id in WebReported(done) {
      var m :| m in done && m.inst == Some(id) && FromRpc(m.source) == Some(Web);
      var i :| 0 <= i < |done| && done[i] == m;
      assert ReportsWeb(a, i, id);
    }
    if Promotes(t, user, machine, a, id) {
      var i: nat :| ReportsWeb(a, i, id) && forall j :: 0 <= j <= i ==> !Fails(t, user, machine, a, j);
      assert i < n;
      assert done[i] in done;
    }
  }

  /** The table after a round: the enabled users' rows that the sync reaches are the web's, and nothing else has changed. */
  lemma TableAfter(w: World, user: int, machine: Uuid, a: Answers, k: Key)
    ensures RowOf(Round(true, w, user, machine, a).world.table, k) ==
              if InScope(k, user, machine) && IsEnabled(w.table, k) && w.table[k].source != "web" && Promotes(w.table, user, machine, a, k.inst)
              then Some(w.table[k].(source := "web", updateTime := a.now))
              else RowOf(w.table, k)
  {
    KnownMetas(a);
    if Answered(a) {
      var n := SyncReads(w.table, user, machine, a);
      PromotesIff(w.table, user, machine, a, k.inst, n);
    }
  }

  lemma SyncOkIff(t: Table, user: int, machine: Uuid, a: Answers)
    ensures Synced(t, user, machine, a).ok <==> SyncGoesThrough(t, user, machine, a)
  {
    KnownMetas(a);
    if Answered(a) {
      var n := SyncReads(t, user, machine, a);
    }
  }

  /** The rows the round goes by: those after the sync if it went through, the listing from before it otherwise. */
  ghost function ActingTable(w: World, user: int, machine: Uuid, a: Answers): Table {
    if SyncGoesThrough(w.table, user, machine, a) then Round(true, w, user, machine, a).world.table else w.table
  }

  lemma LocalAt(w: World, user: int, machine: Uuid, a: Answers, id: Uuid)
    ensures var t, k := ActingTable(w, user, machine, a), Key(user, machine, id);
            var local := Local(w.table, user, machine, a);
            && (id in local <==> IsEnabled(t, k))
            && (id in local ==> local[id] == t[k])
  {
    KnownMetas(a);
    SyncOkIff(w.table, user, machine, a);
    RowsAt(w.table, user, machine, EnabledOnly, id);
    RowsAt(Synced(w.table, user, machine, a).table, user, machine, EnabledOnly, id);
  }

  // ---------------------------------------------------------------- starts

  /**
   The instances a round asks the client to start are, whatever the client said, exactly those with an enabled and
   readable row, whoever owns it, that the heartbeat did not report.
   */
  lemma StartsIff(w: World, user: int, machine: Uuid, a: Answers, id: Uuid)
    ensures var k := Key(user, machine, id);
            id in Round(true, w, user, machine, a).runRequests <==>
              k in w.table && !w.table[k].disabled && w.table[k].config.Encoded? && id !in a.running
  {
    LocalAt(w, user, machine, a, id);
    TableAfter(w, user, machine, a, Key(user, machine, id));
  }

  /** The owner that the round starts an instance for. */
  lemma StartedFor(w: World, user: int, machine: Uuid, a: Answers, id: Uuid)
    requires IsEnabled(w.table, Key(user, machine, id))
    ensures var k := Key(user, machine, id);
            var t := ActingTable(w, user, machine, a);
            && k in t
            && (t[k].source == "web" <==>
                  || w.table[k].source == "web"
                  || (SyncGoesThrough(w.table, user, machine, a) && Promotes(w.table, user, machine, a, id)))
  {
    TableAfter(w, user, machine, a, Key(user, machine, id));
  }

  /** The instance still runs after the deletes of the round. */
  predicate Survives(w: World, user: int, machine: Uuid, a: Answers, id: Uuid) {
    id in w.runtime &&
    (id in Round(true, w, user, machine, a).deleteRequest ==>
       match a.deletion
       case DeleteOk(kept) => id in kept
       case DeleteErrored(removed) => id !in removed)
  }

  /**
   What runs after a round, instance by instance: what was not asked for is as the deletes left it; what was asked
   for runs with its row's owner as source if it was started or replaced, is gone if it was lost, and is otherwise as
   the deletes left it.
   */
  lemma RuntimeAfter(w: World, user: int, machine: Uuid, a: Answers, id: Uuid)
    ensures var r := Round(true, w, user, machine, a);
            var runs, kept, o := r.world.runtime, Survives(w, user, machine, a, id), a.starts(id);
            if id !in r.runRequests then (id in runs <==> kept) && (id in runs ==> runs[id] == w.runtime[id])
            else if o.applied || (o.ok && !kept) then
              id in runs && Key(user, machine, id) in ActingTable(w, user, machine, a)
              && (runs[id] == Web <==> ActingTable(w, user, machine, a)[Key(user, machine, id)].source == "web")
            else if !o.ok && o.lost then id !in runs
            else (id in runs <==> kept) && (id in runs ==> runs[id] == w.runtime[id])
  {
    LocalAt(w, user, machine, a, id);
    assert w.runtime - {} == w.runtime;
  }

  /** Every instance that is asked for and whose start is answered Ok runs after the round. */
  lemma StartedRuns(w: World, user: int, machine: Uuid, a: Answers, id: Uuid)
    requires var k := Key(user, machine, id);
             k in w.table && !w.table[k].disabled && w.table[k].config.Encoded? && id !in a.running && a.starts(id).ok
    ensures id in Round(true, w, user, machine, a).world.runtime
  {
    StartsIff(w, user, machine, a, id);
    RuntimeAfter(w, user, machine, a, id);
  }

  // ---------------------------------------------------------------- deletes and the cache

  /** The instance is known to run as web: reported so, or without any report running with a web-owned row. */
  ghost predicate KnownWeb(w: World, user: int, machine: Uuid, a: Answers, id: Uuid) {
    if Unknown(a) then
      id in a.running && Key(user, machine, id) in w.table && w.table[Key(user, machine, id)].source == "web"
    else
      exists i :: ReportsWeb(a, i, id)
  }

  lemma DesiredAt(w: World, user: int, machine: Uuid, a: Answers, id: Uuid)
    ensures id in Desired(w.table, user, machine, a) <==>
              IsEnabledWeb(ActingTable(w, user, machine, a), Key(user, machine, id))
  {
    LocalAt(w, user, machine, a, id);
  }

  /** The cached set is that of the enabled web-owned rows. */
  ghost predicate CachesRows(c: Cache, t: Table, user: int, machine: Uuid) {
    c.cleaned && c.last.Some? && forall id :: id in c.last.value <==> IsEnabledWeb(t, Key(user, machine, id))
  }

  lemma CachesIff(c: Cache, w: World, user: int, machine: Uuid, a: Answers)
    ensures CachesRows(c, ActingTable(w, user, machine, a), user, machine) <==>
              c == Cache(true, Some(Desired(w.table, user, machine, a)))
  {
    var desired := Desired(w.table, user, machine, a);
    forall id ensures id in desired <==> IsEnabledWeb(ActingTable(w, user, machine, a), Key(user, machine, id)) {
      DesiredAt(w, user, machine, a, id);
    }
    if CachesRows(c, ActingTable(w, user, machine, a), user, machine) {
      assert c.last.value == desired;
    }
  }

  lemma KnownWebIff(w: World, user: int, machine: Uuid, a: Answers, id: Uuid)
    ensures KnownWeb(w, user, machine, a, id) <==>
              match Metas(a)
              case Some(metas) => id in WebReported(metas)
              case None => id in a.running && id in WebOf(Rows(w.table, user, machine, All))
  {
    KnownMetas(a);
    RowsAt(w.table, user, machine, All, id);
    if Answered(a) {
      var metas := a.metas.value;
      if id in WebReported(metas) {
        var m :| m in metas && m.inst == Some(id) && FromRpc(m.source) == Some(Web);
        var i :| 0 <= i < |metas| && metas[i] == m;
        assert ReportsWeb(a, i, id);
      }
      if i: nat :| ReportsWeb(a, i, id) {
        assert metas[i] in metas;
      }
    }
  }

  /**
   The instances a round asks the client to delete: none when the cache holds exactly the enabled web-owned rows, and
   otherwise exactly those known to run as web without an enabled web-owned row.
   */
  lemma DeletesIff(w: World, user: int, machine: Uuid, a: Answers, id: Uuid)
    ensures var t := ActingTable(w, user, machine, a);
            id in Round(true, w, user, machine, a).deleteRequest <==>
              && !CachesRows(w.cache, t, user, machine)
              && KnownWeb(w, user, machine, a, id) && !IsEnabledWeb(t, Key(user, machine, id))
  {
    CachesIff(w.cache, w, user, machine, a);
    DesiredAt(w, user, machine, a, id);
    KnownWebIff(w, user, machine, a, id);
  }

  /** The cache after a round: as before if the cleanup was skipped or its delete failed, and the enabled web-owned rows otherwise. */
  lemma CacheAfter(w: World, user: int, machine: Uuid, a: Answers)
    ensures var r := Round(true, w, user, machine, a);
            var t := ActingTable(w, user, machine, a);
            if CachesRows(w.cache, t, user, machine) || (r.deleteRequest != {} && a.deletion.DeleteErrored?)
            then r.world.cache == w.cache
            else CachesRows(r.world.cache, t, user, machine)
  {
    CachesIff(w.cache, w, user, machine, a);
    CachesIff(Round(true, w, user, machine, a).world.cache, w, user, machine, a);
    FinalAssignmentIsIdle(w, user, machine, a);
  }

  /** A row that keeps the round from being a full success: it should be started and is unreadable or its start fails. */
  predicate Unstarted(w: World, user: int, machine: Uuid, a: Answers, id: Uuid) {
    var k := Key(user, machine, id);
    k in w.table && !w.table[k].disabled && id !in a.running && (w.table[k].config.Garbled? || !a.starts(id).ok)
  }

  lemma FailedIff(w: World, user: int, machine: Uuid, a: Answers)
    ensures var r := Round(true, w, user, machine, a);
            r.failed <==> (r.deleteRequest != {} && a.deletion.DeleteErrored?) || exists id :: Unstarted(w, user, machine, a, id)
  {
    var r := Round(true, w, user, machine, a);
    var local := Local(w.table, user, machine, a);
    forall id ensures Unstarted(w, user, machine, a, id) <==>
                      id in local && id !in a.running && (local[id].config.Garbled? || (id in r.runRequests && !a.starts(id).ok))
    {
      LocalAt(w, user, machine, a, id);
      TableAfter(w, user, machine, a, Key(user, machine, id));
      StartsIff(w, user, machine, a, id);
    }
  }
}
