/**
 The source sync while the table is edited: it writes back configs from a listing taken before
 (`sync_running_config_sources`, iconnect-web/src/client_manager/session.rs), so an edit in between can be lost.
 */
module StaleSync {
  import opened Wrappers
  import opened ConfigTable
  import opened WebReconcile
  import opened ReconcileRound
  import opened ReconcileRuns

  /** A sync with the listing `local`; before the i-th piece of metadata someone may replace the table by `edits(i)`. */
  function SyncAmong(t: Table, user: int, machine: Uuid, local: map<Uuid, Row>, metas: seq<Meta>, edits: nat -> Option<Table>,
                     fails: nat -> bool, now: int): SyncResult
  {
    if metas == [] then SyncResult(t, true)
    else
      var n := |metas| - 1;
      var before := SyncAmong(t, user, machine, local, metas[..n], edits, fails, now);
      if !before.ok then before else SyncOne(edits(n).GetOr(before.table), user, machine, local, metas[n], fails(n), now)
  }

  /** Without edits it is the sync of a round. */
  lemma {:induction false} SyncAmongIsSync(t: Table, user: int, machine: Uuid, local: map<Uuid, Row>, metas: seq<Meta>,
                                           edits: nat -> Option<Table>, fails: nat -> bool, now: int)
    requires forall i :: edits(i).None?
    ensures SyncAmong(t, user, machine, local, metas, edits, fails, now) == Sync(t, user, machine, local, metas, fails, now)
  {
    if metas != [] {
      SyncAmongIsSync(t, user, machine, local, metas[..|metas| - 1], edits, fails, now);
    }
  }

  /** The metadata makes the sync write row `k`: it is listed as a user's and reported as web. */
  predicate SyncWrites(user: int, machine: Uuid, local: map<Uuid, Row>, meta: Meta, k: Key) {
    && k == Key(user, machine, k.inst) && meta.inst == Some(k.inst) && k.inst in local
    && FromRpc(meta.source) == Some(Web) && FromDb(local[k.inst].source) == User
  }

  /** What the write makes of the row it finds: the listed config, web-owned and enabled. */
  function Restored(found: Option<Row>, listed: Row, now: int): Row {
    Row(listed.config, "web", false, if found.Some? then found.value.createTime else now, now)
  }

  lemma SyncOneRow(t: Table, user: int, machine: Uuid, local: map<Uuid, Row>, meta: Meta, fails: bool, now: int, k: Key)
    requires !SyncFailsAt(local, meta, fails)
    ensures var r := SyncOne(t, user, machine, local, meta, fails, now);
            && r.ok
            && RowOf(r.table, k) ==
                 if SyncWrites(user, machine, local, meta, k) then Some(Restored(RowOf(t, k), local[k.inst], now)) else RowOf(t, k)
  {
  }

  /** Nothing in the metadata makes the sync fail. */
  predicate AllHandled(local: map<Uuid, Row>, metas: seq<Meta>, fails: nat -> bool) {
    forall i :: 0 <= i < |metas| ==> !SyncFailsAt(local, metas[i], fails(i))
  }

  /** Some metadata from `e` on makes the sync write row `k`. */
  predicate WritesFrom(user: int, machine: Uuid, local: map<Uuid, Row>, metas: seq<Meta>, k: Key, e: nat) {
    exists i :: e <= i < |metas| && SyncWrites(user, machine, local, metas[i], k)
  }

  lemma WritesFromSnoc(user: int, machine: Uuid, local: map<Uuid, Row>, metas: seq<Meta>, k: Key, e: nat)
    requires e < |metas|
    ensures WritesFrom(user, machine, local, metas, k, e) <==>
              || WritesFrom(user, machine, local, metas[..|metas| - 1], k, e)
              || SyncWrites(user, machine, local, metas[|metas| - 1], k)
  {
    var n := |metas| - 1;
    assert forall i :: 0 <= i < n ==> metas[..n][i] == metas[i];
    if WritesFrom(user, machine, local, metas[..n], k, e) {
      var i :| e <= i < n && SyncWrites(user, machine, local, metas[..n][i], k);
      assert SyncWrites(user, machine, local, metas[i], k);
    }
  }

  /** The last edit before the end is that at `e`. */
  predicate LastEdit(edits: nat -> Option<Table>, e: nat, n: nat) {
    e < n && edits(e).Some? && forall i :: e < i < n ==> edits(i).None?
  }

  /**
   What a row becomes when the table was last edited before the `e`-th piece of metadata: the edited row, unless the
   sync writes it from then on; then the listed config comes back, web-owned and enabled, even if the row was deleted,
   disabled or given another config.
   */
  lemma {:induction false} RowAfterEdit(t: Table, user: int, machine: Uuid, local: map<Uuid, Row>, metas: seq<Meta>,
                                        edits: nat -> Option<Table>, fails: nat -> bool, now: int, e: nat, k: Key)
    requires AllHandled(local, metas, fails) && LastEdit(edits, e, |metas|)
    ensures var r := SyncAmong(t, user, machine, local, metas, edits, fails, now);
            var edited := RowOf(edits(e).value, k);
            && r.ok
            && (if WritesFrom(user, machine, local, metas, k, e)
                then k.inst in local && RowOf(r.table, k) == Some(Restored(edited, local[k.inst], now))
                else RowOf(r.table, k) == edited)
  {
    var n := |metas| - 1;
    WritesFromSnoc(user, machine, local, metas, k, e);
    AllHandledOk(t, user, machine, local, metas[..n], edits, fails, now);
    var before := SyncAmong(t, user, machine, local, metas[..n], edits, fails, now);
    if e < n {
      RowAfterEdit(t, user, machine, local, metas[..n], edits, fails, now, e, k);
    }
    SyncOneRow(edits(n).GetOr(before.table), user, machine, local, metas[n], fails(n), now, k);
  }

  lemma {:induction false} AllHandledOk(t: Table, user: int, machine: Uuid, local: map<Uuid, Row>, metas: seq<Meta>,
                                        edits: nat -> Option<Table>, fails: nat -> bool, now: int)
    requires AllHandled(local, metas, fails)
    ensures SyncAmong(t, user, machine, local, metas, edits, fails, now).ok
  {
    if metas != [] {
      var n := |metas| - 1;
      AllHandledOk(t, user, machine, local, metas[..n], edits, fails, now);
      var before := SyncAmong(t, user, machine, local, metas[..n], edits, fails, now);
      SyncOneRow(edits(n).GetOr(before.table), user, machine, local, metas[n], fails(n), now, Key(user, machine, 0));
    }
  }

  /** The same row, update times aside. */
  predicate SameRow(a: Option<Row>, b: Option<Row>) {
    a.Some? == b.Some? && (a.Some? ==> a.value.(updateTime := 0) == b.value.(updateTime := 0))
  }

  /** An edit of a row survives the sync exactly when the sync does not write the row, or the edit left what it writes. */
  lemma EditSurvivesIff(t: Table, user: int, machine: Uuid, local: map<Uuid, Row>, metas: seq<Meta>,
                        edits: nat -> Option<Table>, fails: nat -> bool, now: int, e: nat, k: Key)
    requires AllHandled(local, metas, fails) && LastEdit(edits, e, |metas|)
    ensures var r := SyncAmong(t, user, machine, local, metas, edits, fails, now);
            var edited := RowOf(edits(e).value, k);
            SameRow(RowOf(r.table, k), edited) <==>
              || !WritesFrom(user, machine, local, metas, k, e)
              || (&& k.inst in local && edited.Some? && edited.value.source == "web" && !edited.value.disabled
                  && edited.value.config == local[k.inst].config)
  {
    RowAfterEdit(t, user, machine, local, metas, edits, fails, now, e, k);
  }

  /** A row that is deleted after the listing and reported as web comes back, enabled and with its old config. */
  lemma DeletedRowReturns(t: Table, user: int, machine: Uuid, id: Uuid, now: int)
    requires Key(user, machine, id) in t
    requires var row := t[Key(user, machine, id)]; !row.disabled && FromDb(row.source) == User && row.config.Encoded?
    ensures var k := Key(user, machine, id);
            var local := Rows(t, user, machine, EnabledOnly);
            var edits := (i: nat) => if i == 0 then Some(t - {k}) else None;
            var r := SyncAmong(t, user, machine, local, [Meta(Some(id), RPC_WEB)], edits, i => false, now);
            && r.ok && k in r.table && r.table[k] == Row(t[k].config, "web", false, now, now)
  {
    var k := Key(user, machine, id);
    var local := Rows(t, user, machine, EnabledOnly);
    var edits := (i: nat) => if i == 0 then Some(t - {k}) else None;
    var metas := [Meta(Some(id), RPC_WEB)];
    RowsAt(t, user, machine, EnabledOnly, id);
    assert SyncWrites(user, machine, local, metas[0], k);
    RowAfterEdit(t, user, machine, local, metas, edits, i => false, now, 0, k);
  }
}
