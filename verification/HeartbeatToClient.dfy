/** From the webhook's answer to the instances a client runs: a heartbeat and the round of the reconcile task after it. */
module HeartbeatToClient {
  import opened Wrappers
  import opened ConfigTable
  import opened WebReconcile
  import opened HeartbeatSession
  import HeartbeatTable
  import ReconcileRound
  import ReconcileRuns

  /**
   A heartbeat reconciles undisturbed and commits, however other heartbeats interleave; then one flawless benign
   round follows. The recorded revision is that of the heartbeat's response, every config of that response that no
   user owns runs, and an instance runs as web only if it is one of them or cannot be deleted.
   */
  lemma CommittedConfigsRun(cfg: Settings, s: State, id: nat, steps: seq<Step>, runtime: ReconcileRound.Runtime,
                            cache: ReconcileRound.Cache, a: ReconcileRound.Answers, fixed: set<Uuid>)
    requires id in s.tasks && s.tasks[id].Resolved? && ShouldReconcile(s.tasks[id].info)
    requires HeartbeatTable.Undisturbed(cfg, Next(cfg, s, BeginReconcile(id, true)), steps, id)
    requires var ready := HeartbeatTable.RunFrom(cfg, Next(cfg, s, BeginReconcile(id, true)), steps);
             id in ready.tasks && ready.tasks[id].Ready?
    requires ReconcileRuns.GuardInv(ReconcileRound.World(s.table, runtime, cache), fixed)
    requires var info := s.tasks[id].info;
             forall i :: i in ReconcileRuns.WebRunning(runtime) ==> !UserOwned(s.table, info.user, info.machine, i)
    requires var info := s.tasks[id].info;
             var ready := HeartbeatTable.RunFrom(cfg, Next(cfg, s, BeginReconcile(id, true)), steps);
             var w := ReconcileRound.World(Next(cfg, ready, Commit(id)).table, runtime, cache);
             && ReconcileRuns.Benign(w, info.user, info.machine, a, fixed)
             && ReconcileRuns.Flawless(w.table, info.user, info.machine, a)
    ensures var info := s.tasks[id].info;
            var ready := HeartbeatTable.RunFrom(cfg, Next(cfg, s, BeginReconcile(id, true)), steps);
            var end := Next(cfg, ready, Commit(id));
            var w := ReconcileRound.World(end.table, runtime, cache);
            var running := ReconcileRound.Round(true, w, info.user, info.machine, a).world.runtime;
            var wanted := ReconcileRuns.Wanted(cfg.lib, s.table, info.user, info.machine, HeartbeatTable.ConfigsOf(info));
            && end.applied == Some(info.response.value.revision)
            && wanted <= running.Keys && ReconcileRuns.WebRunning(running) <= wanted + fixed
  {
    var info := s.tasks[id].info;
    var ready := HeartbeatTable.RunFrom(cfg, Next(cfg, s, BeginReconcile(id, true)), steps);
    var end := Next(cfg, ready, Commit(id));
    HeartbeatTable.UndisturbedCommit(cfg, s, id, steps);
    ReconcileRuns.EndToEnd(cfg.lib, ReconcileRound.World(s.table, runtime, cache), ReconcileRound.World(end.table, runtime, cache),
                           info.user, info.machine, HeartbeatTable.ConfigsOf(info), a, fixed);
  }
}
