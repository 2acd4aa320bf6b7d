/** What a store keeps on its own over whole runs, whatever the labels: its snapshot ids, what it holds and what it fired. */
module StoreHistory {
  import opened Text
  import opened Machine
  import opened Snapshots
  import opened Replication

  ghost predicate MadeWith(id: string, idx: nat) { exists last :: id == SnapshotId(last, idx) }

  predicate HistoryOk(log: seq<Entry>, r: Replica) {
    !r.installed ==>
      AtReplay(log, r.machine) && r.fired == Revocations(log[..Applied(r.machine.lastApplied)])
  }

  ghost predicate LocalOk(log: seq<Entry>, r: Replica) {
    && |r.built| == r.snapshotIdx
    && (forall j :: 0 <= j < |r.built| ==> MadeWith(r.built[j], j + 1))
    && HistoryOk(log, r)
  }

  ghost predicate LocalInv(log: seq<Entry>, c: Cluster) {
    forall r :: 0 <= r < |c.replicas| ==> LocalOk(log, c.replicas[r])
  }

  lemma {:induction false} BatchKeepsLocal(log: seq<Entry>, r: Replica, k: nat)
    requires Committed(log) && LocalOk(log, r) && Applied(r.machine.lastApplied) + k <= |log|
    ensures LocalOk(log, AfterBatch(log, r, k))
  {
    if !r.installed {
      var n := Applied(r.machine.lastApplied);
      ReplayStep(log, n, k);
      ReplayPosition(log, n + k);
    }
  }

  lemma {:induction false} BuildKeepsLocal(log: seq<Entry>, r: Replica, capture: Capture)
    requires LocalOk(log, r)
    ensures LocalOk(log, AfterBuild(r, capture))
  {
  }

  lemma {:induction false} NextKeepsLocal(log: seq<Entry>, c: Cluster, step: Step)
    requires Committed(log) && LocalInv(log, c) && Enabled(log, c, step)
    ensures LocalInv(log, Next(log, c, step))
  {
    match step
    case ApplyBatch(r, k) => BatchKeepsLocal(log, c.replicas[r], k);
    case BeginBuild(r, t) =>
    case EndBuild(t) => BuildKeepsLocal(log, c.replicas[c.builds[t].replica], c.builds[t].capture);
    case Send(r) =>
    case InstallFrom(r, s) => assert LocalOk(log, c.replicas[r]);
  }

  lemma {:induction false} ReachableLocal(log: seq<Entry>, n: nat, steps: seq<Step>)
    requires Committed(log) && ValidRun(log, Start(n), steps)
    ensures LocalInv(log, Final(log, Start(n), steps))
  {
    assert log[..0] == [];
    forall d, step | LocalInv(log, d) && Enabled(log, d, step) ensures LocalInv(log, Next(log, d, step)) {
      NextKeepsLocal(log, d, step);
    }
    RunKeeps(log, d => LocalInv(log, d), Start(n), steps);
  }

  /** No store ever uses a snapshot id twice. */
  lemma {:induction false} SnapshotIdsUnique(log: seq<Entry>, n: nat, steps: seq<Step>, r: nat, i: nat, j: nat)
    requires Committed(log) && ValidRun(log, Start(n), steps)
    requires r < |Final(log, Start(n), steps).replicas|
    requires i < j < |Final(log, Start(n), steps).replicas[r].built|
    ensures Final(log, Start(n), steps).replicas[r].built[i] != Final(log, Start(n), steps).replicas[r].built[j]
  {
    ReachableLocal(log, n, steps);
    BuiltDistinct(log, Final(log, Start(n), steps).replicas[r], i, j);
  }

  lemma {:induction false} BuiltDistinct(log: seq<Entry>, rep: Replica, i: nat, j: nat)
    requires LocalOk(log, rep) && i < j < |rep.built|
    ensures rep.built[i] != rep.built[j]
  {
    assert MadeWith(rep.built[i], i + 1) && MadeWith(rep.built[j], j + 1);
    var a :| rep.built[i] == SnapshotId(a, i + 1);
    var b :| rep.built[j] == SnapshotId(b, j + 1);
    SnapshotIdsDistinct(a, i + 1, b, j + 1);
  }

  /** What a store holds changes only when it finishes a build, to the snapshot of the captured state with the next
      counter, and when it installs, to the snapshot installed. */
  lemma {:induction false} HeldExactly(log: seq<Entry>, c: Cluster, step: Step, r: nat)
    requires Enabled(log, c, step) && r < |c.replicas|
    ensures
      var held := Next(log, c, step).replicas[r].current;
      if step.InstallFrom? && step.replica == r then held == Some(step.snapshot)
      else if step.EndBuild? && c.builds[step.token].replica == r
      then held == Some(FinishBuild(c.builds[step.token].capture, c.replicas[r].snapshotIdx + 1))
      else held == c.replicas[r].current
  {
  }
}
