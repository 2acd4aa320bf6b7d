/** Whole runs of a cluster of stores over one committed log. The consensus engine is the environment: it
    hands each store the next committed entries in batches of its choosing, asks for snapshots, ships
    them, and has them installed. Between the two phases of a build anything else may happen. */
module Replication {
  import opened Text
  import opened Machine
  import opened Snapshots

  /** `built`, `fired` and `installed` record history: snapshot ids made here, revocation callbacks
      made here, and whether a snapshot was ever installed here. */
  datatype Replica = Replica(machine: State, snapshotIdx: nat, current: Option<Snapshot>,
                             built: seq<string>, fired: seq<Revocation>, installed: bool)

  datatype Build = Build(replica: nat, capture: Capture)

  datatype Cluster = Cluster(replicas: seq<Replica>, builds: map<nat, Build>, inTransit: set<Snapshot>)

  datatype Step =
    | ApplyBatch(replica: nat, count: nat)
    | BeginBuild(replica: nat, token: nat)
    | EndBuild(token: nat)
    | Send(replica: nat)
    | InstallFrom(replica: nat, snapshot: Snapshot)

  /** Log indices start at 0, so the number of applied entries is one more than the last index. */
  function Applied(lastApplied: Option<LogId>): nat {
    if lastApplied.Some? then lastApplied.value.index + 1 else 0
  }

  predicate Committed(log: seq<Entry>) { forall i :: 0 <= i < |log| ==> log[i].logId.index == i }

  /** No container was ever proposed under a label with U+0000 in it. */
  predicate CleanLog(log: seq<Entry>) { forall i :: 0 <= i < |log| ==> CleanEntry(log[i]) }

  predicate CleanEntry(e: Entry) {
    e.payload.Normal? && e.payload.data.ProposeContainer? ==> Nul !in e.payload.data.nodeId
  }

  function Replay(log: seq<Entry>, n: nat): State
    requires n <= |log|
  {
    ApplyAll(Initial, log[..n])
  }

  ghost predicate Enabled(log: seq<Entry>, c: Cluster, step: Step) {
    match step
    case ApplyBatch(r, k) => r < |c.replicas| && Applied(c.replicas[r].machine.lastApplied) + k <= |log|
    case BeginBuild(r, t) => r < |c.replicas| && t !in c.builds
    case EndBuild(t) => t in c.builds && c.builds[t].replica < |c.replicas|
    case Send(r) => r < |c.replicas| && c.replicas[r].current.Some?
    case InstallFrom(r, s) => r < |c.replicas| && s in c.inTransit
  }

  function AfterBatch(log: seq<Entry>, r: Replica, k: nat): Replica
    requires Applied(r.machine.lastApplied) + k <= |log|
  {
    var n := Applied(r.machine.lastApplied);
    r.(machine := ApplyAll(r.machine, log[n..n + k]), fired := r.fired + Revocations(log[n..n + k]))
  }

  function AfterBuild(r: Replica, capture: Capture): Replica {
    var snap := FinishBuild(capture, r.snapshotIdx + 1);
    r.(snapshotIdx := r.snapshotIdx + 1, current := Some(snap), built := r.built + [snap.meta.snapshotId])
  }

  function AfterInstall(r: Replica, s: Snapshot): Replica {
    r.(machine := Install(r.machine, s), current := Some(s), installed := true)
  }

  ghost function Next(log: seq<Entry>, c: Cluster, step: Step): Cluster
    requires Enabled(log, c, step)
  {
    match step
    case ApplyBatch(r, k) => c.(replicas := c.replicas[r := AfterBatch(log, c.replicas[r], k)])
    case BeginBuild(r, t) => c.(builds := c.builds[t := Build(r, CaptureOf(c.replicas[r].machine))])
    case EndBuild(t) =>
      var b := c.builds[t];
      c.(builds := c.builds - {t}, replicas := c.replicas[b.replica := AfterBuild(c.replicas[b.replica], b.capture)])
    case Send(r) => c.(inTransit := c.inTransit + {c.replicas[r].current.value})
    case InstallFrom(r, s) => c.(replicas := c.replicas[r := AfterInstall(c.replicas[r], s)])
  }

  const Fresh := Replica(Initial, 0, None, [], [], false)

  function Start(n: nat): Cluster {
    Cluster(seq(n, _ => Fresh), map[], {})
  }

  ghost predicate ValidRun(log: seq<Entry>, c: Cluster, steps: seq<Step>)
    decreases |steps|
  {
    steps == [] || (Enabled(log, c, steps[0]) && ValidRun(log, Next(log, c, steps[0]), steps[1..]))
  }

  ghost function Final(log: seq<Entry>, c: Cluster, steps: seq<Step>): Cluster
    requires ValidRun(log, c, steps)
    decreases |steps|
  {
    if steps == [] then c else Final(log, Next(log, c, steps[0]), steps[1..])
  }

  // ----- What every run keeps -----

  predicate AtReplay(log: seq<Entry>, s: State) {
    var n := Applied(s.lastApplied);
    n <= |log| && s == Replay(log, n)
  }

  ghost predicate CaptureOk(log: seq<Entry>, c: Capture) {
    var n := Applied(c.lastApplied);
    n <= |log| && c == CaptureOf(Replay(log, n))
  }

  ghost predicate SnapshotOk(log: seq<Entry>, s: Snapshot) {
    CaptureOk(log, Capture(s.data, s.meta.lastLogId, s.meta.membership))
  }

  ghost predicate ReplicaOk(log: seq<Entry>, r: Replica) {
    && AtReplay(log, r.machine)
    && (r.current.Some? ==> SnapshotOk(log, r.current.value))
  }

  ghost predicate Inv(log: seq<Entry>, c: Cluster) {
    && (forall r :: 0 <= r < |c.replicas| ==> ReplicaOk(log, c.replicas[r]))
    && (forall t :: t in c.builds ==> CaptureOk(log, c.builds[t].capture))
    && (forall s :: s in c.inTransit ==> SnapshotOk(log, s))
  }

  lemma {:induction false} ReplayStep(log: seq<Entry>, n: nat, k: nat)
    requires n + k <= |log|
    ensures Replay(log, n + k) == ApplyAll(Replay(log, n), log[n..n + k])
    ensures Revocations(log[..n + k]) == Revocations(log[..n]) + Revocations(log[n..n + k])
  {
    assert log[..n + k] == log[..n] + log[n..n + k];
    ApplyAllConcat(Initial, log[..n], log[n..n + k]);
  }

  lemma {:induction false} ReplayPosition(log: seq<Entry>, n: nat)
    requires Committed(log) && n <= |log|
    ensures Applied(Replay(log, n).lastApplied) == n
  {
  }

  lemma {:induction false} CleanReplay(log: seq<Entry>, n: nat)
    requires CleanLog(log) && n <= |log|
    ensures CleanKeys(Replay(log, n).containers)
  {
    if n > 0 {
      CleanReplay(log, n - 1);
      assert log[..n][..n - 1] == log[..n - 1];
      assert CleanEntry(log[n - 1]);
    }
  }

  lemma {:induction false} BatchKeeps(log: seq<Entry>, r: Replica, k: nat)
    requires Committed(log) && ReplicaOk(log, r)
    requires Applied(r.machine.lastApplied) + k <= |log|
    ensures ReplicaOk(log, AfterBatch(log, r, k))
  {
    var n := Applied(r.machine.lastApplied);
    ReplayStep(log, n, k);
    ReplayPosition(log, n + k);
  }

  lemma {:induction false} BuildKeeps(log: seq<Entry>, r: Replica, capture: Capture)
    requires ReplicaOk(log, r) && CaptureOk(log, capture)
    ensures ReplicaOk(log, AfterBuild(r, capture))
  {
  }

  /** A shipped snapshot decodes to the replayed state at exactly its own last log id. */
  lemma {:induction false} SnapshotDecodes(log: seq<Entry>, s: Snapshot, target: State)
    requires Committed(log) && CleanLog(log) && SnapshotOk(log, s)
    ensures Install(target, s) == Replay(log, Applied(s.meta.lastLogId))
  {
    var n := Applied(s.meta.lastLogId);
    CleanReplay(log, n);
    ContainersRoundTrip(Replay(log, n).containers);
  }

  lemma {:induction false} InstallKeeps(log: seq<Entry>, r: Replica, s: Snapshot)
    requires Committed(log) && CleanLog(log) && ReplicaOk(log, r) && SnapshotOk(log, s)
    ensures ReplicaOk(log, AfterInstall(r, s))
  {
    SnapshotDecodes(log, s, r.machine);
  }

  lemma {:induction false} NextKeepsInv(log: seq<Entry>, c: Cluster, step: Step)
    requires Committed(log) && CleanLog(log)
    requires Inv(log, c) && Enabled(log, c, step)
    ensures Inv(log, Next(log, c, step))
  {
    match step
    case ApplyBatch(r, k) => BatchKeeps(log, c.replicas[r], k);
    case BeginBuild(r, t) => assert ReplicaOk(log, c.replicas[r]);
    case EndBuild(t) => BuildKeeps(log, c.replicas[c.builds[t].replica], c.builds[t].capture);
    case Send(r) => assert ReplicaOk(log, c.replicas[r]);
    case InstallFrom(r, s) => InstallKeeps(log, c.replicas[r], s);
  }

  /** Induction over runs: what holds at the start and is kept by every step holds at the end. */
  lemma {:induction false} RunKeeps(log: seq<Entry>, inv: Cluster -> bool, c: Cluster, steps: seq<Step>)
    requires forall d, step :: inv(d) && Enabled(log, d, step) ==> inv(Next(log, d, step))
    requires inv(c) && ValidRun(log, c, steps)
    ensures inv(Final(log, c, steps))
    decreases |steps|
  {
    if steps != [] { RunKeeps(log, inv, Next(log, c, steps[0]), steps[1..]); }
  }

  ghost predicate Agree(c: Cluster) {
    forall p, q :: 0 <= p < |c.replicas| && 0 <= q < |c.replicas|
      && c.replicas[p].machine.lastApplied == c.replicas[q].machine.lastApplied
      ==> c.replicas[p].machine == c.replicas[q].machine
  }

  /** Replica agreement: after any interleaving of batches, two-phase builds, shipments and installs, every
      store holds the replay of the committed log up to its last applied entry. */
  lemma {:induction false} ReplicaAgreement(log: seq<Entry>, n: nat, steps: seq<Step>)
    requires Committed(log) && CleanLog(log) && ValidRun(log, Start(n), steps)
    ensures forall r :: 0 <= r < n ==>
              r < |Final(log, Start(n), steps).replicas| && AtReplay(log, Final(log, Start(n), steps).replicas[r].machine)
    ensures Agree(Final(log, Start(n), steps))
  {
    ReachableInv(log, n, steps);
    SameSize(log, Start(n), steps);
    var c := Final(log, Start(n), steps);
    forall r | 0 <= r < |c.replicas| ensures AtReplay(log, c.replicas[r].machine) {
      assert ReplicaOk(log, c.replicas[r]);
    }
  }

  lemma {:induction false} StartInv(log: seq<Entry>, n: nat)
    ensures Inv(log, Start(n))
  {
  }

  lemma {:induction false} SameSize(log: seq<Entry>, c: Cluster, steps: seq<Step>)
    requires ValidRun(log, c, steps)
    ensures |Final(log, c, steps).replicas| == |c.replicas|
    decreases |steps|
  {
    if steps != [] { SameSize(log, Next(log, c, steps[0]), steps[1..]); }
  }

  lemma {:induction false} ReachableInv(log: seq<Entry>, n: nat, steps: seq<Step>)
    requires Committed(log) && CleanLog(log) && ValidRun(log, Start(n), steps)
    ensures Inv(log, Final(log, Start(n), steps))
  {
    StartInv(log, n);
    forall d, step | Inv(log, d) && Enabled(log, d, step) ensures Inv(log, Next(log, d, step)) {
      NextKeepsInv(log, d, step);
    }
    RunKeeps(log, d => Inv(log, d), Start(n), steps);
  }

  /** Every snapshot a store holds, in any reachable state, restores on any target the replayed state at
      exactly the snapshot's own last log id, although builds straddle other steps. */
  lemma {:induction false} SnapshotsConsistent(log: seq<Entry>, n: nat, steps: seq<Step>, r: nat, target: State)
    requires Committed(log) && CleanLog(log) && ValidRun(log, Start(n), steps)
    requires r < |Final(log, Start(n), steps).replicas|
    ensures var held := Final(log, Start(n), steps).replicas[r].current;
            held.Some? ==>
              && Applied(held.value.meta.lastLogId) <= |log|
              && Install(target, held.value) == Replay(log, Applied(held.value.meta.lastLogId))
  {
    ReachableInv(log, n, steps);
    var rep := Final(log, Start(n), steps).replicas[r];
    assert ReplicaOk(log, rep);
    if rep.current.Some? { SnapshotDecodes(log, rep.current.value, target); }
  }
}
