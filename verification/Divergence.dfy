/** Runs that catch a store up by snapshot, and the exact condition under which stores agree. */
module Divergence {
  import opened Text
  import opened Machine
  import opened Snapshots
  import opened Replication

  lemma {:induction false} RunCons(log: seq<Entry>, c: Cluster, d: Cluster, step: Step, rest: seq<Step>)
    requires Enabled(log, c, step) && Next(log, c, step) == d && ValidRun(log, d, rest)
    ensures ValidRun(log, c, [step] + rest) && Final(log, c, [step] + rest) == Final(log, d, rest)
  {
  }

  /** The cluster of two in which the first store built a snapshot and shipped it. */
  function Pair(a: Replica, b: Replica, builds: map<nat, Build>, inTransit: set<Snapshot>): Cluster {
    Cluster([a, b], builds, inTransit)
  }

  lemma {:induction false} PairBuild(log: seq<Entry>, a: Replica, b: Replica)
    ensures var cap := CaptureOf(a.machine);
            && Enabled(log, Pair(a, b, map[], {}), BeginBuild(0, 0))
            && Next(log, Pair(a, b, map[], {}), BeginBuild(0, 0)) == Pair(a, b, map[0 := Build(0, cap)], {})
            && Enabled(log, Pair(a, b, map[0 := Build(0, cap)], {}), EndBuild(0))
            && Next(log, Pair(a, b, map[0 := Build(0, cap)], {}), EndBuild(0)) == Pair(AfterBuild(a, cap), b, map[], {})
  {
  }

  lemma {:induction false} PairShip(log: seq<Entry>, a: Replica, b: Replica, snap: Snapshot)
    requires a.current == Some(snap)
    ensures Enabled(log, Pair(a, b, map[], {}), Send(0))
    ensures Next(log, Pair(a, b, map[], {}), Send(0)) == Pair(a, b, map[], {snap})
    ensures Enabled(log, Pair(a, b, map[], {snap}), InstallFrom(1, snap))
    ensures Next(log, Pair(a, b, map[], {snap}), InstallFrom(1, snap)) == Pair(a, AfterInstall(b, snap), map[], {snap})
  {
  }

  lemma {:induction false} PairApply(log: seq<Entry>, n: nat)
    requires n <= |log|
    ensures Start(2) == Pair(Fresh, Fresh, map[], {})
    ensures Enabled(log, Pair(Fresh, Fresh, map[], {}), ApplyBatch(0, n))
    ensures Next(log, Pair(Fresh, Fresh, map[], {}), ApplyBatch(0, n)) == Pair(AfterBatch(log, Fresh, n), Fresh, map[], {})
  {
  }

  /** One store applies a prefix, snapshots it and ships it; the other installs it. */
  lemma {:induction false} CatchUpRun(log: seq<Entry>, n: nat, a: Replica, cap: Capture, snap: Snapshot)
    requires n <= |log|
    requires a == AfterBatch(log, Fresh, n)
    requires cap == CaptureOf(a.machine) && snap == FinishBuild(cap, 1)
    ensures exists steps :: ValidRun(log, Start(2), steps)
              && Final(log, Start(2), steps) == Pair(AfterBuild(a, cap), AfterInstall(Fresh, snap), map[], {snap})
  {
    var b := AfterBuild(a, cap);
    PairApply(log, n);
    PairBuild(log, a, Fresh);
    PairShip(log, b, Fresh, snap);
    var last := Pair(b, AfterInstall(Fresh, snap), map[], {snap});
    var s1 := [InstallFrom(1, snap)] + [];
    RunCons(log, Pair(b, Fresh, map[], {snap}), last, InstallFrom(1, snap), []);
    var s2 := [Send(0)] + s1;
    RunCons(log, Pair(b, Fresh, map[], {}), Pair(b, Fresh, map[], {snap}), Send(0), s1);
    var s3 := [EndBuild(0)] + s2;
    RunCons(log, Pair(a, Fresh, map[0 := Build(0, cap)], {}), Pair(b, Fresh, map[], {}), EndBuild(0), s2);
    var s4 := [BeginBuild(0, 0)] + s3;
    RunCons(log, Pair(a, Fresh, map[], {}), Pair(a, Fresh, map[0 := Build(0, cap)], {}), BeginBuild(0, 0), s3);
    RunCons(log, Pair(Fresh, Fresh, map[], {}), Pair(a, Fresh, map[], {}), ApplyBatch(0, n), s4);
  }

  /** A log with an unclean proposal has a run after which two stores at the same position differ. */
  lemma {:induction false} UncleanLogDiverges(log: seq<Entry>, i: nat)
    requires Committed(log) && i < |log| && !CleanEntry(log[i])
    ensures exists steps :: ValidRun(log, Start(2), steps) && !Agree(Final(log, Start(2), steps))
  {
    var a := AfterBatch(log, Fresh, i + 1);
    var m := a.machine;
    UncleanReplay(log, i);
    assert log[0..i + 1] == log[..i + 1];
    var snap := FinishBuild(CaptureOf(m), 1);
    CatchUpRun(log, i + 1, a, CaptureOf(m), snap);
    SnapshotRoundTrip(m, Initial, 1);
    var c := Pair(AfterBuild(a, CaptureOf(m)), AfterInstall(Fresh, snap), map[], {snap});
    assert c.replicas[0].machine == m && c.replicas[1].machine == Install(Initial, snap);
    assert !Agree(c);
  }

  lemma {:induction false} UncleanReplay(log: seq<Entry>, i: nat)
    requires i < |log| && !CleanEntry(log[i])
    ensures !CleanKeys(Replay(log, i + 1).containers)
  {
    assert log[..i + 1][i] == log[i];
    var k := (log[i].payload.data.nodeId, log[i].payload.data.container.id);
    assert k in Replay(log, i + 1).containers && !CleanLabel(k);
  }

  /** Stores at the same position agree in every run exactly when no label in the log contains U+0000. */
  lemma {:induction false} AgreementExact(log: seq<Entry>)
    requires Committed(log)
    ensures CleanLog(log) <==> forall n, steps :: ValidRun(log, Start(n), steps) ==> Agree(Final(log, Start(n), steps))
  {
    if CleanLog(log) {
      forall n, steps | ValidRun(log, Start(n), steps) ensures Agree(Final(log, Start(n), steps)) {
        ReplicaAgreement(log, n, steps);
      }
    } else {
      var i :| 0 <= i < |log| && !CleanEntry(log[i]);
      UncleanLogDiverges(log, i);
    }
  }
}
