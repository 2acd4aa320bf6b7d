/** Which revocation callbacks stores make over whole runs. Snapshots do not carry revocations. */
module Firing {
  import opened Text
  import opened Machine
  import opened Snapshots
  import opened Replication
  import opened StoreHistory
  import opened Divergence

  /** A store that never installed a snapshot has fired exactly the revocations of its prefix, in order. */
  lemma {:induction false} RevocationsFired(log: seq<Entry>, n: nat, steps: seq<Step>, r: nat)
    requires Committed(log) && ValidRun(log, Start(n), steps)
    requires r < |Final(log, Start(n), steps).replicas| && !Final(log, Start(n), steps).replicas[r].installed
    ensures var rep := Final(log, Start(n), steps).replicas[r];
            var k := Applied(rep.machine.lastApplied);
            k <= |log| && FiresInOrder(log[..k], rep.fired)
  {
    ReachableLocal(log, n, steps);
    var rep := Final(log, Start(n), steps).replicas[r];
    assert LocalOk(log, rep);
    FiresIs(log[..Applied(rep.machine.lastApplied)], rep.fired);
  }

  predicate Revokes(e: Entry) { e.payload.Normal? && e.payload.data.RevokePluginKey? }

  predicate RevocationFree(log: seq<Entry>) { forall i :: 0 <= i < |log| ==> !Revokes(log[i]) }

  lemma {:induction false} NoRevocations(es: seq<Entry>)
    ensures Revocations(es) == [] <==> RevocationFree(es)
  {
    if es != [] {
      var n := |es| - 1;
      NoRevocations(es[..n]);
      assert es == es[..n] + [es[n]];
    }
  }

  /** Catching up by snapshot keeps that property exactly when the entries skipped hold no revocation. */
  lemma {:induction false} InstallSkipsRevocations(log: seq<Entry>, r: Replica, s: Snapshot)
    requires Applied(r.machine.lastApplied) <= Applied(s.meta.lastLogId) <= |log|
    requires FiresInOrder(log[..Applied(r.machine.lastApplied)], r.fired)
    ensures var q := AfterInstall(r, s);
            FiresInOrder(log[..Applied(q.machine.lastApplied)], q.fired)
            <==> RevocationFree(log[Applied(r.machine.lastApplied)..Applied(s.meta.lastLogId)])
  {
    var a, b := Applied(r.machine.lastApplied), Applied(s.meta.lastLogId);
    ReplayStep(log, a, b - a);
    FiresIs(log[..a], r.fired);
    FiresIs(log[..b], r.fired);
    NoRevocations(log[a..b]);
  }

  /** A revocation lost: for every log that has one at i there is a run after which some store is past it and has
      fired nothing. */
  lemma {:induction false} RevocationLost(log: seq<Entry>, i: nat)
    requires Committed(log) && i < |log| && Revokes(log[i])
    ensures exists steps :: ValidRun(log, Start(2), steps) && Missed(Final(log, Start(2), steps), i)
  {
    var a := AfterBatch(log, Fresh, i + 1);
    var cap := CaptureOf(a.machine);
    var snap := FinishBuild(cap, 1);
    CatchUpRun(log, i + 1, a, cap, snap);
    var b := AfterInstall(Fresh, snap);
    assert log[0..i + 1] == log[..i + 1];
    ReplayPosition(log, i + 1);
    assert Missed(Pair(AfterBuild(a, cap), b, map[], {snap}), i);
  }

  /** The second store has applied up to entry i and fired nothing. */
  predicate Missed(c: Cluster, i: nat) {
    |c.replicas| > 1 && Applied(c.replicas[1].machine.lastApplied) == i + 1 && c.replicas[1].fired == []
  }

  lemma {:induction false} MissedIsUnfired(log: seq<Entry>, c: Cluster, i: nat)
    requires i < |log| && Revokes(log[i]) && Missed(c, i)
    ensures !AllFired(log, c)
  {
    assert !Fired(log, c.replicas[1]);
  }

  /** The store has fired exactly the revocations of the entries it counts as applied. */
  ghost predicate Fired(log: seq<Entry>, r: Replica) {
    var k := Applied(r.machine.lastApplied);
    k <= |log| && FiresInOrder(log[..k], r.fired)
  }

  ghost predicate AllFired(log: seq<Entry>, c: Cluster) {
    forall r :: 0 <= r < |c.replicas| ==> Fired(log, c.replicas[r])
  }

  /** Positions stay within the log and, if it holds no revocation, nothing is fired, whatever the labels. */
  ghost predicate QuietInv(log: seq<Entry>, c: Cluster) {
    && (forall r :: 0 <= r < |c.replicas| ==> Quiet(log, c.replicas[r]))
    && (forall t :: t in c.builds ==> Applied(c.builds[t].capture.lastApplied) <= |log|)
    && (forall s :: s in c.inTransit ==> Applied(s.meta.lastLogId) <= |log|)
  }

  predicate Quiet(log: seq<Entry>, r: Replica) {
    && Applied(r.machine.lastApplied) <= |log|
    && (r.current.Some? ==> Applied(r.current.value.meta.lastLogId) <= |log|)
    && r.fired == []
  }

  lemma {:induction false} BatchKeepsQuiet(log: seq<Entry>, r: Replica, k: nat)
    requires Committed(log) && RevocationFree(log) && Quiet(log, r) && Applied(r.machine.lastApplied) + k <= |log|
    ensures Quiet(log, AfterBatch(log, r, k))
  {
    var n := Applied(r.machine.lastApplied);
    var es := log[n..n + k];
    NoRevocations(es);
    assert forall i :: 0 <= i < k ==> es[i] == log[n + i];
  }

  lemma {:induction false} NextKeepsQuiet(log: seq<Entry>, c: Cluster, step: Step)
    requires Committed(log) && RevocationFree(log) && QuietInv(log, c) && Enabled(log, c, step)
    ensures QuietInv(log, Next(log, c, step))
  {
    match step
    case ApplyBatch(r, k) => BatchKeepsQuiet(log, c.replicas[r], k);
    case BeginBuild(r, t) => assert Quiet(log, c.replicas[r]);
    case EndBuild(t) => assert Quiet(log, c.replicas[c.builds[t].replica]);
    case Send(r) => assert Quiet(log, c.replicas[r]);
    case InstallFrom(r, s) => assert Quiet(log, c.replicas[r]);
  }

  lemma {:induction false} ReachableQuiet(log: seq<Entry>, n: nat, steps: seq<Step>)
    requires Committed(log) && RevocationFree(log) && ValidRun(log, Start(n), steps)
    ensures QuietInv(log, Final(log, Start(n), steps))
  {
    forall d, step | QuietInv(log, d) && Enabled(log, d, step) ensures QuietInv(log, Next(log, d, step)) {
      NextKeepsQuiet(log, d, step);
    }
    RunKeeps(log, d => QuietInv(log, d), Start(n), steps);
  }

  lemma {:induction false} QuietFired(log: seq<Entry>, n: nat, steps: seq<Step>)
    requires Committed(log) && RevocationFree(log) && ValidRun(log, Start(n), steps)
    ensures AllFired(log, Final(log, Start(n), steps))
  {
    ReachableQuiet(log, n, steps);
    var c := Final(log, Start(n), steps);
    forall r | 0 <= r < |c.replicas| ensures Fired(log, c.replicas[r]) {
      assert Quiet(log, c.replicas[r]);
      var es := log[..Applied(c.replicas[r].machine.lastApplied)];
      NoRevocations(es);
      FiresIs(es, []);
    }
  }

  lemma {:induction false} FiringFails(log: seq<Entry>, i: nat) returns (steps: seq<Step>)
    requires Committed(log) && i < |log| && Revokes(log[i])
    ensures ValidRun(log, Start(2), steps) && !AllFired(log, Final(log, Start(2), steps))
  {
    RevocationLost(log, i);
    steps :| ValidRun(log, Start(2), steps) && Missed(Final(log, Start(2), steps), i);
    MissedIsUnfired(log, Final(log, Start(2), steps), i);
  }

  ghost predicate AlwaysFired(log: seq<Entry>) {
    forall n, steps :: ValidRun(log, Start(n), steps) ==> AllFired(log, Final(log, Start(n), steps))
  }

  /** In every run every store fires exactly the revocations of its prefix, if and only if the log has none. */
  lemma {:induction false} FiringExact(log: seq<Entry>)
    requires Committed(log)
    ensures RevocationFree(log) <==> AlwaysFired(log)
  {
    if RevocationFree(log) {
      forall n, steps | ValidRun(log, Start(n), steps) ensures AllFired(log, Final(log, Start(n), steps)) {
        QuietFired(log, n, steps);
      }
    } else {
      var i :| 0 <= i < |log| && Revokes(log[i]);
      var steps := FiringFails(log, i);
    }
  }
}
