/** The leadership audit written while watching the engine's metrics. */
module LeaderAudit {
  import opened Text

  datatype ServerState = Learner | Follower | Candidate | Leader | Shutdown

  datatype Metrics = Metrics(state: Option<ServerState>, term: nat, leader: Option<nat>)

  /** An audit record, with the position of the observation it was written at. */
  datatype Record = Elected(at: nat, term: nat) | Lost(at: nat, term: nat, newLeader: Option<nat>)

  /** Whether this node leads at observation `k`. It does not lead before the first. */
  predicate Leads(observed: seq<Metrics>, k: int)
    requires k < |observed|
  {
    k >= 0 && observed[k].state == Some(Leader)
  }

  predicate ChangesAt(observed: seq<Metrics>, k: nat)
    requires k < |observed|
  {
    Leads(observed, k) != Leads(observed, k - 1)
  }

  /** Record `r` tells what happened at its observation. */
  predicate Tells(observed: seq<Metrics>, r: Record) {
    && r.at < |observed|
    && ChangesAt(observed, r.at)
    && r == if Leads(observed, r.at) then Elected(r.at, observed[r.at].term)
            else Lost(r.at, observed[r.at].term, observed[r.at].leader)
  }

  /** Exactly the changes of leadership, in order. */
  ghost predicate Audits(observed: seq<Metrics>, trail: seq<Record>) {
    && (forall i :: 0 <= i < |trail| ==> Tells(observed, trail[i]))
    && (forall i, j :: 0 <= i < j < |trail| ==> trail[i].at < trail[j].at)
    && (forall k: nat :: k < |observed| && ChangesAt(observed, k) ==> exists i :: 0 <= i < |trail| && trail[i].at == k)
  }

  predicate Alternates(trail: seq<Record>) {
    forall i :: 0 <= i < |trail| ==> (trail[i].Elected? <==> i % 2 == 0)
  }

  /** `metric_pump` over all it observes, with an audit sink. */
  method MetricPump(observed: seq<Metrics>) returns (trail: seq<Record>)
    ensures Audits(observed, trail) && Alternates(trail)
    ensures |trail| % 2 == 1 <==> Leads(observed, |observed| - 1)
  {
    trail := [];
    var prev: Option<ServerState> := None;
    for i := 0 to |observed|
      invariant prev == if i == 0 then None else observed[i - 1].state
      invariant Audits(observed[..i], trail) && Alternates(trail)
      invariant |trail| % 2 == 1 <==> Leads(observed, i - 1)
    {
      var snap := observed[i];
      var wasLeader, isLeader := prev == Some(Leader), snap.state == Some(Leader);
      ghost var before := trail;
      if !wasLeader && isLeader {
        trail := trail + [Elected(i, snap.term)];
      } else if wasLeader && !isLeader {
        trail := trail + [Lost(i, snap.term, snap.leader)];
      }
      Extend(observed, i, before, trail);
      prev := snap.state;
    }
    assert observed[..|observed|] == observed;
  }

  lemma {:induction false} Extend(observed: seq<Metrics>, i: nat, before: seq<Record>, trail: seq<Record>)
    requires i < |observed| && Audits(observed[..i], before)
    requires
      if ChangesAt(observed, i) then
        trail == before + [if Leads(observed, i) then Elected(i, observed[i].term)
                           else Lost(i, observed[i].term, observed[i].leader)]
      else trail == before
    ensures Audits(observed[..i + 1], trail)
  {
    var o, o' := observed[..i], observed[..i + 1];
    assert forall r :: Tells(o, r) ==> Tells(o', r);
    forall k: nat | k < i + 1 && ChangesAt(o', k) ensures exists j :: 0 <= j < |trail| && trail[j].at == k {
      if k < i {
        assert ChangesAt(o, k);
        var j :| 0 <= j < |before| && before[j].at == k;
        assert trail[j].at == k;
      } else {
        assert trail[|before|].at == k;
      }
    }
  }

  function Count(trail: seq<Record>, elected: bool): nat {
    if trail == [] then 0
    else Count(trail[..|trail| - 1], elected) + if trail[|trail| - 1].Elected? == elected then 1 else 0
  }

  /** In an alternating trail the elections outnumber the losses by one exactly when its length is odd. */
  lemma {:induction false} Balance(trail: seq<Record>)
    requires Alternates(trail)
    ensures Count(trail, true) - Count(trail, false) == |trail| % 2
  {
    if trail != [] { Balance(trail[..|trail| - 1]); }
  }
}
