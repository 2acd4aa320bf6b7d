/** Gossip-driven voter changes: one reconciliation round of `raft_membership_sync_round` over the
    replace-all-voters primitive of the consensus engine. */
module MembershipSync {
  import opened Text
  import opened Ordering

  datatype Status = Alive | Stale | Dead
  datatype Peer = Peer(nodeId: string, status: Status, joinedAt: int)

  /** The engine's voters and the local id-to-label map. */
  datatype Raft = Raft(self: nat, voters: set<nat>, labels: map<nat, string>)

  /** The inputs of a round. `id` maps labels to node ids. */
  datatype Input = Input(id: string -> nat, peers: seq<Peer>, now: int, promoteAfter: int)

  /** `node_id_from_string` over an arbitrary 64-bit hash: ids 0 and 1 are reserved. */
  function NodeIdFromString(hash: string -> nat, lbl: string): (n: nat)
    ensures n == 1 <==> lbl == "local"
    ensures lbl != "local" ==> n >= 2 && (n == hash(lbl) || (hash(lbl) < 2 && n == hash(lbl) + 2))
  {
    if lbl == "local" then 1 else if hash(lbl) < 2 then hash(lbl) + 2 else hash(lbl)
  }

  // ----- The round, step by step -----

  function VoterLabels(r: Raft): set<string> {
    set v | v in r.voters && v in r.labels :: r.labels[v]
  }

  predicate Eligible(inp: Input, p: Peer) { p.status.Alive? && inp.now - p.joinedAt >= inp.promoteAfter }

  function ToPromote(r: Raft, inp: Input, peers: seq<Peer>): seq<string> {
    if peers == [] then []
    else
      var p := peers[|peers| - 1];
      ToPromote(r, inp, peers[..|peers| - 1]) +
      if Eligible(inp, p) && p.nodeId !in VoterLabels(r) then [p.nodeId] else []
  }

  function ToRemove(r: Raft, peers: seq<Peer>): seq<string> {
    if peers == [] then []
    else
      var p := peers[|peers| - 1];
      ToRemove(r, peers[..|peers| - 1]) +
      if p.status.Dead? && p.nodeId in VoterLabels(r) then [p.nodeId] else []
  }

  function Ids(id: string -> nat, ls: seq<string>): set<nat> { set l | l in ls :: id(l) }

  /** `change_membership` to the given labels and the local node; all other voters are dropped. */
  function Promote(r: Raft, id: string -> nat, ls: seq<string>, ok: bool): Raft {
    if ok then r.(voters := {r.self} + Ids(id, ls)) else r
  }

  function Newly(r: Raft, id: string -> nat, ls: seq<string>): seq<string> {
    if ls == [] then []
    else Newly(r, id, ls[..|ls| - 1]) + if id(ls[|ls| - 1]) !in r.voters then [ls[|ls| - 1]] else []
  }

  /** Removing a node: refused when it would leave no voter, otherwise up to the engine. */
  predicate CanRemove(r: Raft, id: string -> nat, lbl: string, ok: bool) {
    r.voters - {id(lbl)} != {} && ok
  }

  function Remove(r: Raft, id: string -> nat, lbl: string, ok: bool): Raft {
    if CanRemove(r, id, lbl, ok) then r.(voters := r.voters - {id(lbl)}, labels := r.labels - {id(lbl)}) else r
  }

  /** `ok(k)` is the engine's answer to the k-th removal. */
  function RemoveAll(r: Raft, id: string -> nat, ls: seq<string>, ok: nat -> bool): Raft {
    if ls == [] then r
    else Remove(RemoveAll(r, id, ls[..|ls| - 1], ok), id, ls[|ls| - 1], ok(|ls| - 1))
  }

  function Removed(r: Raft, id: string -> nat, ls: seq<string>, ok: nat -> bool): seq<string> {
    if ls == [] then []
    else
      var n := |ls| - 1;
      Removed(r, id, ls[..n], ok) +
      if CanRemove(RemoveAll(r, id, ls[..n], ok), id, ls[n], ok(n)) then [ls[n]] else []
  }

  /** Existing voters' labels in set order, then the new candidates. */
  ghost function AllLabels(r: Raft, inp: Input): seq<string> {
    LabelOrder(VoterLabels(r)) + ToPromote(r, inp, inp.peers)
  }

  ghost function LabelOrder(ls: set<string>): (r: seq<string>)
    ensures forall l :: l in r <==> l in ls
  {
    StringOrder();
    Listing(StringLess, ls)
  }

  method LabelsInOrder(ls: set<string>) returns (r: seq<string>)
    ensures r == LabelOrder(ls)
  {
    StringOrder();
    r := SortedKeys(StringLess, ls);
    ListingIs(StringLess, ls, r);
  }

  ghost function AfterPromotion(r: Raft, inp: Input, ok: bool): Raft {
    if ToPromote(r, inp, inp.peers) == [] then r else Promote(r, inp.id, AllLabels(r, inp), ok)
  }

  ghost function Round(r: Raft, inp: Input, promoteOk: bool, removeOk: nat -> bool): Raft {
    RemoveAll(AfterPromotion(r, inp, promoteOk), inp.id, ToRemove(r, inp.peers), removeOk)
  }

  class RaftNode {
    const self: nat
    const id: string -> nat
    var voters: set<nat>
    var learners: set<nat>
    var labels: map<nat, string>

    function View(): Raft
      reads this
    {
      Raft(self, voters, labels)
    }

    /** A node told to bootstrap becomes the only voter, unless the engine says it is already initialised. */
    constructor (self: nat, lbl: string, id: string -> nat, bootstrap: bool, engineOk: bool)
      ensures View() == Raft(self, if bootstrap && engineOk then {self} else {}, map[self := lbl])
      ensures this.id == id && learners == {}
    {
      this.self, this.id, learners, labels := self, id, {}, map[self := lbl];
      voters := if bootstrap && engineOk then {self} else {};
    }

    /** The label is recorded whether or not the engine accepts the learner; a member is not added again. */
    method AddLearner(lbl: string, engineOk: bool) returns (ok: bool)
      modifies this`labels, this`learners
      ensures View() == old(View()).(labels := old(labels)[id(lbl) := lbl])
      ensures ok <==> id(lbl) in voters || id(lbl) in old(learners) || engineOk
      ensures learners == if ok && id(lbl) !in voters then old(learners) + {id(lbl)} else old(learners)
    {
      labels := labels[id(lbl) := lbl];
      if id(lbl) in voters || id(lbl) in learners {
        assert id(lbl) in learners ==> learners + {id(lbl)} == learners;
        return true;
      }
      if engineOk { learners := learners + {id(lbl)}; }
      ok := engineOk;
    }

    method PromoteToVoter(ls: seq<string>, engineOk: bool) returns (ok: bool)
      modifies this`voters, this`learners
      ensures View() == Promote(old(View()), id, ls, engineOk) && ok == engineOk
      ensures learners == if engineOk then old(learners) - voters else old(learners)
    {
      var ids := {self};
      for i := 0 to |ls|
        invariant ids == {self} + Ids(id, ls[..i])
      {
        assert ls[..i + 1] == ls[..i] + [ls[i]];
        ids := ids + {id(ls[i])};
      }
      assert ls[..|ls|] == ls;
      if engineOk { voters, learners := ids, learners - ids; }
      ok := engineOk;
    }

    method PromoteWithAudit(ls: seq<string>, engineOk: bool) returns (newly: Option<seq<string>>)
      modifies this`voters, this`learners
      ensures View() == Promote(old(View()), id, ls, engineOk)
      ensures learners == if engineOk then old(learners) - voters else old(learners)
      ensures newly == if engineOk then Some(Newly(old(View()), id, ls)) else None
    {
      var added: seq<string> := [];
      for i := 0 to |ls|
        invariant added == Newly(View(), id, ls[..i])
      {
        assert ls[..i + 1][..i] == ls[..i];
        if id(ls[i]) !in voters { added := added + [ls[i]]; }
      }
      assert ls[..|ls|] == ls;
      var ok := PromoteToVoter(ls, engineOk);
      newly := if ok then Some(added) else None;
    }

    method RemoveNode(lbl: string, engineOk: bool) returns (ok: bool)
      modifies this`voters, this`labels
      ensures View() == Remove(old(View()), id, lbl, engineOk)
      ensures ok == CanRemove(old(View()), id, lbl, engineOk)
    {
      var ids := voters - {id(lbl)};
      if ids == {} || !engineOk { return false; }
      voters := ids;
      labels := labels - {id(lbl)};
      ok := true;
    }

    method RemoveVoters(ls: seq<string>, removeOk: nat -> bool) returns (removed: seq<string>)
      modifies this`voters, this`labels
      ensures View() == RemoveAll(old(View()), id, ls, removeOk)
      ensures removed == Removed(old(View()), id, ls, removeOk)
    {
      removed := [];
      for i := 0 to |ls|
        invariant View() == RemoveAll(old(View()), id, ls[..i], removeOk)
        invariant removed == Removed(old(View()), id, ls[..i], removeOk)
      {
        assert ls[..i + 1][..i] == ls[..i];
        var ok := RemoveNode(ls[i], removeOk(i));
        if ok { removed := removed + [ls[i]]; }
      }
      assert ls[..|ls|] == ls;
    }

    method Decide(inp: Input) returns (toPromote: seq<string>, toRemove: seq<string>)
      ensures toPromote == ToPromote(View(), inp, inp.peers)
      ensures toRemove == ToRemove(View(), inp.peers)
    {
      var voterLabels := VoterLabels(View());
      toPromote := [];
      for i := 0 to |inp.peers|
        invariant toPromote == ToPromote(View(), inp, inp.peers[..i])
      {
        assert inp.peers[..i + 1][..i] == inp.peers[..i];
        var p := inp.peers[i];
        if Eligible(inp, p) && p.nodeId !in voterLabels { toPromote := toPromote + [p.nodeId]; }
      }
      toRemove := [];
      for i := 0 to |inp.peers|
        invariant toRemove == ToRemove(View(), inp.peers[..i])
      {
        assert inp.peers[..i + 1][..i] == inp.peers[..i];
        var p := inp.peers[i];
        if p.status.Dead? && p.nodeId in voterLabels { toRemove := toRemove + [p.nodeId]; }
      }
      assert inp.peers[..|inp.peers|] == inp.peers;
    }

    method SyncRound(inp: Input, promoteOk: bool, removeOk: nat -> bool)
      returns (promoted: seq<string>, removed: seq<string>)
      requires inp.id == id
      modifies this`voters, this`learners, this`labels
      ensures View() == Round(old(View()), inp, promoteOk, removeOk)
      ensures promoted == if ToPromote(old(View()), inp, inp.peers) != [] && promoteOk
                          then Newly(old(View()), id, AllLabels(old(View()), inp)) else []
      ensures removed == Removed(AfterPromotion(old(View()), inp, promoteOk), id, ToRemove(old(View()), inp.peers), removeOk)
    {
      var toPromote, toRemove := Decide(inp);
      promoted := [];
      if toPromote != [] {
        var known := LabelsInOrder(VoterLabels(View()));
        var res := PromoteWithAudit(known + toPromote, promoteOk);
        if res.Some? { promoted := res.value; }
      }
      removed := RemoveVoters(toRemove, removeOk);
    }
  }
}
