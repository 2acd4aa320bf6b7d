/** What a reconciliation round does to the voter set. */
module VoterSets {
  import opened Text
  import opened MembershipSync

  // ----- Labels against ids -----

  /** The label map only ever holds a label under that label's own id. */
  predicate Consistent(r: Raft, id: string -> nat) { forall v :: v in r.labels ==> id(r.labels[v]) == v }

  predicate InPlay(r: Raft, inp: Input, l: string) {
    (exists v :: v in r.labels && r.labels[v] == l) || (exists p :: p in inp.peers && p.nodeId == l)
  }

  /** No two labels in play share an id. */
  ghost predicate Injective(r: Raft, inp: Input) {
    forall a, b :: InPlay(r, inp, a) && InPlay(r, inp, b) && inp.id(a) == inp.id(b) ==> a == b
  }

  /** The peer table has one row per node id. */
  predicate OneRowEach(inp: Input) {
    forall p, q :: p in inp.peers && q in inp.peers && p.nodeId == q.nodeId ==> p == q
  }

  ghost predicate WellFormed(r: Raft, inp: Input) { Consistent(r, inp.id) && Injective(r, inp) }

  predicate Labelled(r: Raft, v: nat) { v in r.voters && v in r.labels }

  function LabelledVoters(r: Raft): set<nat> { set v | v in r.voters && v in r.labels }

  predicate AllLabelled(r: Raft) { forall v :: v in r.voters ==> v in r.labels }

  function DeadIds(inp: Input): set<nat> { set p | p in inp.peers && p.status.Dead? :: inp.id(p.nodeId) }

  /** Peers that are alive and have been in the cluster for the waiting time. */
  function EligibleIds(inp: Input): set<nat> {
    set p | p in inp.peers && p.status.Alive? && p.joinedAt + inp.promoteAfter <= inp.now :: inp.id(p.nodeId)
  }

  function PromoteIds(r: Raft, inp: Input): set<nat> { set v | v in EligibleIds(inp) && !Labelled(r, v) }

  function RemoveIds(r: Raft, inp: Input): set<nat> { set v | v in DeadIds(inp) && Labelled(r, v) }

  lemma {:induction false} LabelIffId(r: Raft, inp: Input, p: Peer)
    requires WellFormed(r, inp) && p in inp.peers
    ensures p.nodeId in VoterLabels(r) <==> Labelled(r, inp.id(p.nodeId))
  {
  }

  lemma {:induction false} PromoteMembers(r: Raft, inp: Input, peers: seq<Peer>, l: string)
    ensures l in ToPromote(r, inp, peers) <==>
              exists p :: p in peers && Eligible(inp, p) && p.nodeId !in VoterLabels(r) && p.nodeId == l
  {
    if peers != [] {
      var n := |peers| - 1;
      PromoteMembers(r, inp, peers[..n], l);
      assert forall p :: p in peers <==> p in peers[..n] || p == peers[n];
    }
  }

  lemma {:induction false} RemoveMembers(r: Raft, peers: seq<Peer>, l: string)
    ensures l in ToRemove(r, peers) <==>
              exists p :: p in peers && p.status.Dead? && p.nodeId in VoterLabels(r) && p.nodeId == l
  {
    if peers != [] {
      var n := |peers| - 1;
      RemoveMembers(r, peers[..n], l);
      assert forall p :: p in peers <==> p in peers[..n] || p == peers[n];
    }
  }

  lemma {:induction false} PromotedIds(r: Raft, inp: Input)
    requires WellFormed(r, inp)
    ensures Ids(inp.id, ToPromote(r, inp, inp.peers)) == PromoteIds(r, inp)
    ensures ToPromote(r, inp, inp.peers) == [] <==> PromoteIds(r, inp) == {}
  {
    var ls := ToPromote(r, inp, inp.peers);
    forall v ensures v in Ids(inp.id, ls) <==> v in PromoteIds(r, inp) {
      if v in PromoteIds(r, inp) {
        var p :| p in inp.peers && Eligible(inp, p) && inp.id(p.nodeId) == v;
        LabelIffId(r, inp, p);
        PromoteMembers(r, inp, inp.peers, p.nodeId);
      }
      if v in Ids(inp.id, ls) {
        var l :| l in ls && inp.id(l) == v;
        PromoteMembers(r, inp, inp.peers, l);
        var p :| p in inp.peers && Eligible(inp, p) && p.nodeId !in VoterLabels(r) && p.nodeId == l;
        LabelIffId(r, inp, p);
      }
    }
    if ls != [] { assert inp.id(ls[0]) in Ids(inp.id, ls); }
  }

  lemma {:induction false} RemovedIds(r: Raft, inp: Input)
    requires WellFormed(r, inp)
    ensures Ids(inp.id, ToRemove(r, inp.peers)) == RemoveIds(r, inp)
    ensures ToRemove(r, inp.peers) == [] <==> RemoveIds(r, inp) == {}
  {
    var ls := ToRemove(r, inp.peers);
    if ls != [] { assert inp.id(ls[0]) in Ids(inp.id, ls); }
    forall v ensures v in Ids(inp.id, ls) <==> v in RemoveIds(r, inp) {
      if v in RemoveIds(r, inp) {
        var p :| p in inp.peers && p.status.Dead? && inp.id(p.nodeId) == v;
        LabelIffId(r, inp, p);
        RemoveMembers(r, inp.peers, p.nodeId);
      }
      if v in Ids(inp.id, ls) {
        var l :| l in ls && inp.id(l) == v;
        RemoveMembers(r, inp.peers, l);
        var p :| p in inp.peers && p.status.Dead? && p.nodeId in VoterLabels(r) && p.nodeId == l;
        LabelIffId(r, inp, p);
      }
    }
  }

  lemma {:induction false} KnownIds(r: Raft, id: string -> nat)
    requires Consistent(r, id)
    ensures Ids(id, LabelOrder(VoterLabels(r))) == LabelledVoters(r)
  {
  }

  // ----- A round with every engine call succeeding, on ids -----

  /** The voter set right after the promotion half. */
  function MidVoters(r: Raft, inp: Input): set<nat> {
    if PromoteIds(r, inp) == {} then r.voters else {r.self} + LabelledVoters(r) + PromoteIds(r, inp)
  }

  lemma {:induction false} PromotionIs(r: Raft, inp: Input)
    requires WellFormed(r, inp)
    ensures AfterPromotion(r, inp, true) == r.(voters := MidVoters(r, inp))
  {
    PromotedIds(r, inp);
    KnownIds(r, inp.id);
    var known, new_ := LabelOrder(VoterLabels(r)), ToPromote(r, inp, inp.peers);
    assert Ids(inp.id, known + new_) == Ids(inp.id, known) + Ids(inp.id, new_);
  }

  ghost predicate Drained(r: Raft, ids: set<nat>, q: Raft) {
    && q.self == r.self
    && (r.voters - ids != {} ==> q.voters == r.voters - ids && q.labels == r.labels - ids)
    && (r.voters - ids == {} ==> exists x :: x in ids && x in r.voters && q.voters == {x} && q.labels == r.labels - (ids - {x}))
  }

  /** Removing labels one by one takes them all out, or all but one when that would empty the set. */
  lemma {:induction false} RemoveAllMeaning(r: Raft, id: string -> nat, ls: seq<string>)
    requires r.voters != {}
    ensures Drained(r, Ids(id, ls), RemoveAll(r, id, ls, _ => true))
  {
    if ls != [] {
      var n := |ls| - 1;
      var before, l := Ids(id, ls[..n]), id(ls[n]);
      RemoveAllMeaning(r, id, ls[..n]);
      var q := RemoveAll(r, id, ls[..n], _ => true);
      assert ls == ls[..n] + [ls[n]];
      assert Ids(id, ls) == before + {l};
      DrainOne(r, before, q, l);
    }
  }

  /** One more removal after `ids` have been drained. */
  lemma {:induction false} DrainOne(r: Raft, ids: set<nat>, q: Raft, l: nat)
    requires r.voters != {} && Drained(r, ids, q)
    ensures Drained(r, ids + {l}, if q.voters - {l} != {} then q.(voters := q.voters - {l}, labels := q.labels - {l}) else q)
  {
  }

  ghost function FullRound(r: Raft, inp: Input): Raft { Round(r, inp, true, _ => true) }

  lemma {:induction false} RoundIs(r: Raft, inp: Input)
    requires WellFormed(r, inp) && MidVoters(r, inp) != {}
    ensures Drained(r.(voters := MidVoters(r, inp)), RemoveIds(r, inp), FullRound(r, inp))
  {
    PromotionIs(r, inp);
    RemovedIds(r, inp);
    RemoveAllMeaning(r.(voters := MidVoters(r, inp)), inp.id, ToRemove(r, inp.peers));
  }

  // ----- Main results -----

  /** Old voters, plus every eligible peer, plus the local node when somebody is promoted. */
  function Intended(r: Raft, inp: Input): set<nat> {
    r.voters + EligibleIds(inp) + if EligibleIds(inp) <= r.voters then {} else {r.self}
  }

  /** With every voter labelled a round computes exactly the intended voter set minus the dead voters;
      if all of it is dead it stops at one voter. */
  lemma {:induction false} SyncRoundExact(r: Raft, inp: Input)
    requires WellFormed(r, inp) && AllLabelled(r) && r.voters != {}
    ensures var dead := DeadIds(inp) * r.voters;
            var q := FullRound(r, inp);
            && (Intended(r, inp) - dead != {} ==> q.voters == Intended(r, inp) - dead)
            && (Intended(r, inp) - dead == {} ==> exists x :: x in dead && q.voters == {x})
  {
    RoundIs(r, inp);
    AllLabelledSets(r, inp);
  }

  lemma {:induction false} AllLabelledSets(r: Raft, inp: Input)
    requires AllLabelled(r)
    ensures LabelledVoters(r) == r.voters
    ensures PromoteIds(r, inp) == EligibleIds(inp) - r.voters
    ensures RemoveIds(r, inp) == DeadIds(inp) * r.voters
    ensures MidVoters(r, inp) == Intended(r, inp)
  {
    assert PromoteIds(r, inp) == EligibleIds(inp) - r.voters;
    assert EligibleIds(inp) <= r.voters + PromoteIds(r, inp);
    if PromoteIds(r, inp) == {} {
      assert Intended(r, inp) == r.voters;
    } else {
      assert Intended(r, inp) == {r.self} + r.voters + PromoteIds(r, inp);
    }
  }

  lemma {:induction false} EligibleIff(inp: Input, v: nat)
    ensures v in EligibleIds(inp)
       <==> exists p :: p in inp.peers && inp.id(p.nodeId) == v && p.status == Alive && p.joinedAt + inp.promoteAfter <= inp.now
  {
    if v in EligibleIds(inp) {
      var p :| p in inp.peers && p.status.Alive? && p.joinedAt + inp.promoteAfter <= inp.now && inp.id(p.nodeId) == v;
      assert p.status == Alive;
    }
  }

  lemma {:induction false} PromotesIff(r: Raft, inp: Input)
    ensures PromoteIds(r, inp) != {}
       <==> exists p :: p in inp.peers && p.status == Alive && p.joinedAt + inp.promoteAfter <= inp.now
                        && !(inp.id(p.nodeId) in r.voters && inp.id(p.nodeId) in r.labels)
  {
    if PromoteIds(r, inp) != {} {
      var e :| e in PromoteIds(r, inp);
      EligibleIff(inp, e);
      var p :| p in inp.peers && inp.id(p.nodeId) == e && p.status == Alive && p.joinedAt + inp.promoteAfter <= inp.now;
      assert !(inp.id(p.nodeId) in r.voters && inp.id(p.nodeId) in r.labels);
    } else {
      forall p | p in inp.peers && p.status == Alive && p.joinedAt + inp.promoteAfter <= inp.now
        ensures inp.id(p.nodeId) in r.voters && inp.id(p.nodeId) in r.labels
      {
        assert inp.id(p.nodeId) in EligibleIds(inp) && inp.id(p.nodeId) !in PromoteIds(r, inp);
      }
    }
  }

  /** Who joins the voters, of the other nodes: exactly those that a row says are alive and joined at least
      `promoteAfter` ago. */
  lemma {:induction false} JoinsExactly(r: Raft, inp: Input, v: nat)
    requires WellFormed(r, inp) && v !in r.voters && v != r.self
    ensures v in FullRound(r, inp).voters
       <==> exists p :: p in inp.peers && inp.id(p.nodeId) == v && p.status == Alive && p.joinedAt + inp.promoteAfter <= inp.now
  {
    JoinedIds(r, inp);
    EligibleIff(inp, v);
    assert v in FullRound(r, inp).voters <==> v in FullRound(r, inp).voters - r.voters;
    assert v in PromoteIds(r, inp) <==> v in EligibleIds(inp);
  }

  /** The local node joins exactly when such a row is about a node that is not a labelled voter. */
  lemma {:induction false} SelfJoinsExactly(r: Raft, inp: Input)
    requires WellFormed(r, inp) && r.self !in r.voters
    ensures r.self in FullRound(r, inp).voters
       <==> exists p :: p in inp.peers && p.status == Alive && p.joinedAt + inp.promoteAfter <= inp.now
                        && !(inp.id(p.nodeId) in r.voters && inp.id(p.nodeId) in r.labels)
  {
    JoinedIds(r, inp);
    PromotesIff(r, inp);
    assert r.self in FullRound(r, inp).voters <==> r.self in FullRound(r, inp).voters - r.voters;
  }

  lemma {:induction false} JoinedIds(r: Raft, inp: Input)
    requires WellFormed(r, inp)
    ensures FullRound(r, inp).voters - r.voters
         == if PromoteIds(r, inp) == {} then {} else (PromoteIds(r, inp) + {r.self}) - r.voters
  {
    var m, gone, q := MidVoters(r, inp), RemoveIds(r, inp), FullRound(r, inp);
    if m == {} {
      NoVoters(r, inp);
    } else {
      RoundIs(r, inp);
      assert gone <= r.voters;
      if m - gone != {} { assert q.voters - r.voters == m - r.voters; }
    }
  }

  /** Without that assumption: a voter nobody reports dead is dropped exactly when someone is promoted and the
      voter is not local, has no label here, and is not itself among the promoted. */
  lemma {:induction false} VoterDroppedExactly(r: Raft, inp: Input, v: nat)
    requires WellFormed(r, inp) && v in r.voters && v !in DeadIds(inp)
    ensures v !in FullRound(r, inp).voters
            <==> PromoteIds(r, inp) != {} && v != r.self && v !in r.labels && v !in PromoteIds(r, inp)
  {
    RoundIs(r, inp);
    var m, gone, q := MidVoters(r, inp), RemoveIds(r, inp), FullRound(r, inp);
    if PromoteIds(r, inp) == {} {
      assert v in m - gone;
    } else {
      var e :| e in PromoteIds(r, inp);
      assert e in m - gone;
    }
    assert v in q.voters <==> v in m;
  }

  /** The local node under its own label, and one other peer: no two ids clash, whatever the hash. */
  lemma {:induction false} LocalAndPeer(hash: string -> nat, voters: set<nat>, inp: Input, p: Peer)
    requires p.nodeId != "local" && p in inp.peers && forall q :: q in inp.peers ==> q.nodeId in {"local", p.nodeId}
    requires inp.id == (l => NodeIdFromString(hash, l))
    ensures WellFormed(Raft(1, voters, map[1 := "local"]), inp)
    ensures inp.id("local") == 1 && inp.id(p.nodeId) >= 2
  {
    var r := Raft(1, voters, map[1 := "local"]);
    forall l | InPlay(r, inp, l) ensures l in {"local", p.nodeId} {
    }
  }

  /** A concrete case, for any hash: the local node and v vote, v has no label here, and a peer is promoted. Then
      v no longer votes although nobody reported it dead. */
  lemma {:induction false} VoterDroppedCounterexample(hash: string -> nat, lbl: string, v: nat)
    requires lbl != "local" && v != 1 && v != NodeIdFromString(hash, lbl)
    ensures
      var r := Raft(1, {1, v}, map[1 := "local"]);
      var inp := Input(l => NodeIdFromString(hash, l), [Peer(lbl, Alive, 0)], 10, 5);
      WellFormed(r, inp) && v in r.voters && v !in DeadIds(inp) && v !in FullRound(r, inp).voters
  {
    var r := Raft(1, {1, v}, map[1 := "local"]);
    var p := Peer(lbl, Alive, 0);
    var inp := Input(l => NodeIdFromString(hash, l), [p], 10, 5);
    assert p in inp.peers;
    LocalAndPeer(hash, {1, v}, inp, p);
    assert inp.id(lbl) in EligibleIds(inp) && inp.id(lbl) in PromoteIds(r, inp);
    VoterDroppedExactly(r, inp, v);
  }

  /** The labels reported as promoted are those of the candidates, in order. */
  lemma {:induction false} PromotedLabels(r: Raft, inp: Input)
    requires WellFormed(r, inp) && AllLabelled(r)
    ensures Newly(r, inp.id, AllLabels(r, inp)) == ToPromote(r, inp, inp.peers)
  {
    var known, cand := LabelOrder(VoterLabels(r)), ToPromote(r, inp, inp.peers);
    NewlyConcat(r, inp.id, known, cand);
    KnownIds(r, inp.id);
    forall l | l in known ensures inp.id(l) in r.voters { assert inp.id(l) in Ids(inp.id, known); }
    NewlyNone(r, inp.id, known);
    PromotedIds(r, inp);
    AllLabelledSets(r, inp);
    forall l | l in cand ensures inp.id(l) !in r.voters { assert inp.id(l) in Ids(inp.id, cand); }
    NewlyAll(r, inp.id, cand);
  }

  lemma {:induction false} NewlyConcat(r: Raft, id: string -> nat, a: seq<string>, b: seq<string>)
    ensures Newly(r, id, a + b) == Newly(r, id, a) + Newly(r, id, b)
  {
    if b == [] {
      assert a + b == a;
    } else {
      assert (a + b)[..|a + b| - 1] == a + b[..|b| - 1];
      NewlyConcat(r, id, a, b[..|b| - 1]);
    }
  }

  lemma {:induction false} NewlyNone(r: Raft, id: string -> nat, ls: seq<string>)
    requires forall i :: 0 <= i < |ls| ==> id(ls[i]) in r.voters
    ensures Newly(r, id, ls) == []
  {
    if ls != [] { NewlyNone(r, id, ls[..|ls| - 1]); }
  }

  lemma {:induction false} NewlyAll(r: Raft, id: string -> nat, ls: seq<string>)
    requires forall i :: 0 <= i < |ls| ==> id(ls[i]) !in r.voters
    ensures Newly(r, id, ls) == ls
  {
    if ls != [] {
      var n := |ls| - 1;
      NewlyAll(r, id, ls[..n]);
      assert id(ls[n]) !in r.voters;
      assert ls == ls[..n] + [ls[n]];
    }
  }

  // ----- Safety under arbitrary engine failures -----

  lemma {:induction false} RemoveAllSafe(r: Raft, id: string -> nat, ls: seq<string>, ok: nat -> bool)
    requires r.voters != {}
    ensures RemoveAll(r, id, ls, ok).voters != {}
    ensures RemoveAll(r, id, ls, ok).voters <= r.voters
    ensures r.voters - Ids(id, ls) <= RemoveAll(r, id, ls, ok).voters
  {
    if ls != [] {
      var n := |ls| - 1;
      RemoveAllSafe(r, id, ls[..n], ok);
      assert ls == ls[..n] + [ls[n]];
      assert Ids(id, ls) == Ids(id, ls[..n]) + {id(ls[n])};
    }
  }

  /** Whatever engine calls fail, the set never empties, never gains a stranger, and never loses a labelled
      voter that is not reported dead. */
  lemma {:induction false} SyncRoundSafe(r: Raft, inp: Input, promoteOk: bool, removeOk: nat -> bool)
    requires WellFormed(r, inp) && r.voters != {}
    ensures var q := Round(r, inp, promoteOk, removeOk);
            && q.voters != {}
            && q.voters <= r.voters + EligibleIds(inp) + {r.self}
            && LabelledVoters(r) - DeadIds(inp) <= q.voters
  {
    PromotionIs(r, inp);
    RemovedIds(r, inp);
    var m := AfterPromotion(r, inp, promoteOk);
    assert m == r || m == r.(voters := MidVoters(r, inp));
    RemoveAllSafe(m, inp.id, ToRemove(r, inp.peers), removeOk);
  }

  // ----- Runs of rounds and new learners, with any engine failures -----

  datatype Change =
    | Learn(lbl: string)
    | Sync(peers: seq<Peer>, now: int, promoteAfter: int, promoteOk: bool, removeOk: nat -> bool)

  ghost function Changed(r: Raft, id: string -> nat, c: Change): Raft {
    match c
    case Learn(l) => r.(labels := r.labels[id(l) := l])
    case Sync(peers, now, after, pOk, rOk) => Round(r, Input(id, peers, now, after), pOk, rOk)
  }

  ghost function AfterChanges(r: Raft, id: string -> nat, cs: seq<Change>): Raft {
    if cs == [] then r else Changed(AfterChanges(r, id, cs[..|cs| - 1]), id, cs[|cs| - 1])
  }

  lemma {:induction false} RemoveAllKeepsLabels(r: Raft, id: string -> nat, ls: seq<string>, ok: nat -> bool)
    requires Consistent(r, id)
    ensures Consistent(RemoveAll(r, id, ls, ok), id) && RemoveAll(r, id, ls, ok).self == r.self
  {
    if ls != [] { RemoveAllKeepsLabels(r, id, ls[..|ls| - 1], ok); }
  }

  /** In every run the label map stays true to the ids, and a cluster that has a voter keeps one. */
  lemma {:induction false} RunKeepsVoters(r: Raft, id: string -> nat, cs: seq<Change>)
    requires Consistent(r, id) && r.voters != {}
    ensures var q := AfterChanges(r, id, cs); Consistent(q, id) && q.voters != {} && q.self == r.self
  {
    if cs != [] {
      var n := |cs| - 1;
      RunKeepsVoters(r, id, cs[..n]);
      var q := AfterChanges(r, id, cs[..n]);
      if cs[n].Sync? {
        var inp := Input(id, cs[n].peers, cs[n].now, cs[n].promoteAfter);
        var m := AfterPromotion(q, inp, cs[n].promoteOk);
        assert m.voters == q.voters || q.self in m.voters;
        RemoveAllSafe(m, id, ToRemove(q, inp.peers), cs[n].removeOk);
        RemoveAllKeepsLabels(m, id, ToRemove(q, inp.peers), cs[n].removeOk);
      }
    }
  }

  // ----- Repeating a round -----

  /** The only inputs on which a second identical round changes the voters: somebody is promoted while the
      local node is reported dead under a known label, and it either does not vote, or votes while no label is
      known for some promoted peer. */
  predicate Unsettled(r: Raft, inp: Input) {
    && PromoteIds(r, inp) != {}
    && r.self in DeadIds(inp) && r.self in r.labels
    && (r.self in r.voters ==> PromoteIds(r, inp) - r.labels.Keys != {})
  }

  lemma {:induction false} DeadNotEligible(r: Raft, inp: Input, v: nat)
    requires Injective(r, inp) && OneRowEach(inp)
    ensures !(v in EligibleIds(inp) && v in DeadIds(inp))
  {
  }

  lemma {:induction false} StillWellFormed(r: Raft, inp: Input, q: Raft, ids: set<nat>)
    requires WellFormed(r, inp) && q.labels == r.labels - ids
    ensures WellFormed(q, inp)
  {
  }

  /** What the second round starts from, when the first did not stop at a last voter. */
  predicate AfterFirst(r: Raft, inp: Input, q: Raft) {
    && q.self == r.self
    && q.voters == MidVoters(r, inp) - RemoveIds(r, inp)
    && q.labels == r.labels - RemoveIds(r, inp)
  }

  lemma {:induction false} SecondPromotes(r: Raft, inp: Input, q: Raft)
    requires WellFormed(r, inp) && OneRowEach(inp) && AfterFirst(r, inp, q)
    ensures PromoteIds(q, inp) == PromoteIds(r, inp) - r.labels.Keys
  {
    forall v ensures v in PromoteIds(q, inp) <==> v in PromoteIds(r, inp) - r.labels.Keys {
      DeadNotEligible(r, inp, v);
      if v in EligibleIds(inp) {
        assert if Labelled(r, v) then v in LabelledVoters(r) else v in PromoteIds(r, inp);
        assert v in MidVoters(r, inp) && v !in RemoveIds(r, inp);
      }
    }
  }

  lemma {:induction false} SecondRemoves(r: Raft, inp: Input, q: Raft)
    requires WellFormed(r, inp) && OneRowEach(inp) && AfterFirst(r, inp, q)
    ensures
      var again := PromoteIds(r, inp) != {} && r.self in DeadIds(inp) && r.self in r.labels && r.self !in r.voters;
      RemoveIds(q, inp) == if again then {r.self} else {}
  {
    forall v | v in RemoveIds(q, inp)
      ensures v == r.self && PromoteIds(r, inp) != {} && v !in r.voters && v in r.labels && v in DeadIds(inp)
    {
      DeadNotEligible(r, inp, v);
    }
  }

  lemma {:induction false} SecondMid(r: Raft, inp: Input, q: Raft)
    requires WellFormed(r, inp) && OneRowEach(inp) && AfterFirst(r, inp, q)
    ensures MidVoters(q, inp) == if PromoteIds(q, inp) == {} then q.voters else q.voters + {r.self}
  {
    if PromoteIds(q, inp) != {} {
      SecondPromotes(r, inp, q);
      forall v | v in q.voters ensures v in MidVoters(q, inp) {
        if v in r.voters && v in r.labels { assert v in LabelledVoters(q); }
      }
    }
  }

  lemma {:induction false} SecondOnlyPromotes(r: Raft, inp: Input, q: Raft)
    requires WellFormed(q, inp) && q.voters != {} && RemoveIds(q, inp) == {}
    requires MidVoters(q, inp) == if PromoteIds(q, inp) == {} then q.voters else q.voters + {r.self}
    ensures FullRound(q, inp).voters == q.voters <==> PromoteIds(q, inp) == {} || r.self in q.voters
  {
    RoundIs(q, inp);
    assert MidVoters(q, inp) - {} == MidVoters(q, inp);
    assert r.self in q.voters <==> q.voters + {r.self} == q.voters;
  }

  lemma {:induction false} SecondRemovesSelf(r: Raft, inp: Input, q: Raft)
    requires WellFormed(q, inp) && q.voters <= MidVoters(q, inp) && RemoveIds(q, inp) == {r.self}
    requires r.self in q.voters && q.voters != {r.self}
    ensures FullRound(q, inp).voters != q.voters
  {
    RoundIs(q, inp);
    var e :| e in q.voters && e != r.self;
    assert e in MidVoters(q, inp) - {r.self};
  }

  lemma {:induction false} SecondRoundSettles(r: Raft, inp: Input, q: Raft)
    requires WellFormed(r, inp) && OneRowEach(inp) && AfterFirst(r, inp, q)
    requires q.voters != {} && WellFormed(q, inp)
    ensures FullRound(q, inp).voters == q.voters <==> !Unsettled(r, inp)
  {
    SecondPromotes(r, inp, q);
    SecondRemoves(r, inp, q);
    SecondMid(r, inp, q);
    if RemoveIds(q, inp) == {} {
      SecondOnlyPromotes(r, inp, q);
      assert PromoteIds(r, inp) != {} ==> (r.self in q.voters <==> r.self !in RemoveIds(r, inp));
    } else {
      var e :| e in PromoteIds(r, inp);
      DeadNotEligible(r, inp, e);
      assert e in q.voters && e != r.self;
      SecondRemovesSelf(r, inp, q);
    }
  }

  /** A round can only run out of voters when all of them are labelled and dead and nobody is eligible. */
  lemma {:induction false} AllDead(r: Raft, inp: Input)
    requires WellFormed(r, inp) && OneRowEach(inp) && MidVoters(r, inp) - RemoveIds(r, inp) == {}
    ensures PromoteIds(r, inp) == {} && EligibleIds(inp) == {} && RemoveIds(r, inp) == r.voters
  {
    forall v ensures !(v in EligibleIds(inp) && v in DeadIds(inp)) { DeadNotEligible(r, inp, v); }
    forall e ensures e !in PromoteIds(r, inp) {
      assert e in PromoteIds(r, inp) ==> e in MidVoters(r, inp) - RemoveIds(r, inp);
    }
    forall v ensures v !in EligibleIds(inp) && (v in r.voters ==> v in RemoveIds(r, inp)) {
      assert v !in MidVoters(r, inp) - RemoveIds(r, inp);
      assert v in EligibleIds(inp) ==> Labelled(r, v);
    }
  }

  lemma {:induction false} SecondRoundAtLastVoter(r: Raft, inp: Input)
    requires WellFormed(r, inp) && OneRowEach(inp) && r.voters != {}
    requires MidVoters(r, inp) - RemoveIds(r, inp) == {}
    ensures FullRound(FullRound(r, inp), inp).voters == FullRound(r, inp).voters && !Unsettled(r, inp)
  {
    AllDead(r, inp);
    RoundIs(r, inp);
    var gone, q := RemoveIds(r, inp), FullRound(r, inp);
    var x :| x in gone && x in r.voters && q.voters == {x} && q.labels == r.labels - (gone - {x});
    assert PromoteIds(q, inp) == {} && RemoveIds(q, inp) == {x};
    StillWellFormed(r, inp, q, gone - {x});
    RoundIs(q, inp);
    assert MidVoters(q, inp) - RemoveIds(q, inp) == {};
  }

  lemma {:induction false} NoVoters(r: Raft, inp: Input)
    requires WellFormed(r, inp) && MidVoters(r, inp) == {}
    ensures FullRound(r, inp) == r
  {
    PromotionIs(r, inp);
    RemovedIds(r, inp);
    assert RemoveIds(r, inp) == {};
  }

  /** An immediate second round with the same input leaves the voters unchanged exactly outside that case,
      whether or not every voter is labelled. */
  lemma {:induction false} SecondRoundExact(r: Raft, inp: Input)
    requires WellFormed(r, inp) && OneRowEach(inp)
    ensures FullRound(FullRound(r, inp), inp).voters == FullRound(r, inp).voters <==> !Unsettled(r, inp)
  {
    var m, gone, q := MidVoters(r, inp), RemoveIds(r, inp), FullRound(r, inp);
    if m == {} {
      NoVoters(r, inp);
    } else if m - gone == {} {
      AllDead(r, inp);
      SecondRoundAtLastVoter(r, inp);
    } else {
      RoundIs(r, inp);
      StillWellFormed(r, inp, q, gone);
      SecondRoundSettles(r, inp, q);
    }
  }

  /** A concrete case, for any hash: the local node alone votes and is reported dead while a peer without a label
      here becomes eligible. The first round votes it out, the second votes it back in. */
  lemma {:induction false} SecondRoundCounterexample(hash: string -> nat, lbl: string)
    requires lbl != "local"
    ensures
      var r := Raft(1, {1}, map[1 := "local"]);
      var inp := Input(l => NodeIdFromString(hash, l), [Peer("local", Dead, 0), Peer(lbl, Alive, 0)], 10, 5);
      && WellFormed(r, inp) && OneRowEach(inp) && AllLabelled(r)
      && FullRound(FullRound(r, inp), inp).voters != FullRound(r, inp).voters
  {
    var r := Raft(1, {1}, map[1 := "local"]);
    var a, b := Peer("local", Dead, 0), Peer(lbl, Alive, 0);
    var inp := Input(l => NodeIdFromString(hash, l), [a, b], 10, 5);
    assert inp.peers[0] == a && inp.peers[1] == b;
    LocalAndPeer(hash, {1}, inp, b);
    assert inp.id(b.nodeId) in EligibleIds(inp) && inp.id(b.nodeId) in PromoteIds(r, inp);
    assert inp.id(b.nodeId) in PromoteIds(r, inp) - r.labels.Keys;
    assert inp.id(a.nodeId) in DeadIds(inp);
    SecondRoundExact(r, inp);
  }

  // ----- What the calls report -----

  /** `sub` picks out of `ls`, in order, exactly the positions where `keep` holds. */
  ghost predicate Picks(sub: seq<string>, ls: seq<string>, keep: nat -> bool) {
    exists ks: seq<nat> :: PicksAt(sub, ls, keep, ks)
  }

  predicate PicksAt(sub: seq<string>, ls: seq<string>, keep: nat -> bool, ks: seq<nat>) {
    && |sub| == |ks|
    && (forall i, j :: 0 <= i < j < |ks| ==> ks[i] < ks[j])
    && (forall j :: 0 <= j < |ks| ==> ks[j] < |ls| && keep(ks[j]) && ls[ks[j]] == sub[j])
    && (forall i :: 0 <= i < |ls| && keep(i) ==> i in ks)
  }

  lemma {:induction false} PicksStep(sub: seq<string>, ls: seq<string>, keep: nat -> bool, ks: seq<nat>)
    requires ls != [] && PicksAt(sub, ls[..|ls| - 1], keep, ks)
    ensures
      var n := |ls| - 1;
      if keep(n) then PicksAt(sub + [ls[n]], ls, keep, ks + [n]) else PicksAt(sub, ls, keep, ks)
  {
    var n := |ls| - 1;
    if keep(n) {
      forall i | 0 <= i < |ls| && keep(i) ensures i in ks + [n] {
        if i < n { assert i in ks; } else { assert (ks + [n])[|ks|] == i; }
      }
    }
  }

  lemma {:induction false} PicksMore(sub: seq<string>, ls: seq<string>, keep: nat -> bool)
    requires ls != [] && Picks(sub, ls[..|ls| - 1], keep)
    ensures Picks(if keep(|ls| - 1) then sub + [ls[|ls| - 1]] else sub, ls, keep)
  {
    var ks :| PicksAt(sub, ls[..|ls| - 1], keep, ks);
    PicksStep(sub, ls, keep, ks);
  }

  lemma {:induction false} PicksKeep(sub: seq<string>, ls: seq<string>, keep: nat -> bool, keep2: nat -> bool)
    requires Picks(sub, ls, keep) && forall i: nat :: i < |ls| ==> keep(i) == keep2(i)
    ensures Picks(sub, ls, keep2)
  {
    var ks :| PicksAt(sub, ls, keep, ks);
    assert PicksAt(sub, ls, keep2, ks);
  }

  /** A promotion reports, in order, exactly the labels whose ids were no voters before. */
  lemma {:induction false} NewlyMeaning(r: Raft, id: string -> nat, ls: seq<string>)
    ensures Picks(Newly(r, id, ls), ls, (i: nat) => i < |ls| && id(ls[i]) !in r.voters)
  {
    var keep := (i: nat) => i < |ls| && id(ls[i]) !in r.voters;
    if ls == [] {
      assert PicksAt([], ls, keep, []);
    } else {
      var n := |ls| - 1;
      var h := ls[..n];
      NewlyMeaning(r, id, h);
      PicksKeep(Newly(r, id, h), h, (i: nat) => i < |h| && id(h[i]) !in r.voters, keep);
      PicksMore(Newly(r, id, h), ls, keep);
      assert Newly(r, id, h) + [] == Newly(r, id, h);
    }
  }

  /** Removing one label after another: the i-th removal starts from what the earlier ones left. */
  predicate Accepts(r: Raft, id: string -> nat, ls: seq<string>, ok: nat -> bool, i: nat) {
    i < |ls| && ok(i) && RemoveAll(r, id, ls[..i], ok).voters - {id(ls[i])} != {}
  }

  /** The labels reported as removed are, in order, exactly those whose removal the engine accepted and that left
      a voter. */
  lemma {:induction false} RemovedMeaning(r: Raft, id: string -> nat, ls: seq<string>, ok: nat -> bool)
    ensures Picks(Removed(r, id, ls, ok), ls, (i: nat) => Accepts(r, id, ls, ok, i))
  {
    var keep := (i: nat) => Accepts(r, id, ls, ok, i);
    if ls == [] {
      assert PicksAt([], ls, keep, []);
    } else {
      var n := |ls| - 1;
      var h := ls[..n];
      RemovedMeaning(r, id, h, ok);
      forall i: nat | i < n ensures Accepts(r, id, h, ok, i) == keep(i) { assert h[..i] == ls[..i]; }
      PicksKeep(Removed(r, id, h, ok), h, (i: nat) => Accepts(r, id, h, ok, i), keep);
      PicksMore(Removed(r, id, h, ok), ls, keep);
      assert Removed(r, id, h, ok) + [] == Removed(r, id, h, ok);
    }
  }

  /** With any engine answers, exactly the ids of the accepted removals leave the voters and the labels. */
  lemma {:induction false} RemoveAllExactly(r: Raft, id: string -> nat, ls: seq<string>, ok: nat -> bool, v: nat)
    ensures v in RemoveAll(r, id, ls, ok).voters
       <==> v in r.voters && forall i: nat :: Accepts(r, id, ls, ok, i) ==> id(ls[i]) != v
    ensures v in RemoveAll(r, id, ls, ok).labels
       <==> v in r.labels && forall i: nat :: Accepts(r, id, ls, ok, i) ==> id(ls[i]) != v
  {
    if ls != [] {
      var n := |ls| - 1;
      var h := ls[..n];
      RemoveAllExactly(r, id, h, ok, v);
      forall i: nat | i < n ensures Accepts(r, id, h, ok, i) == Accepts(r, id, ls, ok, i) { assert h[..i] == ls[..i]; }
      assert Accepts(r, id, ls, ok, n) <==> CanRemove(RemoveAll(r, id, h, ok), id, ls[n], ok(n));
    }
  }
}
