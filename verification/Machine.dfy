/** The replicated state machine that `MemStore::apply_to_state_machine` runs, as values:
    what one committed entry does, what a batch answers, and what the state means. */
module Machine {
  import opened Text
  import opened Ordering

  /** `leader` is the display form of the openraft leader id. */
  datatype LogId = LogId(leader: string, index: nat)

  datatype Summary = Summary(id: string, names: seq<string>, image: string, state: string, status: string,
                             created: int, command: Option<string>, ports: seq<string>, labels: map<string, string>)

  datatype Revocation = Revocation(publisher: string, fingerprint: string, reason: Option<string>, revokedAt: int)

  datatype AppData =
    | ProposeContainer(nodeId: string, container: Summary)
    | RemoveContainer(node: string, containerId: string)
    | RevokePluginKey(revocation: Revocation)
    | Noop

  /** A membership is a sequence of voter sets (more than one while a change is under way) and its learners. */
  datatype Membership = Membership(configs: seq<set<nat>>, learners: set<nat>)
  datatype StoredMembership = StoredMembership(logId: Option<LogId>, membership: Membership)

  datatype Payload = Blank | Normal(data: AppData) | Reconfigure(membership: Membership)
  datatype Entry = Entry(logId: LogId, payload: Payload)

  type Key = (string, string)

  datatype State = State(lastApplied: Option<LogId>, membership: StoredMembership, containers: map<Key, Summary>)

  datatype AppResponse = AppResponse(ok: bool, lastAppliedIndex: nat, containerCount: nat)

  const Initial := State(None, StoredMembership(None, Membership([], {})), map[])

  function ApplyData(containers: map<Key, Summary>, data: AppData): map<Key, Summary> {
    match data
    case ProposeContainer(n, c) => containers[(n, c.id) := c]
    case RemoveContainer(n, cid) => containers - {(n, cid)}
    case RevokePluginKey(_) => containers
    case Noop => containers
  }

  function ApplyOne(s: State, e: Entry): State {
    match e.payload
    case Blank => s.(lastApplied := Some(e.logId))
    case Normal(data) => s.(lastApplied := Some(e.logId), containers := ApplyData(s.containers, data))
    case Reconfigure(m) => s.(lastApplied := Some(e.logId), membership := StoredMembership(Some(e.logId), m))
  }

  function ApplyAll(s: State, es: seq<Entry>): State {
    if es == [] then s else ApplyOne(ApplyAll(s, es[..|es| - 1]), es[|es| - 1])
  }

  function Responses(s: State, es: seq<Entry>): seq<AppResponse> {
    if es == [] then []
    else Responses(s, es[..|es| - 1]) +
         [AppResponse(true, es[|es| - 1].logId.index, |ApplyAll(s, es).containers|)]
  }

  function Revocations(es: seq<Entry>): seq<Revocation> {
    if es == [] then []
    else
      var e := es[|es| - 1];
      Revocations(es[..|es| - 1]) +
      if e.payload.Normal? && e.payload.data.RevokePluginKey? then [e.payload.data.revocation] else []
  }

  // ----- Batching -----

  datatype Outcome = Outcome(state: State, responses: seq<AppResponse>, revocations: seq<Revocation>)

  /** One `apply_to_state_machine` call per batch; each call fires its revocations when it ends. */
  function RunBatches(s: State, batches: seq<seq<Entry>>): Outcome {
    if batches == [] then Outcome(s, [], [])
    else
      var n := |batches| - 1;
      var before := RunBatches(s, batches[..n]);
      Outcome(ApplyAll(before.state, batches[n]),
              before.responses + Responses(before.state, batches[n]),
              before.revocations + Revocations(batches[n]))
  }

  function Flatten(batches: seq<seq<Entry>>): seq<Entry> {
    if batches == [] then [] else Flatten(batches[..|batches| - 1]) + batches[|batches| - 1]
  }

  lemma {:induction false} ApplyAllConcat(s: State, a: seq<Entry>, b: seq<Entry>)
    ensures ApplyAll(s, a + b) == ApplyAll(ApplyAll(s, a), b)
    ensures Responses(s, a + b) == Responses(s, a) + Responses(ApplyAll(s, a), b)
    ensures Revocations(a + b) == Revocations(a) + Revocations(b)
  {
    if b == [] {
      assert a + b == a;
    } else {
      var n := |b| - 1;
      assert (a + b)[..|a + b| - 1] == a + b[..n];
      ApplyAllConcat(s, a, b[..n]);
    }
  }

  /** However the entries are cut into batches, state, answers and revocations are those of the whole. */
  lemma {:induction false} BatchingInvisible(s: State, batches: seq<seq<Entry>>)
    ensures RunBatches(s, batches)
         == Outcome(ApplyAll(s, Flatten(batches)), Responses(s, Flatten(batches)), Revocations(Flatten(batches)))
  {
    if batches != [] {
      var n := |batches| - 1;
      BatchingInvisible(s, batches[..n]);
      ApplyAllConcat(s, Flatten(batches[..n]), batches[n]);
    }
  }

  function Singles(es: seq<Entry>): seq<seq<Entry>> {
    if es == [] then [] else Singles(es[..|es| - 1]) + [[es[|es| - 1]]]
  }

  lemma {:induction false} FlattenSingles(es: seq<Entry>)
    ensures Flatten(Singles(es)) == es
  {
    if es != [] {
      var n := |es| - 1;
      FlattenSingles(es[..n]);
      var s := Singles(es);
      assert s[..|s| - 1] == Singles(es[..n]);
    }
  }

  /** Any split into batches is indistinguishable from applying the entries one at a time. */
  lemma {:induction false} SplitEqualsOneAtATime(s: State, batches: seq<seq<Entry>>)
    ensures RunBatches(s, batches) == RunBatches(s, Singles(Flatten(batches)))
  {
    BatchingInvisible(s, batches);
    FlattenSingles(Flatten(batches));
    BatchingInvisible(s, Singles(Flatten(batches)));
  }

  // ----- What the replayed state means -----

  predicate Touches(e: Entry, k: Key) {
    && e.payload.Normal?
    && match e.payload.data
       case ProposeContainer(n, c) => (n, c.id) == k
       case RemoveContainer(n, cid) => (n, cid) == k
       case _ => false
  }

  lemma {:induction false} Untouched(s: State, es: seq<Entry>, k: Key)
    requires forall j :: 0 <= j < |es| ==> !Touches(es[j], k)
    ensures k in ApplyAll(s, es).containers <==> k in s.containers
    ensures k in s.containers ==> ApplyAll(s, es).containers[k] == s.containers[k]
  {
    if es != [] {
      Untouched(s, es[..|es| - 1], k);
      assert !Touches(es[|es| - 1], k);
    }
  }

  /** A container is in the view exactly when the last entry about its key proposed it, and then with that summary. */
  lemma {:induction false} ReplayMeaning(s: State, es: seq<Entry>, k: Key, i: nat)
    requires i < |es| && Touches(es[i], k)
    requires forall j :: i < j < |es| ==> !Touches(es[j], k)
    ensures k in ApplyAll(s, es).containers <==> es[i].payload.data.ProposeContainer?
    ensures k in ApplyAll(s, es).containers ==> ApplyAll(s, es).containers[k] == es[i].payload.data.container
  {
    var head, tail := es[..i + 1], es[i + 1..];
    assert es == head + tail;
    ApplyAllConcat(s, head, tail);
    assert head[..i] == es[..i] && head[i] == es[i];
    forall j | 0 <= j < |tail| ensures !Touches(tail[j], k) { assert tail[j] == es[i + 1 + j]; }
    Untouched(ApplyAll(s, head), tail, k);
  }

  lemma {:induction false} NoReconfiguration(s: State, es: seq<Entry>)
    requires forall j :: 0 <= j < |es| ==> !es[j].payload.Reconfigure?
    ensures ApplyAll(s, es).membership == s.membership
  {
    if es != [] {
      NoReconfiguration(s, es[..|es| - 1]);
      assert !es[|es| - 1].payload.Reconfigure?;
    }
  }

  /** The membership in force is that of the last reconfiguration entry, stamped with its log id. */
  lemma {:induction false} MembershipMeaning(s: State, es: seq<Entry>, i: nat)
    requires i < |es| && es[i].payload.Reconfigure?
    requires forall j :: i < j < |es| ==> !es[j].payload.Reconfigure?
    ensures ApplyAll(s, es).membership == StoredMembership(Some(es[i].logId), es[i].payload.membership)
  {
    var head, tail := es[..i + 1], es[i + 1..];
    assert es == head + tail;
    ApplyAllConcat(s, head, tail);
    assert head[i] == es[i];
    forall j | 0 <= j < |tail| ensures !tail[j].payload.Reconfigure? { assert tail[j] == es[i + 1 + j]; }
    NoReconfiguration(ApplyAll(s, head), tail);
  }

  /** The answer to the i-th entry carries its index and the number of live containers right after it. */
  lemma {:induction false} ResponsesMeaning(s: State, es: seq<Entry>)
    ensures |Responses(s, es)| == |es|
    ensures forall i :: 0 <= i < |es| ==>
              Responses(s, es)[i] == AppResponse(true, es[i].logId.index, |ApplyAll(s, es[..i + 1]).containers|)
  {
    if es != [] {
      var n := |es| - 1;
      ResponsesMeaning(s, es[..n]);
      forall i | 0 <= i < |es|
        ensures Responses(s, es)[i] == AppResponse(true, es[i].logId.index, |ApplyAll(s, es[..i + 1]).containers|)
      {
        if i < n {
          assert es[..n][..i + 1] == es[..i + 1];
        } else {
          assert es[..i + 1] == es;
        }
      }
    }
  }

  /** Every key's second half is the id of the summary stored under it. */
  predicate KeysMatch(containers: map<Key, Summary>) {
    forall k :: k in containers ==> containers[k].id == k.1
  }

  lemma {:induction false} ApplyKeepsKeysMatch(s: State, es: seq<Entry>)
    requires KeysMatch(s.containers)
    ensures KeysMatch(ApplyAll(s, es).containers)
  {
    if es != [] { ApplyKeepsKeysMatch(s, es[..|es| - 1]); }
  }

  /** The last applied id is that of the last entry. */
  lemma {:induction false} LastAppliedMeaning(s: State, es: seq<Entry>)
    requires es != []
    ensures ApplyAll(s, es).lastApplied == Some(es[|es| - 1].logId)
  {
  }

  // ----- Which revocations entries call for -----

  /** `ks` are exactly the positions of the revocation entries, in order, and `fired` what those entries say. */
  predicate FiresAt(es: seq<Entry>, fired: seq<Revocation>, ks: seq<nat>) {
    && |fired| == |ks|
    && (forall i, j :: 0 <= i < j < |ks| ==> ks[i] < ks[j])
    && (forall j :: 0 <= j < |ks| ==> ks[j] < |es| && es[ks[j]].payload == Normal(RevokePluginKey(fired[j])))
    && (forall i :: 0 <= i < |es| && es[i].payload.Normal? && es[i].payload.data.RevokePluginKey? ==> i in ks)
  }

  ghost predicate FiresInOrder(es: seq<Entry>, fired: seq<Revocation>) { exists ks :: FiresAt(es, fired, ks) }

  lemma {:induction false} FiresStep(es: seq<Entry>, fired: seq<Revocation>, ks: seq<nat>)
    requires es != [] && FiresAt(es[..|es| - 1], fired, ks)
    ensures
      var n := |es| - 1;
      if es[n].payload.Normal? && es[n].payload.data.RevokePluginKey?
      then FiresAt(es, fired + [es[n].payload.data.revocation], ks + [n])
      else FiresAt(es, fired, ks)
  {
    var n := |es| - 1;
    assert forall i :: 0 <= i < n ==> es[..n][i] == es[i];
    if es[n].payload.Normal? && es[n].payload.data.RevokePluginKey? {
      forall i | 0 <= i < |es| && es[i].payload.Normal? && es[i].payload.data.RevokePluginKey? ensures i in ks + [n] {
        if i < n { assert i in ks; } else { assert (ks + [n])[|ks|] == i; }
      }
    }
  }

  lemma {:induction false} RevocationsFire(es: seq<Entry>)
    ensures FiresInOrder(es, Revocations(es))
  {
    if es == [] {
      assert FiresAt(es, [], []);
    } else {
      var h := es[..|es| - 1];
      RevocationsFire(h);
      var ks :| FiresAt(h, Revocations(h), ks);
      FiresStep(es, Revocations(h), ks);
      assert Revocations(h) + [] == Revocations(h);
    }
  }

  /** There is only one sequence of revocations that entries call for. */
  lemma {:induction false} FiresUnique(es: seq<Entry>, f: seq<Revocation>, ks: seq<nat>, g: seq<Revocation>, ls: seq<nat>)
    requires FiresAt(es, f, ks) && FiresAt(es, g, ls)
    ensures f == g
  {
    SamePositions(es, f, ks, g, ls);
  }

  lemma {:induction false} SamePositions(es: seq<Entry>, f: seq<Revocation>, ks: seq<nat>, g: seq<Revocation>, ls: seq<nat>)
    requires FiresAt(es, f, ks) && FiresAt(es, g, ls)
    ensures ks == ls
  {
    NatOrder();
    assert StrictlySorted(NatLess, ks) && StrictlySorted(NatLess, ls);
    forall k: nat ensures k in ks <==> k in ls {
      if k in ks { var j :| 0 <= j < |ks| && ks[j] == k; }
      if k in ls { var j :| 0 <= j < |ls| && ls[j] == k; }
    }
    ListingUnique(NatLess, ks, ls);
  }

  lemma {:induction false} FiresIs(es: seq<Entry>, fired: seq<Revocation>)
    ensures FiresInOrder(es, fired) <==> fired == Revocations(es)
  {
    RevocationsFire(es);
    if FiresInOrder(es, fired) {
      var ks :| FiresAt(es, fired, ks);
      var ls :| FiresAt(es, Revocations(es), ls);
      FiresUnique(es, fired, ks, Revocations(es), ls);
    }
  }
}
