/** Peer liveness: the peer table, the gossip loop that pings it, and the sweep that ages it. */
module Gossip {
  import opened Text

  datatype Status = Alive | Stale | Dead

  /** Times are milliseconds. */
  datatype Peer = Peer(nodeId: string, addr: string, status: Status, lastSeen: int, joinedAt: int)

  /** The `cluster_peers` rows by node id. */
  type Rows = map<string, Peer>

  predicate Keyed(rows: Rows) {
    forall n :: n in rows ==> rows[n].nodeId == n
  }

  /** Joining or re-joining: refuses a blank id or address, and keeps `joined_at` of a known node. */
  function Joined(rows: Rows, nodeId: string, addr: string, now: int): Rows {
    if AllBlank(nodeId) || AllBlank(addr) then rows
    else rows[nodeId := Peer(nodeId, addr, Alive, now, if nodeId in rows then rows[nodeId].joinedAt else now)]
  }

  function Touched(rows: Rows, nodeId: string, now: int): Rows {
    if nodeId in rows then rows[nodeId := rows[nodeId].(status := Alive, lastSeen := now)] else rows
  }

  /** One `UPDATE ... SET status = to WHERE status = from AND last_seen < cut`. */
  function Aged(rows: Rows, from: Status, to: Status, cut: int): Rows {
    map n | n in rows :: if rows[n].status == from && rows[n].lastSeen < cut then rows[n].(status := to) else rows[n]
  }

  function Affected(rows: Rows, from: Status, cut: int): set<string> {
    set n | n in rows && rows[n].status == from && rows[n].lastSeen < cut
  }

  function Max0(n: int): nat { if n < 0 then 0 else n }

  function StaleCut(now: int, staleAfter: int): int { now - 1000 * Max0(staleAfter) }

  function DeadCut(now: int, staleAfter: int, deadAfter: int): int {
    now - 1000 * (Max0(staleAfter) + Max0(deadAfter))
  }

  function Swept(rows: Rows, now: int, staleAfter: int, deadAfter: int): Rows {
    Aged(Aged(rows, Alive, Stale, StaleCut(now, staleAfter)), Stale, Dead, DeadCut(now, staleAfter, deadAfter))
  }

  /** The table after pinging the listed peers in order, where `answers[i]` says whether peer i replied with
      success. Peers listed as dead are not pinged. */
  function Pinged(rows: Rows, listing: seq<Peer>, answers: seq<bool>, now: int): Rows
    requires |answers| == |listing|
  {
    if listing == [] then rows
    else
      var n := |listing| - 1;
      var before := Pinged(rows, listing[..n], answers[..n], now);
      if !listing[n].status.Dead? && answers[n] then Touched(before, listing[n].nodeId, now) else before
  }

  class ClusterStore {
    var rows: Rows

    /** The store wraps a table that may hold rows already. */
    constructor (rows: Rows)
      ensures this.rows == rows
    {
      this.rows := rows;
    }

    method Upsert(nodeId: string, addr: string, now: int) returns (r: Option<Peer>)
      modifies this
      ensures rows == Joined(old(rows), nodeId, addr, now)
      ensures r == if AllBlank(nodeId) || AllBlank(addr) then None else Some(rows[nodeId])
    {
      var noId := TrimsToNothing(nodeId);
      var noAddr := TrimsToNothing(addr);
      if noId || noAddr { return None; }
      var joinedAt := now;
      if nodeId in rows { joinedAt := rows[nodeId].joinedAt; }
      rows := rows[nodeId := Peer(nodeId, addr, Alive, now, joinedAt)];
      r := Some(rows[nodeId]);
    }

    method Remove(nodeId: string) returns (removed: bool)
      modifies this
      ensures rows == old(rows) - {nodeId} && (removed <==> nodeId in old(rows))
    {
      removed := nodeId in rows;
      rows := rows - {nodeId};
    }

    method TouchSeen(nodeId: string, now: int)
      modifies this
      ensures rows == Touched(old(rows), nodeId, now)
    {
      if nodeId in rows { rows := rows[nodeId := rows[nodeId].(status := Alive, lastSeen := now)]; }
    }

    method Sweep(now: int, staleAfter: int, deadAfter: int) returns (count: nat)
      modifies this
      ensures rows == Swept(old(rows), now, staleAfter, deadAfter)
      ensures count == SweepCount(old(rows), now, staleAfter, deadAfter)
    {
      var staleCut, deadCut := StaleCut(now, staleAfter), DeadCut(now, staleAfter, deadAfter);
      var aged := |Affected(rows, Alive, staleCut)|;
      rows := Aged(rows, Alive, Stale, staleCut);
      count := aged + |Affected(rows, Stale, deadCut)|;
      rows := Aged(rows, Stale, Dead, deadCut);
    }

    /** A whole round, run without interference. */
    method RunRound(listing: seq<Peer>, answers: seq<bool>, now: int)
      requires |answers| == |listing|
      modifies this
      ensures rows == Pinged(old(rows), listing, answers, now)
    {
      for i := 0 to |listing|
        invariant rows == Pinged(old(rows), listing[..i], answers[..i], now)
      {
        assert listing[..i + 1][..i] == listing[..i] && answers[..i + 1][..i] == answers[..i];
        if listing[i].status == Dead { continue; }
        if answers[i] { TouchSeen(listing[i].nodeId, now); }
      }
      assert listing[..|listing|] == listing && answers[..|listing|] == answers;
    }
  }

  // ----- Joining -----

  /** Joining under an id and an address that are not blank leaves the peer alive, just seen and at that address,
      with the joining time of its first join, and no other row changes. With a blank one nothing changes. */
  lemma {:induction false} JoinMeaning(rows: Rows, nodeId: string, addr: string, now: int)
    ensures
      var after := Joined(rows, nodeId, addr, now);
      if (forall i :: 0 <= i < |nodeId| ==> IsWhitespace(nodeId[i])) || (forall i :: 0 <= i < |addr| ==> IsWhitespace(addr[i]))
      then after == rows
      else
        && after.Keys == rows.Keys + {nodeId}
        && (forall n :: n in rows && n != nodeId ==> after[n] == rows[n])
        && after[nodeId].nodeId == nodeId && after[nodeId].addr == addr
        && after[nodeId].status == Alive && after[nodeId].lastSeen == now
        && after[nodeId].joinedAt == if nodeId in rows then rows[nodeId].joinedAt else now
  {
  }

  // ----- A round -----

  predicate Replied(listing: seq<Peer>, answers: seq<bool>, n: string)
    requires |answers| == |listing|
  {
    exists i :: 0 <= i < |listing| && listing[i].nodeId == n && !listing[i].status.Dead? && answers[i]
  }

  /** A round marks exactly the listed peers that were not dead and replied, and adds or removes none. */
  lemma {:induction false} PingedMeaning(rows: Rows, listing: seq<Peer>, answers: seq<bool>, now: int, n: string)
    requires |answers| == |listing|
    ensures n in Pinged(rows, listing, answers, now) <==> n in rows
    ensures n in rows ==>
              Pinged(rows, listing, answers, now)[n]
              == if Replied(listing, answers, n) then rows[n].(status := Alive, lastSeen := now) else rows[n]
  {
    if listing != [] {
      var k := |listing| - 1;
      PingedMeaning(rows, listing[..k], answers[..k], now, n);
      assert forall i :: 0 <= i < k ==> listing[..k][i] == listing[i] && answers[..k][i] == answers[i];
    }
  }

  // ----- Sweeping -----

  /** A number of seconds in milliseconds; a negative one counts as none. */
  function Millis(seconds: int): int { if seconds < 0 then 0 else 1000 * seconds }

  /** What a sweep means for one peer: dead for good, or unheard of for longer than both waiting times; stale, or
      unheard of for longer than the first. */
  function StatusAt(p: Peer, now: int, staleAfter: int, deadAfter: int): Status {
    if p.status == Dead || now - p.lastSeen > Millis(staleAfter) + Millis(deadAfter) then Dead
    else if p.status == Stale || now - p.lastSeen > Millis(staleAfter) then Stale
    else Alive
  }

  /** The two updates together give each peer its status at `now` and change nothing else. */
  lemma {:induction false} SweepMeaning(rows: Rows, now: int, staleAfter: int, deadAfter: int)
    ensures Swept(rows, now, staleAfter, deadAfter)
         == map n | n in rows :: rows[n].(status := StatusAt(rows[n], now, staleAfter, deadAfter))
  {
  }

  lemma {:induction false} StatusCombines(p: Peer, earlier: int, later: int, staleAfter: int, deadAfter: int)
    requires earlier <= later
    ensures StatusAt(p.(status := StatusAt(p, earlier, staleAfter, deadAfter)), later, staleAfter, deadAfter)
         == StatusAt(p, later, staleAfter, deadAfter)
  {
  }

  /** Sweeping often is the same as sweeping once at the end. With equal times: repeating a sweep does nothing. */
  lemma {:induction false} SweepsCombine(rows: Rows, earlier: int, later: int, staleAfter: int, deadAfter: int)
    requires earlier <= later
    ensures Swept(Swept(rows, earlier, staleAfter, deadAfter), later, staleAfter, deadAfter)
         == Swept(rows, later, staleAfter, deadAfter)
  {
    var mid, all := Swept(rows, earlier, staleAfter, deadAfter), Swept(rows, later, staleAfter, deadAfter);
    var twice := Swept(mid, later, staleAfter, deadAfter);
    SweepMeaning(rows, earlier, staleAfter, deadAfter);
    SweepMeaning(rows, later, staleAfter, deadAfter);
    SweepMeaning(mid, later, staleAfter, deadAfter);
    forall n | n in rows ensures twice[n] == all[n] {
      StatusCombines(rows[n], earlier, later, staleAfter, deadAfter);
    }
  }

  /** What a sweep reports: the rows affected by its first update plus those affected by its second. */
  function SweepCount(rows: Rows, now: int, staleAfter: int, deadAfter: int): nat {
    var staleCut := StaleCut(now, staleAfter);
    |Affected(rows, Alive, staleCut)|
      + |Affected(Aged(rows, Alive, Stale, staleCut), Stale, DeadCut(now, staleAfter, deadAfter))|
  }

  function Changed(rows: Rows, swept: Rows): set<string> {
    set n | n in rows && n in swept && rows[n].status != swept[n].status
  }

  lemma {:induction false} UnionSize<T>(a: set<T>, b: set<T>)
    ensures |a| + |b| == |a + b| + |a * b|
  {
  }

  lemma {:induction false} ChangedRows(rows: Rows, staleCut: int, deadCut: int)
    requires deadCut <= staleCut
    ensures
      var aged := Aged(rows, Alive, Stale, staleCut);
      && Changed(rows, Aged(aged, Stale, Dead, deadCut)) == Affected(rows, Alive, staleCut) + Affected(aged, Stale, deadCut)
      && Affected(rows, Alive, staleCut) * Affected(aged, Stale, deadCut) == Affected(rows, Alive, deadCut)
  {
  }

  /** A sweep reports the number of rows that changed status exactly when no peer goes from alive to dead. */
  lemma {:induction false} SweepCountExact(rows: Rows, now: int, staleAfter: int, deadAfter: int)
    ensures SweepCount(rows, now, staleAfter, deadAfter) == |Changed(rows, Swept(rows, now, staleAfter, deadAfter))|
       <==> forall n :: n in rows && rows[n].status == Alive ==>
              now - rows[n].lastSeen <= Millis(staleAfter) + Millis(deadAfter)
  {
    var staleCut, deadCut := StaleCut(now, staleAfter), DeadCut(now, staleAfter, deadAfter);
    ChangedRows(rows, staleCut, deadCut);
    UnionSize(Affected(rows, Alive, staleCut), Affected(Aged(rows, Alive, Stale, staleCut), Stale, deadCut));
    var both := Affected(rows, Alive, deadCut);
    assert both == {} <==> forall n :: n in rows && rows[n].status.Alive? ==> rows[n].lastSeen >= deadCut by {
      assert forall n :: n in rows && rows[n].status.Alive? && rows[n].lastSeen < deadCut ==> n in both;
    }
  }

  /** A concrete sweep that reports two changes for the one row it changed. */
  lemma {:induction false} SweepCountCounterexample()
    ensures
      var rows := map["a" := Peer("a", "h", Alive, 0, 0)];
      SweepCount(rows, 1_000_000, 60, 240) == 2 && |Changed(rows, Swept(rows, 1_000_000, 60, 240))| == 1
  {
    var rows := map["a" := Peer("a", "h", Alive, 0, 0)];
    var aged := Aged(rows, Alive, Stale, 940_000);
    assert Affected(rows, Alive, 940_000) == {"a"} && Affected(aged, Stale, 700_000) == {"a"};
    assert Changed(rows, Swept(rows, 1_000_000, 60, 240)) == {"a"};
  }

  // ----- The gossip loop among joins and departures -----

  /** Where the loop is: between ticks, pinging the rest of a listing taken at `now`, done pinging, or between the
      two updates of a sweep. A restart of the daemon abandons it anywhere; the table stays. */
  datatype Phase = Idle | Pinging(now: int, rest: seq<Peer>) | Rounded | Sweeping(deadCut: int)

  datatype World = World(rows: Rows, phase: Phase)

  datatype Step =
    | Join(nodeId: string, addr: string, at: int)
    | Leave(nodeId: string)
    | Begin(now: int, listing: seq<Peer>)
    | ListFails
    | Ping(success: bool)
    | EndRound
    | MarkStale(now: int, staleAfter: int, deadAfter: int)
    | MarkDead
    | SweepFails
    | Restart

  /** A listing of the table, in some order. */
  predicate Lists(listing: seq<Peer>, rows: Rows) {
    && (forall i :: 0 <= i < |listing| ==> listing[i].nodeId in rows && rows[listing[i].nodeId] == listing[i])
    && (forall n :: n in rows ==> rows[n] in listing)
  }

  predicate Enabled(w: World, step: Step) {
    match step
    case Join(_, _, _) => true
    case Leave(_) => true
    case Begin(_, listing) => w.phase.Idle? && Lists(listing, w.rows)
    case ListFails => w.phase.Idle?
    case Ping(_) => w.phase.Pinging? && w.phase.rest != []
    case EndRound => w.phase.Pinging? && w.phase.rest == []
    case MarkStale(_, _, _) => w.phase.Rounded?
    case MarkDead => w.phase.Sweeping?
    case SweepFails => w.phase.Rounded? || w.phase.Sweeping?
    case Restart => true
  }

  function Next(w: World, step: Step): World
    requires Enabled(w, step)
  {
    match step
    case Join(n, addr, at) => w.(rows := Joined(w.rows, n, addr, at))
    case Leave(n) => w.(rows := w.rows - {n})
    case Begin(now, listing) => w.(phase := Pinging(now, listing))
    case ListFails => w.(phase := Rounded)
    case Ping(success) =>
      var p := w.phase.rest[0];
      World(if success && !p.status.Dead? then Touched(w.rows, p.nodeId, w.phase.now) else w.rows,
            w.phase.(rest := w.phase.rest[1..]))
    case EndRound => w.(phase := Rounded)
    case MarkStale(now, s, d) => World(Aged(w.rows, Alive, Stale, StaleCut(now, s)), Sweeping(DeadCut(now, s, d)))
    case MarkDead => World(Aged(w.rows, Stale, Dead, w.phase.deadCut), Idle)
    case SweepFails => w.(phase := Idle)
    case Restart => w.(phase := Idle)
  }

  predicate ValidRun(w: World, steps: seq<Step>)
    decreases |steps|
  {
    steps == [] || (Enabled(w, steps[0]) && ValidRun(Next(w, steps[0]), steps[1..]))
  }

  function Final(w: World, steps: seq<Step>): World
    requires ValidRun(w, steps)
    decreases |steps|
  {
    if steps == [] then w else Final(Next(w, steps[0]), steps[1..])
  }

  const Start := World(map[], Idle)

  // ----- The loop's steps, undisturbed, are the round and the sweep -----

  lemma {:induction false} SweepSteps(w: World, now: int, staleAfter: int, deadAfter: int)
    requires w.phase.Rounded?
    ensures
      var v := Next(w, MarkStale(now, staleAfter, deadAfter));
      Enabled(v, MarkDead) && Next(v, MarkDead) == World(Swept(w.rows, now, staleAfter, deadAfter), Idle)
  {
  }

  lemma {:induction false} TableSteps(w: World, n: string, addr: string, at: int)
    ensures Next(w, Join(n, addr, at)) == World(Joined(w.rows, n, addr, at), w.phase)
    ensures Next(w, Leave(n)).rows.Keys == w.rows.Keys - {n}
    ensures forall m :: m in w.rows && m != n ==> Next(w, Leave(n)).rows[m] == w.rows[m]
  {
  }

  function Pings(answers: seq<bool>): seq<Step> { seq(|answers|, i requires 0 <= i < |answers| => Ping(answers[i])) }

  lemma {:induction false} PingedCons(rows: Rows, listing: seq<Peer>, answers: seq<bool>, now: int)
    requires |answers| == |listing| > 0
    ensures Pinged(rows, listing, answers, now) == Pinged(Pinged(rows, listing[..1], answers[..1], now), listing[1..], answers[1..], now)
  {
    var n := |listing| - 1;
    if n == 0 {
      assert listing[..1] == listing && answers[..1] == answers;
    } else {
      PingedCons(rows, listing[..n], answers[..n], now);
      assert listing[..n][..1] == listing[..1] && answers[..n][..1] == answers[..1];
      assert listing[..n][1..] == listing[1..][..n - 1] && answers[..n][1..] == answers[1..][..n - 1];
    }
  }

  lemma {:induction false} PingedOne(rows: Rows, p: Peer, answer: bool, now: int)
    ensures Pinged(rows, [p], [answer], now) == if !p.status.Dead? && answer then Touched(rows, p.nodeId, now) else rows
  {
    assert [p][..0] == [] && [answer][..0] == [];
  }

  lemma {:induction false} RoundSteps(rows: Rows, listing: seq<Peer>, answers: seq<bool>, now: int)
    requires |answers| == |listing|
    ensures ValidRun(World(rows, Pinging(now, listing)), Pings(answers))
    ensures Final(World(rows, Pinging(now, listing)), Pings(answers)) == World(Pinged(rows, listing, answers, now), Pinging(now, []))
    decreases |listing|
  {
    if listing != [] {
      var w := World(rows, Pinging(now, listing));
      PingedCons(rows, listing, answers, now);
      PingedOne(rows, listing[0], answers[0], now);
      assert listing[..1] == [listing[0]] && answers[..1] == [answers[0]];
      assert Pings(answers)[1..] == Pings(answers[1..]);
      RoundSteps(Next(w, Ping(answers[0])).rows, listing[1..], answers[1..], now);
    }
  }

  /** No peer still to be pinged has died since it was listed, so a late reply cannot revive one. */
  predicate Inv(w: World) {
    && Keyed(w.rows)
    && (w.phase.Pinging? ==>
          forall i :: 0 <= i < |w.phase.rest| ==> NotDeadSince(w.phase.rest[i], w.rows))
  }

  predicate NotDeadSince(p: Peer, rows: Rows) {
    p.nodeId in rows && rows[p.nodeId].status.Dead? ==> p.status.Dead?
  }

  lemma {:induction false} NextKeepsInv(w: World, step: Step)
    requires Inv(w) && Enabled(w, step)
    ensures Inv(Next(w, step))
  {
  }

  lemma {:induction false} RunKeepsInv(w: World, steps: seq<Step>)
    requires Inv(w) && ValidRun(w, steps)
    ensures Inv(Final(w, steps))
    decreases |steps|
  {
    if steps != [] {
      NextKeepsInv(w, steps[0]);
      RunKeepsInv(Next(w, steps[0]), steps[1..]);
    }
  }

  /** The peer is in the table before and after each of the steps. */
  predicate Stays(w: World, steps: seq<Step>, n: string)
    requires ValidRun(w, steps)
    decreases |steps|
  {
    n in w.rows && (steps != [] ==> Stays(Next(w, steps[0]), steps[1..], n))
  }

  /** As long as a peer stays in the table its joining time stays as it was, re-joins included. */
  lemma {:induction false} JoiningTimeFixed(w: World, steps: seq<Step>, n: string)
    requires ValidRun(w, steps) && Stays(w, steps, n)
    ensures n in Final(w, steps).rows && Final(w, steps).rows[n].joinedAt == w.rows[n].joinedAt
    decreases |steps|
  {
    if steps != [] {
      JoiningTimeStep(w, steps[0], n);
      JoiningTimeFixed(Next(w, steps[0]), steps[1..], n);
    }
  }

  lemma {:induction false} JoiningTimeStep(w: World, step: Step, n: string)
    requires Enabled(w, step) && n in w.rows && n in Next(w, step).rows
    ensures Next(w, step).rows[n].joinedAt == w.rows[n].joinedAt
  {
  }

  predicate DeadOrGone(rows: Rows, n: string) {
    n in rows ==> rows[n].status.Dead?
  }

  predicate Rejoins(step: Step, n: string) {
    step.Join? && step.nodeId == n
  }

  lemma {:induction false} StepKeepsDead(w: World, step: Step, n: string)
    requires Inv(w) && Enabled(w, step) && DeadOrGone(w.rows, n) && !Rejoins(step, n)
    ensures DeadOrGone(Next(w, step).rows, n)
  {
  }

  lemma {:induction false} RunKeepsDead(w: World, steps: seq<Step>, n: string)
    requires Inv(w) && ValidRun(w, steps) && DeadOrGone(w.rows, n)
    requires forall i :: 0 <= i < |steps| ==> !Rejoins(steps[i], n)
    ensures DeadOrGone(Final(w, steps).rows, n)
    decreases |steps|
  {
    if steps != [] {
      NextKeepsInv(w, steps[0]);
      StepKeepsDead(w, steps[0], n);
      RunKeepsDead(Next(w, steps[0]), steps[1..], n);
    }
  }

  /** In every run, a peer that is dead, or has left, at some point is dead or gone from then on unless it
      joins again. */
  lemma {:induction false} DeadStaysDead(before: seq<Step>, after: seq<Step>, n: string)
    requires ValidRun(Start, before) && ValidRun(Final(Start, before), after)
    requires DeadOrGone(Final(Start, before).rows, n)
    requires forall i :: 0 <= i < |after| ==> !Rejoins(after[i], n)
    ensures DeadOrGone(Final(Final(Start, before), after).rows, n)
  {
    RunKeepsInv(Start, before);
    RunKeepsDead(Final(Start, before), after, n);
  }

  function Rank(s: Status): nat {
    match s
    case Dead => 0
    case Stale => 1
    case Alive => 2
  }

  /** In every run, a status improves only by joining again, or from stale to alive by answering a ping. */
  lemma {:induction false} ImprovesOnlyWhenHeard(before: seq<Step>, step: Step, n: string)
    requires ValidRun(Start, before) && Enabled(Final(Start, before), step)
    requires
      var w := Final(Start, before);
      n in w.rows && n in Next(w, step).rows && Rank(w.rows[n].status) < Rank(Next(w, step).rows[n].status)
    ensures
      var w := Final(Start, before);
      || Rejoins(step, n)
      || (step == Ping(true) && w.phase.rest[0].nodeId == n && w.rows[n].status.Stale?)
  {
    RunKeepsInv(Start, before);
    var w := Final(Start, before);
    if step.Ping? { assert NotDeadSince(w.phase.rest[0], w.rows); }
  }
}
