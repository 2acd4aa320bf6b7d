/** The approval handshake: requests, responders and timers interleave over one pending map. Every lock
    section, channel operation and broadcast is a step of its own. */
module Approval {
  import opened Text

  datatype Outcome = Granted(who: string, reason: Option<string>) | Denied(who: string, reason: Option<string>) | TimedOut | NoListener

  /** Sender half of a request's one-shot channel: alive and unused, used, or dropped unused. */
  datatype Channel = Open | Sent(outcome: Outcome) | Closed

  datatype Phase = Registered | Unheard | Waiting | Expired | Done(result: Outcome)

  /** One `request_inner` call. Its position in the state is its identity; `id` need not be unique. */
  datatype Request = Request(id: string, phase: Phase, channel: Channel)

  /** One `respond` call; it holds the sender between taking it and using it. */
  datatype Progress = Took(token: nat) | Delivered(token: nat) | Accepted(token: nat) | Refused
  datatype Responder = Responder(id: string, outcome: Outcome, progress: Progress)

  /** A resolved broadcast, tagged with the respond call that made it. */
  datatype Notice = Notice(source: nat, id: string, outcome: Outcome)

  datatype State = State(requests: seq<Request>, pending: map<string, nat>, responders: seq<Responder>, resolved: seq<Notice>)

  const Empty := State([], map[], [], [])

  datatype Step =
    | Register(id: string)
    | FanOut(request: nat, listeners: nat)
    | DropUnheard(request: nat)
    | Receive(request: nat)
    | SeeClosed(request: nat)
    | Expire(request: nat)
    | DropExpired(request: nat)
    | Take(rid: string, outcome: Outcome)
    | Deliver(responder: nat)
    | Broadcast(responder: nat)

  predicate InPhase(s: State, t: nat, p: Phase) { t < |s.requests| && s.requests[t].phase == p }

  /** A timer only fires when the channel has nothing to report at that poll. */
  predicate Enabled(s: State, step: Step) {
    match step
    case Register(_) => true
    case FanOut(t, _) => InPhase(s, t, Registered)
    case DropUnheard(t) => InPhase(s, t, Unheard)
    case Receive(t) => InPhase(s, t, Waiting) && s.requests[t].channel.Sent?
    case SeeClosed(t) => InPhase(s, t, Waiting) && s.requests[t].channel.Closed?
    case Expire(t) => InPhase(s, t, Waiting) && s.requests[t].channel.Open?
    case DropExpired(t) => InPhase(s, t, Expired)
    case Take(_, _) => true
    case Deliver(r) => r < |s.responders| && s.responders[r].progress.Took? && s.responders[r].progress.token < |s.requests|
    case Broadcast(r) => r < |s.responders| && s.responders[r].progress.Delivered?
  }

  function SetPhase(rs: seq<Request>, t: nat, p: Phase): seq<Request>
    requires t < |rs|
  {
    rs[t := rs[t].(phase := p)]
  }

  /** Dropping the sender filed under `id`, whoever it belongs to. */
  function DropSender(s: State, id: string): State {
    if id in s.pending && s.pending[id] < |s.requests| then
      var u := s.pending[id];
      s.(pending := s.pending - {id}, requests := s.requests[u := s.requests[u].(channel := Closed)])
    else s.(pending := s.pending - {id})
  }

  function Next(s: State, step: Step): State
    requires Enabled(s, step)
  {
    match step
    case Register(id) =>
      var d := DropSender(s, id);
      d.(requests := d.requests + [Request(id, Registered, Open)], pending := d.pending[id := |s.requests|])
    case FanOut(t, n) => s.(requests := SetPhase(s.requests, t, if n == 0 then Unheard else Waiting))
    case DropUnheard(t) =>
      var d := DropSender(s, s.requests[t].id);
      d.(requests := SetPhase(d.requests, t, Done(NoListener)))
    case Receive(t) => s.(requests := SetPhase(s.requests, t, Done(s.requests[t].channel.outcome)))
    case SeeClosed(t) => s.(requests := SetPhase(s.requests, t, Done(TimedOut)))
    case Expire(t) => s.(requests := SetPhase(s.requests, t, Expired))
    case DropExpired(t) =>
      var d := DropSender(s, s.requests[t].id);
      d.(requests := SetPhase(d.requests, t, Done(TimedOut)))
    case Take(id, o) =>
      var p := if id in s.pending then Took(s.pending[id]) else Refused;
      s.(pending := s.pending - {id}, responders := s.responders + [Responder(id, o, p)])
    case Deliver(r) =>
      var resp := s.responders[r];
      var t := resp.progress.token;
      s.(requests := s.requests[t := s.requests[t].(channel := Sent(resp.outcome))],
         responders := s.responders[r := resp.(progress := Delivered(t))])
    case Broadcast(r) =>
      var resp := s.responders[r];
      s.(responders := s.responders[r := resp.(progress := Accepted(resp.progress.token))],
         resolved := s.resolved + [Notice(r, resp.id, resp.outcome)])
  }

  predicate ValidRun(s: State, steps: seq<Step>)
    decreases |steps|
  {
    steps == [] || (Enabled(s, steps[0]) && ValidRun(Next(s, steps[0]), steps[1..]))
  }

  function Final(s: State, steps: seq<Step>): State
    requires ValidRun(s, steps)
    decreases |steps|
  {
    if steps == [] then s else Final(Next(s, steps[0]), steps[1..])
  }

  // ----- What every step keeps -----

  /** A pending entry belongs to a request in flight whose channel nobody has used or dropped. */
  predicate PendingOk(s: State) {
    forall id :: id in s.pending ==>
      && s.pending[id] < |s.requests|
      && s.requests[s.pending[id]].id == id
      && s.requests[s.pending[id]].channel.Open?
      && !s.requests[s.pending[id]].phase.Done?
  }

  predicate Holds(p: Progress, t: nat) { !p.Refused? && p.token == t }

  /** A responder that got a sender got it from the request it names, and took it out of the map. */
  predicate RespondersOk(s: State) {
    forall r :: 0 <= r < |s.responders| && !s.responders[r].progress.Refused? ==>
      var t := s.responders[r].progress.token;
      && t < |s.requests|
      && s.requests[t].id == s.responders[r].id
      && (s.responders[r].id in s.pending ==> s.pending[s.responders[r].id] != t)
      && s.requests[t].channel == if s.responders[r].progress.Took? then Open else Sent(s.responders[r].outcome)
  }

  predicate OneResponderEach(s: State) {
    forall q, r :: 0 <= q < r < |s.responders| ==>
      s.responders[q].progress.Refused? || s.responders[r].progress.Refused?
      || s.responders[q].progress.token != s.responders[r].progress.token
  }

  /** A used channel names the responder that used it, and a finished request reports its channel. */
  ghost predicate RequestsOk(s: State) {
    forall t :: 0 <= t < |s.requests| ==> RequestOk(s, t)
  }

  ghost predicate RequestOk(s: State, t: nat)
    requires t < |s.requests|
  {
    && (s.requests[t].channel.Sent? ==> exists r :: 0 <= r < |s.responders| && Holds(s.responders[r].progress, t))
    && (s.requests[t].phase.Done? ==>
          s.requests[t].phase.result in {TimedOut, NoListener} || s.requests[t].channel == Sent(s.requests[t].phase.result))
  }

  predicate NoticesOk(s: State) {
    && (forall i :: 0 <= i < |s.resolved| ==>
          s.resolved[i].source < |s.responders| && s.responders[s.resolved[i].source].progress.Accepted?
          && s.resolved[i].id == s.responders[s.resolved[i].source].id
          && s.resolved[i].outcome == s.responders[s.resolved[i].source].outcome)
    && (forall i, j :: 0 <= i < j < |s.resolved| ==> s.resolved[i].source != s.resolved[j].source)
  }

  ghost predicate AllNoticed(s: State) {
    forall r :: 0 <= r < |s.responders| && s.responders[r].progress.Accepted? ==> Noticed(s, r)
  }

  ghost predicate Noticed(s: State, r: nat) { exists i :: 0 <= i < |s.resolved| && s.resolved[i].source == r }

  ghost predicate Inv(s: State) {
    PendingOk(s) && RespondersOk(s) && OneResponderEach(s) && RequestsOk(s) && NoticesOk(s) && AllNoticed(s)
  }

  lemma {:induction false} DropSenderKeeps(s: State, id: string)
    requires Inv(s)
    ensures Inv(DropSender(s, id)) && id !in DropSender(s, id).pending
    ensures |DropSender(s, id).requests| == |s.requests|
    ensures forall t :: 0 <= t < |s.requests| ==>
              DropSender(s, id).requests[t].id == s.requests[t].id && DropSender(s, id).requests[t].phase == s.requests[t].phase
  {
    var d := DropSender(s, id);
    forall t | 0 <= t < |d.requests| ensures RequestOk(d, t) { assert RequestOk(s, t); }
    forall r | 0 <= r < |d.responders| && d.responders[r].progress.Accepted? ensures Noticed(d, r) { assert Noticed(s, r); }
  }

  /** Finishing or moving a request that no pending entry points at. */
  lemma {:induction false} SetPhaseKeeps(s: State, t: nat, p: Phase)
    requires Inv(s) && t < |s.requests|
    requires p.Done? ==> forall id :: id in s.pending ==> s.pending[id] != t
    requires p.Done? ==> p.result in {TimedOut, NoListener} || s.requests[t].channel == Sent(p.result)
    ensures Inv(s.(requests := SetPhase(s.requests, t, p)))
  {
    var d := s.(requests := SetPhase(s.requests, t, p));
    forall u | 0 <= u < |d.requests| ensures RequestOk(d, u) { assert RequestOk(s, u); }
    forall r | 0 <= r < |d.responders| && d.responders[r].progress.Accepted? ensures Noticed(d, r) { assert Noticed(s, r); }
  }

  lemma {:induction false} RegisterKeeps(s: State, id: string)
    requires Inv(s)
    ensures Inv(Next(s, Register(id)))
  {
    DropSenderKeeps(s, id);
    var d, n := DropSender(s, id), Next(s, Register(id));
    forall u | 0 <= u < |n.requests| ensures RequestOk(n, u) {
      if u < |d.requests| { assert RequestOk(d, u); }
    }
    forall r | 0 <= r < |n.responders| && n.responders[r].progress.Accepted? ensures Noticed(n, r) { assert Noticed(d, r); }
  }

  lemma {:induction false} TakeKeeps(s: State, id: string, o: Outcome)
    requires Inv(s)
    ensures Inv(Next(s, Take(id, o)))
  {
    var n := Next(s, Take(id, o));
    forall u | 0 <= u < |n.requests| ensures RequestOk(n, u) {
      assert RequestOk(s, u);
      if s.requests[u].channel.Sent? {
        var r :| 0 <= r < |s.responders| && Holds(s.responders[r].progress, u);
        assert n.responders[r] == s.responders[r];
      }
    }
    forall r | 0 <= r < |n.responders| && n.responders[r].progress.Accepted? ensures Noticed(n, r) { assert Noticed(s, r); }
  }

  lemma {:induction false} DeliverKeeps(s: State, r: nat)
    requires Inv(s) && Enabled(s, Deliver(r))
    ensures Inv(Next(s, Deliver(r)))
  {
    var n := Next(s, Deliver(r));
    forall u | 0 <= u < |n.requests| ensures RequestOk(n, u) {
      assert RequestOk(s, u);
      if u == s.responders[r].progress.token {
        assert Holds(n.responders[r].progress, u);
      } else if s.requests[u].channel.Sent? {
        var q :| 0 <= q < |s.responders| && Holds(s.responders[q].progress, u);
        assert Holds(n.responders[q].progress, u);
      }
    }
    forall q | 0 <= q < |n.responders| && n.responders[q].progress.Accepted? ensures Noticed(n, q) { assert Noticed(s, q); }
  }

  lemma {:induction false} BroadcastKeeps(s: State, r: nat)
    requires Inv(s) && Enabled(s, Broadcast(r))
    ensures Inv(Next(s, Broadcast(r)))
  {
    var n := Next(s, Broadcast(r));
    forall u | 0 <= u < |n.requests| ensures RequestOk(n, u) {
      assert RequestOk(s, u);
      if s.requests[u].channel.Sent? {
        var q :| 0 <= q < |s.responders| && Holds(s.responders[q].progress, u);
        assert Holds(n.responders[q].progress, u);
      }
    }
    forall q | 0 <= q < |n.responders| && n.responders[q].progress.Accepted? ensures Noticed(n, q) {
      if q == r {
        assert n.resolved[|s.resolved|].source == r;
      } else {
        assert Noticed(s, q);
        var i :| 0 <= i < |s.resolved| && s.resolved[i].source == q;
        assert n.resolved[i].source == q;
      }
    }
  }

  lemma {:induction false} NextKeepsInv(s: State, step: Step)
    requires Inv(s) && Enabled(s, step)
    ensures Inv(Next(s, step))
  {
    match step
    case Register(id) => RegisterKeeps(s, id);
    case FanOut(t, n) => SetPhaseKeeps(s, t, if n == 0 then Unheard else Waiting);
    case DropUnheard(t) =>
      DropSenderKeeps(s, s.requests[t].id);
      SetPhaseKeeps(DropSender(s, s.requests[t].id), t, Done(NoListener));
    case Receive(t) => SetPhaseKeeps(s, t, Done(s.requests[t].channel.outcome));
    case SeeClosed(t) => SetPhaseKeeps(s, t, Done(TimedOut));
    case Expire(t) => SetPhaseKeeps(s, t, Expired);
    case DropExpired(t) =>
      DropSenderKeeps(s, s.requests[t].id);
      SetPhaseKeeps(DropSender(s, s.requests[t].id), t, Done(TimedOut));
    case Take(id, o) => TakeKeeps(s, id, o);
    case Deliver(r) => DeliverKeeps(s, r);
    case Broadcast(r) => BroadcastKeeps(s, r);
  }

  lemma {:induction false} RunKeepsInv(s: State, steps: seq<Step>)
    requires Inv(s) && ValidRun(s, steps)
    ensures Inv(Final(s, steps))
    decreases |steps|
  {
    if steps != [] {
      NextKeepsInv(s, steps[0]);
      RunKeepsInv(Next(s, steps[0]), steps[1..]);
    }
  }

  // ----- Main results, over every interleaving -----

  /** No registration is ever answered twice. */
  lemma {:induction false} AcceptedAtMostOnce(steps: seq<Step>, q: nat, r: nat)
    requires ValidRun(Empty, steps)
    requires q < |Final(Empty, steps).responders| && r < |Final(Empty, steps).responders|
    requires Final(Empty, steps).responders[q].progress.Accepted? && Final(Empty, steps).responders[r].progress.Accepted?
    requires Final(Empty, steps).responders[q].progress.token == Final(Empty, steps).responders[r].progress.token
    ensures q == r
  {
    RunKeepsInv(Empty, steps);
    assert OneResponderEach(Final(Empty, steps));
  }

  /** A request that comes back granted or denied comes back with the outcome of the one respond call that took
      its sender, made for its own request id. */
  lemma {:induction false} ResultIsTheAcceptedOne(steps: seq<Step>, t: nat)
    requires ValidRun(Empty, steps) && t < |Final(Empty, steps).requests|
    requires Final(Empty, steps).requests[t].phase.Done?
    requires Final(Empty, steps).requests[t].phase.result !in {TimedOut, NoListener}
    ensures var s := Final(Empty, steps);
            exists r :: 0 <= r < |s.responders| && Holds(s.responders[r].progress, t)
              && s.responders[r].outcome == s.requests[t].phase.result && s.responders[r].id == s.requests[t].id
  {
    RunKeepsInv(Empty, steps);
    var s := Final(Empty, steps);
    assert RequestOk(s, t);
    var r :| 0 <= r < |s.responders| && Holds(s.responders[r].progress, t);
    assert s.responders[r].outcome == s.requests[t].phase.result && s.responders[r].id == s.requests[t].id;
  }

  /** Resolved broadcasts and accepted responses match one to one. */
  lemma {:induction false} BroadcastsMatch(steps: seq<Step>)
    requires ValidRun(Empty, steps)
    ensures NoticesOk(Final(Empty, steps)) && AllNoticed(Final(Empty, steps))
  {
    RunKeepsInv(Empty, steps);
  }

  /** No leak: every pending entry belongs to a request still in flight. */
  lemma {:induction false} NoLeak(steps: seq<Step>, id: string)
    requires ValidRun(Empty, steps) && id in Final(Empty, steps).pending
    ensures var s := Final(Empty, steps);
            s.pending[id] < |s.requests| && s.requests[s.pending[id]].id == id && !s.requests[s.pending[id]].phase.Done?
  {
    RunKeepsInv(Empty, steps);
  }

  // ----- When an accepted answer is the result -----

  /** The fate of a request once its answer has been delivered while it was in phase `p`. */
  predicate Fate(s: State, t: nat, p: Phase, o: Outcome) {
    && t < |s.requests|
    && s.requests[t].channel == Sent(o)
    && match p
       case Waiting => s.requests[t].phase == Waiting || s.requests[t].phase == Done(o)
       case Expired => s.requests[t].phase == Expired || s.requests[t].phase == Done(TimedOut)
       case Unheard => s.requests[t].phase == Unheard || s.requests[t].phase == Done(NoListener)
       case Done(x) => s.requests[t].phase == Done(x)
       case Registered => false
  }

  lemma {:induction false} FateStable(s: State, t: nat, p: Phase, o: Outcome, steps: seq<Step>)
    requires Inv(s) && Fate(s, t, p, o) && ValidRun(s, steps)
    ensures Fate(Final(s, steps), t, p, o)
    decreases |steps|
  {
    if steps != [] {
      NextKeepsInv(s, steps[0]);
      FateStep(s, t, p, o, steps[0]);
      FateStable(Next(s, steps[0]), t, p, o, steps[1..]);
    }
  }

  lemma {:induction false} FateStep(s: State, t: nat, p: Phase, o: Outcome, step: Step)
    requires Inv(s) && Fate(s, t, p, o) && Enabled(s, step)
    ensures Fate(Next(s, step), t, p, o)
  {
  }

  predicate Reaches(step: Step, t: nat) { step.FanOut? && step.request == t && step.listeners > 0 }

  /** The request of `t` is fanned out to at least one listener during these steps. */
  predicate HeardIn(steps: seq<Step>, t: nat) { exists i :: 0 <= i < |steps| && Reaches(steps[i], t) }

  lemma {:induction false} FannedOutOnce(s: State, t: nat, p: Phase, o: Outcome, steps: seq<Step>)
    requires Inv(s) && Fate(s, t, p, o) && ValidRun(s, steps)
    ensures !HeardIn(steps, t)
    decreases |steps|
  {
    if steps != [] {
      NextKeepsInv(s, steps[0]);
      FateStep(s, t, p, o, steps[0]);
      FannedOutOnce(Next(s, steps[0]), t, p, o, steps[1..]);
      assert forall i :: 0 < i < |steps| ==> steps[i] == steps[1..][i - 1];
    }
  }

  predicate Early(s: State, t: nat, o: Outcome) {
    t < |s.requests| && s.requests[t].channel == Sent(o) && s.requests[t].phase.Registered?
  }

  lemma {:induction false} EarlyStep(s: State, t: nat, o: Outcome, step: Step)
    requires Inv(s) && Early(s, t, o) && Enabled(s, step) && !(step.FanOut? && step.request == t)
    ensures Early(Next(s, step), t, o)
  {
  }

  /** An answer delivered before the fan-out is the result exactly when the fan-out then reaches a listener. */
  lemma {:induction false} EarlyFate(s: State, t: nat, o: Outcome, steps: seq<Step>)
    requires Inv(s) && Early(s, t, o) && ValidRun(s, steps) && o !in {TimedOut, NoListener}
    requires t < |Final(s, steps).requests| && Final(s, steps).requests[t].phase.Done?
    ensures Final(s, steps).requests[t].phase.result == o <==> HeardIn(steps, t)
    decreases |steps|
  {
    var n, rest := Next(s, steps[0]), steps[1..];
    NextKeepsInv(s, steps[0]);
    assert forall i :: 0 < i < |steps| ==> steps[i] == rest[i - 1];
    if steps[0].FanOut? && steps[0].request == t {
      var p := n.requests[t].phase;
      FateStable(n, t, p, o, rest);
      FannedOutOnce(n, t, p, o, rest);
      assert HeardIn(steps, t) <==> Reaches(steps[0], t);
    } else {
      EarlyStep(s, t, o, steps[0]);
      EarlyFate(n, t, o, rest);
      HeardTail(steps, t);
    }
  }

  lemma {:induction false} HeardTail(steps: seq<Step>, t: nat)
    requires steps != [] && !Reaches(steps[0], t)
    ensures HeardIn(steps, t) <==> HeardIn(steps[1..], t)
  {
  }

  /** A delivered answer becomes the request's result exactly when the request was still waiting at the moment
      of delivery, or had yet to be fanned out and then reached a listener. A timer that had fired, or a
      fan-out nobody heard, wins over it. */
  lemma {:induction false} DeliveredExactlyWhenWaiting(before: seq<Step>, r: nat, t: nat, after: seq<Step>)
    requires ValidRun(Empty, before)
    requires Enabled(Final(Empty, before), Deliver(r)) && t == Final(Empty, before).responders[r].progress.token
    requires Final(Empty, before).responders[r].outcome !in {TimedOut, NoListener}
    requires ValidRun(Next(Final(Empty, before), Deliver(r)), after)
    requires t < |Final(Next(Final(Empty, before), Deliver(r)), after).requests|
    requires Final(Next(Final(Empty, before), Deliver(r)), after).requests[t].phase.Done?
    ensures
      var s := Final(Empty, before);
      Final(Next(s, Deliver(r)), after).requests[t].phase.result == s.responders[r].outcome
      <==> s.requests[t].phase.Waiting? || (s.requests[t].phase.Registered? && HeardIn(after, t))
  {
    RunKeepsInv(Empty, before);
    var s := Final(Empty, before);
    var p, o := s.requests[t].phase, s.responders[r].outcome;
    assert RequestOk(s, t);
    NextKeepsInv(s, Deliver(r));
    if p.Registered? {
      EarlyFate(Next(s, Deliver(r)), t, o, after);
    } else {
      FateStable(Next(s, Deliver(r)), t, p, o, after);
    }
  }

  /** From a request whose timer has fired: a respond is accepted all the same, then the request times out. */
  lemma {:induction false} LateRespond(id: string, o: Outcome) returns (steps: seq<Step>)
    requires o !in {TimedOut, NoListener}
    ensures
      var s3 := State([Request(id, Expired, Open)], map[id := 0], [], []);
      && ValidRun(s3, steps)
      && Final(s3, steps).responders == [Responder(id, o, Accepted(0))]
      && Final(s3, steps).requests == [Request(id, Done(TimedOut), Sent(o))]
  {
    var s3 := State([Request(id, Expired, Open)], map[id := 0], [], []);
    var s4 := State(s3.requests, map[], [Responder(id, o, Took(0))], []);
    var s5 := State([Request(id, Expired, Sent(o))], map[], [Responder(id, o, Delivered(0))], []);
    var s6 := State(s5.requests, map[], [Responder(id, o, Accepted(0))], [Notice(0, id, o)]);
    var s7 := s6.(requests := [Request(id, Done(TimedOut), Sent(o))]);
    assert map[id := 0] - {id} == map[];
    assert Next(s6, DropExpired(0)) == s7;
    Cons(s6, s7, DropExpired(0), []);
    var r6 := [DropExpired(0)] + [];
    Cons(s5, s6, Broadcast(0), r6);
    var r5 := [Broadcast(0)] + r6;
    Cons(s4, s5, Deliver(0), r5);
    var r4 := [Deliver(0)] + r5;
    Cons(s3, s4, Take(id, o), r4);
    steps := [Take(id, o)] + r4;
  }

  /** An accepted respond can lose: here the timer fired first, the respond call still returns true, and the
      request times out. */
  lemma {:induction false} AcceptedButTimedOut(id: string, o: Outcome)
    requires o !in {TimedOut, NoListener}
    ensures exists steps :: ValidRun(Empty, steps)
              && Final(Empty, steps).responders == [Responder(id, o, Accepted(0))]
              && Final(Empty, steps).requests == [Request(id, Done(TimedOut), Sent(o))]
  {
    var s1 := State([Request(id, Registered, Open)], map[id := 0], [], []);
    var s2 := s1.(requests := [Request(id, Waiting, Open)]);
    var s3 := s1.(requests := [Request(id, Expired, Open)]);
    var r3 := LateRespond(id, o);
    Cons(s2, s3, Expire(0), r3);
    var r2 := [Expire(0)] + r3;
    Cons(s1, s2, FanOut(0, 1), r2);
    var r1 := [FanOut(0, 1)] + r2;
    Cons(Empty, s1, Register(id), r1);
  }

  lemma {:induction false} Cons(s: State, n: State, step: Step, rest: seq<Step>)
    requires Enabled(s, step) && Next(s, step) == n && ValidRun(n, rest)
    ensures ValidRun(s, [step] + rest) && Final(s, [step] + rest) == Final(n, rest)
  {
  }

  // ----- Requests nobody heard, and requests replaced -----

  predicate Genuine(o: Outcome) { o.Granted? || o.Denied? }

  /** Every respond call carries a grant or a denial. */
  predicate GenuineSteps(steps: seq<Step>) {
    forall i :: 0 <= i < |steps| && steps[i].Take? ==> Genuine(steps[i].outcome)
  }

  predicate GenuineState(s: State) {
    && (forall r :: 0 <= r < |s.responders| ==> Genuine(s.responders[r].outcome))
    && (forall t :: 0 <= t < |s.requests| && s.requests[t].channel.Sent? ==> Genuine(s.requests[t].channel.outcome))
  }

  lemma {:induction false} NextKeepsGenuine(s: State, step: Step)
    requires GenuineState(s) && Enabled(s, step) && (step.Take? ==> Genuine(step.outcome))
    ensures GenuineState(Next(s, step))
  {
  }

  predicate Unanswered(s: State, t: nat) {
    t < |s.requests| && (s.requests[t].phase == Unheard || s.requests[t].phase == Done(NoListener))
  }

  lemma {:induction false} UnansweredStep(s: State, step: Step, t: nat)
    requires GenuineState(s) && Enabled(s, step)
    ensures Unanswered(Next(s, step), t) <==> Unanswered(s, t) || step == FanOut(t, 0)
  {
  }

  lemma {:induction false} UnansweredRun(s: State, steps: seq<Step>, t: nat)
    requires GenuineState(s) && GenuineSteps(steps) && ValidRun(s, steps)
    ensures Unanswered(Final(s, steps), t) <==> Unanswered(s, t) || FanOut(t, 0) in steps
    decreases |steps|
  {
    if steps != [] {
      UnansweredStep(s, steps[0], t);
      NextKeepsGenuine(s, steps[0]);
      UnansweredRun(Next(s, steps[0]), steps[1..], t);
      assert steps == [steps[0]] + steps[1..];
    }
  }

  /** A finished request reports that nobody listened exactly when its fan-out reached nobody. */
  lemma {:induction false} NoListenerExactly(steps: seq<Step>, t: nat)
    requires ValidRun(Empty, steps) && GenuineSteps(steps)
    requires t < |Final(Empty, steps).requests| && Final(Empty, steps).requests[t].phase.Done?
    ensures Final(Empty, steps).requests[t].phase.result == NoListener <==> FanOut(t, 0) in steps
  {
    UnansweredRun(Empty, steps, t);
  }

  predicate Dropped(s: State, t: nat) { t < |s.requests| && s.requests[t].channel.Closed? }

  lemma {:induction false} DroppedStep(s: State, step: Step, t: nat)
    requires Inv(s) && Dropped(s, t) && Enabled(s, step)
    ensures Dropped(Next(s, step), t)
  {
  }

  lemma {:induction false} DroppedRun(s: State, steps: seq<Step>, t: nat)
    requires Inv(s) && Dropped(s, t) && ValidRun(s, steps)
    ensures Dropped(Final(s, steps), t)
    decreases |steps|
  {
    if steps != [] {
      NextKeepsInv(s, steps[0]);
      DroppedStep(s, steps[0], t);
      DroppedRun(Next(s, steps[0]), steps[1..], t);
    }
  }

  /** Registering an id that is still pending ends the older request unanswered, whatever happens later: when it
      finishes it has timed out, or found no listener. */
  lemma {:induction false} ReplacedNeverAnswered(before: seq<Step>, id: string, after: seq<Step>)
    requires ValidRun(Empty, before) && id in Final(Empty, before).pending
    requires ValidRun(Next(Final(Empty, before), Register(id)), after)
    ensures
      var t := Final(Empty, before).pending[id];
      var s := Final(Next(Final(Empty, before), Register(id)), after);
      && t < |s.requests| && s.requests[t].id == id
      && (s.requests[t].phase.Done? ==> s.requests[t].phase.result in {TimedOut, NoListener})
  {
    RunKeepsInv(Empty, before);
    var b := Final(Empty, before);
    var n, t := Next(b, Register(id)), b.pending[id];
    NextKeepsInv(b, Register(id));
    DroppedRun(n, after, t);
    RunKeepsInv(n, after);
    RunKeepsIds(n, after);
    assert RequestOk(Final(n, after), t);
  }

  lemma {:induction false} RunKeepsIds(s: State, steps: seq<Step>)
    requires ValidRun(s, steps)
    ensures |s.requests| <= |Final(s, steps).requests|
    ensures forall t :: 0 <= t < |s.requests| ==> Final(s, steps).requests[t].id == s.requests[t].id
    decreases |steps|
  {
    if steps != [] {
      IdsKept(s, steps[0]);
      RunKeepsIds(Next(s, steps[0]), steps[1..]);
    }
  }

  // ----- Distinct ids: only a request's own timer ends it early -----

  predicate DistinctIds(s: State) {
    forall t, u :: 0 <= t < u < |s.requests| ==> s.requests[t].id != s.requests[u].id
  }

  /** A channel is closed under a request only when another request reused its id, or the request is over. */
  ghost predicate ClosedOk(s: State) {
    DistinctIds(s) ==> forall t :: 0 <= t < |s.requests| && s.requests[t].channel.Closed? ==> s.requests[t].phase.Done?
  }

  lemma {:induction false} IdsKept(s: State, step: Step)
    requires Enabled(s, step)
    ensures |s.requests| <= |Next(s, step).requests|
    ensures forall t :: 0 <= t < |s.requests| ==> Next(s, step).requests[t].id == s.requests[t].id
  {
  }

  lemma {:induction false} RegisterKeepsClosedOk(s: State, id: string)
    requires PendingOk(s) && ClosedOk(s) && DistinctIds(s) && forall t :: 0 <= t < |s.requests| ==> s.requests[t].id != id
    ensures ClosedOk(Next(s, Register(id)))
  {
    assert id !in s.pending;
  }

  lemma {:induction false} OtherKeepsClosedOk(s: State, step: Step)
    requires Inv(s) && ClosedOk(s) && DistinctIds(s) && Enabled(s, step) && !step.Register?
    ensures ClosedOk(Next(s, step))
  {
  }

  lemma {:induction false} NextKeepsClosedOk(s: State, step: Step)
    requires Inv(s) && ClosedOk(s) && Enabled(s, step)
    ensures ClosedOk(Next(s, step))
  {
    var n := Next(s, step);
    IdsKept(s, step);
    if DistinctIds(n) {
      assert DistinctIds(s);
      if step.Register? {
        assert n.requests[|s.requests|].id == step.id;
        RegisterKeepsClosedOk(s, step.id);
      } else {
        OtherKeepsClosedOk(s, step);
      }
    }
  }

  lemma {:induction false} RunKeepsClosedOk(s: State, steps: seq<Step>)
    requires Inv(s) && ClosedOk(s) && ValidRun(s, steps)
    ensures ClosedOk(Final(s, steps))
    decreases |steps|
  {
    if steps != [] {
      NextKeepsInv(s, steps[0]);
      NextKeepsClosedOk(s, steps[0]);
      RunKeepsClosedOk(Next(s, steps[0]), steps[1..]);
    }
  }

  /** While request ids are distinct the sender-dropped branch of a waiting request is unreachable. */
  lemma {:induction false} SenderNeverDropped(steps: seq<Step>, t: nat)
    requires ValidRun(Empty, steps) && DistinctIds(Final(Empty, steps))
    ensures !Enabled(Final(Empty, steps), SeeClosed(t))
  {
    RunKeepsClosedOk(Empty, steps);
  }

  // ----- The registry object -----

  /** An uninterrupted `respond` call. */
  ghost function WholeRespond(s: State, id: string, o: Outcome): State
    requires Inv(s)
  {
    TakeKeeps(s, id, o);
    var taken := Next(s, Take(id, o));
    var r := |s.responders|;
    if id in s.pending then Next(Next(taken, Deliver(r)), Broadcast(r)) else taken
  }

  class ApprovalRegistry {
    var requests: seq<Request>
    var pending: map<string, nat>
    var responders: seq<Responder>
    var resolved: seq<Notice>

    function View(): State
      reads this
    {
      State(requests, pending, responders, resolved)
    }

    constructor ()
      ensures View() == Empty
    {
      requests, pending, responders, resolved := [], map[], [], [];
    }

    /** Accepts exactly when a sender is filed under the id. */
    method Respond(id: string, outcome: Outcome) returns (accepted: bool)
      requires Inv(View())
      modifies this
      ensures Inv(View()) && View() == WholeRespond(old(View()), id, outcome)
      ensures accepted == (id in old(pending))
    {
      ghost var s0 := View();
      var r := |responders|;
      accepted := id in pending;
      TakeKeeps(s0, id, outcome);
      if !accepted {
        pending := pending - {id};
        responders := responders + [Responder(id, outcome, Refused)];
        return;
      }
      var t := pending[id];
      pending := pending - {id};
      responders := responders + [Responder(id, outcome, Took(t))];
      DeliverKeeps(View(), r);
      requests := requests[t := requests[t].(channel := Sent(outcome))];
      responders := responders[r := Responder(id, outcome, Delivered(t))];
      BroadcastKeeps(View(), r);
      responders := responders[r := Responder(id, outcome, Accepted(t))];
      resolved := resolved + [Notice(r, id, outcome)];
    }

    /** Filing a sender; one already filed under the id is dropped. */
    method Register(id: string) returns (t: nat)
      requires Inv(View())
      modifies this
      ensures Inv(View()) && View() == Next(old(View()), Step.Register(id)) && t == |old(requests)|
    {
      RegisterKeeps(View(), id);
      t := |requests|;
      if id in pending {
        requests := requests[pending[id] := requests[pending[id]].(channel := Closed)];
      }
      requests := requests + [Request(id, Registered, Open)];
      pending := pending[id := t];
      assert View() == Next(old(View()), Step.Register(id));
    }

    /** The clean-up after a timer fired: whatever is filed under the id goes. */
    method DropExpired(t: nat) returns (result: Outcome)
      requires Inv(View()) && Enabled(View(), Step.DropExpired(t))
      modifies this
      ensures Inv(View()) && View() == Next(old(View()), Step.DropExpired(t)) && result == TimedOut
    {
      NextKeepsInv(View(), Step.DropExpired(t));
      var id := requests[t].id;
      if id in pending {
        requests := requests[pending[id] := requests[pending[id]].(channel := Closed)];
      }
      pending := pending - {id};
      requests := requests[t := requests[t].(phase := Done(TimedOut))];
      result := TimedOut;
    }
  }

  // ----- Combining plugin decisions -----

  datatype Decision = Allow | Deny | Defer
  datatype Verdict = Verdict(plugin: string, decision: Decision, reason: string)

  /** The first verdict with the given decision. */
  predicate FirstOf(vs: seq<Verdict>, d: Decision, i: int) {
    0 <= i < |vs| && vs[i].decision == d && forall j :: 0 <= j < i ==> vs[j].decision != d
  }

  predicate NoneOf(vs: seq<Verdict>, d: Decision) { forall j :: 0 <= j < |vs| ==> vs[j].decision != d }

  /** Deny over Allow over Defer: the first deny wins, else the first allow, else nobody decides. */
  method CombineVerdicts(vs: seq<Verdict>) returns (r: Option<Verdict>)
    ensures forall i :: FirstOf(vs, Deny, i) ==> r == Some(vs[i])
    ensures forall i :: NoneOf(vs, Deny) && FirstOf(vs, Allow, i) ==> r == Some(vs[i])
    ensures NoneOf(vs, Deny) && NoneOf(vs, Allow) ==> r == None
  {
    var combined := Verdict("", Defer, "");
    var i := 0;
    while i < |vs|
      invariant 0 <= i <= |vs|
      invariant NoneOf(vs[..i], Deny)
      invariant combined.decision == Defer ==> NoneOf(vs[..i], Allow)
      invariant combined.decision != Defer ==> exists k :: FirstOf(vs[..i], Allow, k) && combined == vs[k]
    {
      if vs[i].decision == Deny {
        combined := vs[i];
        assert FirstOf(vs, Deny, i);
        return Some(combined);
      } else if vs[i].decision == Allow && combined.decision != Allow {
        combined := vs[i];
        assert FirstOf(vs[..i + 1], Allow, i);
      } else if combined.decision != Defer {
        var k :| FirstOf(vs[..i], Allow, k) && combined == vs[k];
        assert FirstOf(vs[..i + 1], Allow, k);
      }
      i := i + 1;
    }
    assert vs[..i] == vs;
    r := if combined.decision == Defer then None else Some(combined);
  }
}
