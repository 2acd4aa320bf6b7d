/** A client that makes calls, the daemon's end of the session, and a queue of frames in each direction. */
module WsSession {
  import opened Text
  import W = WsServer
  import opened WsServer

  /** `clientToken` is the client's idea of the token, sent in a handshake frame if `clientSendsAuth`. */
  datatype Setup = Setup(cfg: Config, clientToken: string, clientSendsAuth: bool)

  datatype Client = Offline | AwaitingAck | Ready | Calling | Failed

  /** `up` are the frames on their way to the server, and the first `received` of those it sent have reached the
      client. `calls` and `results` are the requests the client made and the texts it got for them. */
  datatype Session = Session(server: Server, client: Client, up: seq<Frame>, received: nat,
                             calls: seq<Body>, results: seq<Body>)

  const Opened := Session(New, Offline, [], 0, [], [])

  datatype Step =
    | ServerStep(step: W.Step)
    | ClientStart
    | ClientAck
    | ClientCall(request: Body)
    | ClientNoise(frame: Frame)
    | ClientRead

  predicate Arriving(s: Session) { s.received < |s.server.sent| }

  predicate Enabled(u: Setup, s: Session, step: Step) {
    match step
    case ServerStep(t) => W.Enabled(s.server, t) && (t.Receive? ==> s.up != [] && t.frame == s.up[0])
    case ClientStart => s.client.Offline?
    case ClientAck => s.client.AwaitingAck? && Arriving(s)
    case ClientCall(b) => s.client.Ready? && IsRpc(u.cfg.known, b)
    case ClientNoise(f) => (s.client.Ready? || s.client.Calling?) && !f.Text?
    case ClientRead => s.client.Calling? && Arriving(s)
  }

  function Next(u: Setup, s: Session, step: Step): Session
    requires Enabled(u, s, step)
  {
    match step
    case ServerStep(t) => s.(server := W.Next(u.cfg, s.server, t), up := if t.Receive? then s.up[1..] else s.up)
    case ClientStart =>
      s.(client := AwaitingAck, up := s.up + if u.clientSendsAuth then [Frame.Text(AuthBody(u.clientToken))] else [])
    case ClientAck =>
      s.(received := s.received + 1, client := if s.server.sent[s.received] == Frame.Text(Ack) then Ready else Failed)
    case ClientCall(b) => s.(client := Calling, up := s.up + [Frame.Text(b)], calls := s.calls + [b])
    case ClientNoise(f) => s.(up := s.up + [f])
    case ClientRead =>
      var r := s.(received := s.received + 1);
      match s.server.sent[s.received]
      case Text(b) => r.(client := Ready, results := s.results + [b])
      case Close => r.(client := Failed)
      case _ => r
  }

  predicate ValidRun(u: Setup, s: Session, steps: seq<Step>)
    decreases |steps|
  {
    steps == [] || (Enabled(u, s, steps[0]) && ValidRun(u, Next(u, s, steps[0]), steps[1..]))
  }

  function Final(u: Setup, s: Session, steps: seq<Step>): Session
    requires ValidRun(u, s, steps)
    decreases |steps|
  {
    if steps == [] then s else Final(u, Next(u, s, steps[0]), steps[1..])
  }

  // ----- Texts of queues and histories -----

  lemma {:induction false} TextsConcat(a: seq<Frame>, b: seq<Frame>)
    ensures Texts(a + b) == Texts(a) + Texts(b)
  {
    if b == [] {
      assert a + b == a;
    } else {
      assert (a + b)[..|a + b| - 1] == a + b[..|b| - 1];
      TextsConcat(a, b[..|b| - 1]);
    }
  }

  /** The texts to be answered, given all texts read: the first one is left out when it was the handshake, or
      when the session was authenticated beforehand and the handshake was sent all the same. */
  function Owed(pre: bool, ts: seq<Body>): seq<Body> {
    if ts == [] then []
    else if !pre || IsLegacyAuth(ts[0]) then ts[1..]
    else ts
  }

  function RequestsOf(xs: seq<Exchange>): (r: seq<Body>)
    ensures |r| == |xs| && forall i :: 0 <= i < |xs| ==> r[i] == xs[i].request
  {
    seq(|xs|, i requires 0 <= i < |xs| => xs[i].request)
  }

  predicate AllTexts(read: seq<Frame>, ps: seq<nat>) {
    forall i :: 0 <= i < |ps| ==> ps[i] < |read| && read[ps[i]].Text?
  }

  function BodiesAt(read: seq<Frame>, ps: seq<nat>): (r: seq<Body>)
    requires AllTexts(read, ps)
    ensures |r| == |ps| && forall i :: 0 <= i < |ps| ==> r[i] == read[ps[i]].body
  {
    seq(|ps|, i requires 0 <= i < |ps| => read[ps[i]].body)
  }

  lemma {:induction false} LeadingText(fs: seq<Frame>)
    requires fs != [] && fs[0].Text?
    ensures Texts(fs) != [] && Texts(fs)[0] == fs[0].body
  {
    assert fs == [fs[0]] + fs[1..];
    TextsConcat([fs[0]], fs[1..]);
  }

  lemma {:induction false} OwedGrows(pre: bool, ts: seq<Body>, b: Body)
    ensures Owed(pre, ts + [b])
         == if if pre then ts == [] && IsLegacyAuth(b) else ts == [] then Owed(pre, ts) else Owed(pre, ts) + [b]
  {
  }

  lemma {:induction false} BodiesGrow(h: seq<Frame>, f: Frame, ps: seq<nat>)
    requires AllTexts(h, ps)
    ensures AllTexts(h + [f], ps) && BodiesAt(h + [f], ps) == BodiesAt(h, ps)
    ensures f.Text? ==> AllTexts(h + [f], ps + [|h|]) && BodiesAt(h + [f], ps + [|h|]) == BodiesAt(h, ps) + [f.body]
  {
  }

  /** The frames owed hold the texts owed, when the first frame of a session not authenticated beforehand is a
      text, as it is in an open session. */
  lemma {:induction false} OwedTexts(pre: bool, read: seq<Frame>)
    requires !pre && read != [] ==> read[0].Text?
    ensures AllTexts(read, OwedAt(pre, read)) && BodiesAt(read, OwedAt(pre, read)) == Owed(pre, Texts(read))
  {
    if read != [] {
      var n := |read| - 1;
      var h, f := read[..n], read[n];
      assert read == h + [f];
      OwedTexts(pre, h);
      OwedTextsStep(pre, h, f);
    }
  }

  lemma {:induction false} OwedTextsStep(pre: bool, h: seq<Frame>, f: Frame)
    requires !pre ==> (h + [f])[0].Text?
    requires AllTexts(h, OwedAt(pre, h)) && BodiesAt(h, OwedAt(pre, h)) == Owed(pre, Texts(h))
    ensures AllTexts(h + [f], OwedAt(pre, h + [f]))
    ensures BodiesAt(h + [f], OwedAt(pre, h + [f])) == Owed(pre, Texts(h + [f]))
  {
    if h != [] && h[0].Text? { LeadingText(h); }
    TextsSnoc(h, f);
    OwedAtSnoc(pre, h, f);
    BodiesGrow(h, f, OwedAt(pre, h));
    if f.Text? { OwedGrows(pre, Texts(h), f.body); }
  }

  lemma {:induction false} AnswersTexts(cfg: Config, s: Server)
    requires W.Inv(cfg, s) && s.admitted && !s.phase.Fresh?
    ensures RequestsOf(s.served) == Owed(PreAuthenticated(cfg), Texts(s.read))
  {
    OwedTexts(PreAuthenticated(cfg), s.read);
    assert RequestsOf(s.served) == BodiesAt(s.read, OwedAt(PreAuthenticated(cfg), s.read));
  }

  // ----- What every step keeps -----

  function Handshake(u: Setup, client: Client): seq<Body> {
    if u.clientSendsAuth && !client.Offline? then [AuthBody(u.clientToken)] else []
  }

  /** Client side, given the texts sent and received: what was sent is the handshake, if it is sent, and the
      calls; what was received is the acknowledgement and the results. */
  predicate ClientInv(u: Setup, client: Client, sent: seq<Body>, recv: seq<Body>, calls: seq<Body>, results: seq<Body>) {
    && sent == Handshake(u, client) + calls
    && (client.Offline? || client.AwaitingAck? ==> calls == [] && recv == [] && results == [])
    && (client.Ready? || client.Calling? ==> recv == [Ack] + results)
    && (client.Ready? ==> |results| == |calls|)
    && (client.Calling? ==> |results| + 1 == |calls|)
    && (client.Failed? ==> results == [] || [Ack] + results <= recv)
    && (calls != [] ==> recv != [] && recv[0] == Ack)
    && (forall i :: 0 <= i < |calls| ==> IsRpc(u.cfg.known, calls[i]))
  }

  predicate ClientSide(u: Setup, s: Session) {
    && s.received <= |s.server.sent|
    && ClientInv(u, s.client, Texts(s.server.read + s.up), Texts(s.server.sent[..s.received]), s.calls, s.results)
  }

  /** Without a token at the upgrade only a client that sends the handshake gets in. */
  predicate Inv(u: Setup, s: Session) {
    && W.Inv(u.cfg, s.server)
    && (s.server.phase.Fresh? ==> !s.server.admitted)
    && ClientSide(u, s)
    && (s.server.admitted && !PreAuthenticated(u.cfg) ==> u.clientSendsAuth)
  }

  lemma {:induction false} SentGrows(cfg: Config, s: Server, t: W.Step)
    requires W.Enabled(s, t)
    ensures s.sent <= W.Next(cfg, s, t).sent
    ensures W.Next(cfg, s, t).read == if t.Receive? then s.read + [t.frame] else s.read
  {
  }

  lemma {:induction false} SameClient(u: Setup, s: Session, n: Session)
    requires ClientSide(u, s) && s.server.sent <= n.server.sent && n.server.read + n.up == s.server.read + s.up
    requires n.client == s.client && n.received == s.received && n.calls == s.calls && n.results == s.results
    ensures ClientSide(u, n)
  {
    assert n.server.sent[..s.received] == s.server.sent[..s.received];
  }

  lemma {:induction false} ServerKeepsClient(u: Setup, s: Session, t: W.Step)
    requires ClientSide(u, s) && Enabled(u, s, ServerStep(t))
    ensures ClientSide(u, Next(u, s, ServerStep(t)))
  {
    SentGrows(u.cfg, s.server, t);
    SameClient(u, s, Next(u, s, ServerStep(t)));
  }

  /** A server still waiting for a token has sent nothing, so a text that reaches it is the client's handshake. */
  lemma {:induction false} OnlyHandshakeWaits(u: Setup, s: Session)
    requires Inv(u, s) && s.server.phase.AwaitingAuth? && s.up != [] && s.up[0].Text?
    ensures u.clientSendsAuth
  {
    assert s.server.sent[..s.received] == [];
    assert s.server.read + s.up == s.up;
    LeadingText(s.up);
  }

  lemma {:induction false} ServerStepKeeps(u: Setup, s: Session, t: W.Step)
    requires Inv(u, s) && Enabled(u, s, ServerStep(t))
    ensures Inv(u, Next(u, s, ServerStep(t)))
  {
    W.NextKeepsInv(u.cfg, s.server, t);
    ServerKeepsClient(u, s, t);
    if s.server.phase.AwaitingAuth? && t.Receive? && t.frame.Text? { OnlyHandshakeWaits(u, s); }
  }

  lemma {:induction false} Handshaken(u: Setup, sent: seq<Body>, recv: seq<Body>, calls: seq<Body>, results: seq<Body>)
    requires ClientInv(u, Offline, sent, recv, calls, results)
    ensures ClientInv(u, AwaitingAck, sent + Handshake(u, AwaitingAck), recv, calls, results)
  {
  }

  lemma {:induction false} HandshakeSent(u: Setup, s: Session)
    requires Enabled(u, s, ClientStart)
    ensures
      var n := Next(u, s, ClientStart);
      Texts(n.server.read + n.up) == Texts(s.server.read + s.up) + Handshake(u, AwaitingAck)
  {
    var f := Frame.Text(AuthBody(u.clientToken));
    TextsSnoc(s.server.read + s.up, f);
    assert s.server.read + (s.up + [f]) == (s.server.read + s.up) + [f];
    assert s.up + [] == s.up;
  }

  lemma {:induction false} ClientStartKeeps(u: Setup, s: Session)
    requires ClientSide(u, s) && Enabled(u, s, ClientStart)
    ensures ClientSide(u, Next(u, s, ClientStart))
  {
    HandshakeSent(u, s);
    Handshaken(u, Texts(s.server.read + s.up), Texts(s.server.sent[..s.received]), s.calls, s.results);
  }

  lemma {:induction false} ClientCallKeeps(u: Setup, s: Session, b: Body)
    requires ClientSide(u, s) && Enabled(u, s, ClientCall(b))
    ensures ClientSide(u, Next(u, s, ClientCall(b)))
  {
    TextsSnoc(s.server.read + s.up, Frame.Text(b));
    assert s.server.read + (s.up + [Frame.Text(b)]) == (s.server.read + s.up) + [Frame.Text(b)];
    assert Handshake(u, s.client) + s.calls + [b] == Handshake(u, s.client) + (s.calls + [b]);
  }

  lemma {:induction false} ClientNoiseKeeps(u: Setup, s: Session, f: Frame)
    requires ClientSide(u, s) && Enabled(u, s, ClientNoise(f))
    ensures ClientSide(u, Next(u, s, ClientNoise(f)))
  {
    TextsSnoc(s.server.read + s.up, f);
    assert s.server.read + (s.up + [f]) == (s.server.read + s.up) + [f];
  }

  /** Taking one more of the frames sent. */
  lemma {:induction false} Arrival(s: Session)
    requires Arriving(s)
    ensures
      var sent := s.server.sent;
      Texts(sent[..s.received + 1])
      == Texts(sent[..s.received]) + if sent[s.received].Text? then [sent[s.received].body] else []
  {
    assert s.server.sent[..s.received + 1] == s.server.sent[..s.received] + [s.server.sent[s.received]];
    TextsSnoc(s.server.sent[..s.received], s.server.sent[s.received]);
  }

  lemma {:induction false} ClientAckKeeps(u: Setup, s: Session)
    requires ClientSide(u, s) && Enabled(u, s, ClientAck)
    ensures ClientSide(u, Next(u, s, ClientAck))
  {
    Arrival(s);
  }

  lemma {:induction false} ResultArrives(u: Setup, sent: seq<Body>, recv: seq<Body>, calls: seq<Body>,
                                         results: seq<Body>, b: Body)
    requires ClientInv(u, Calling, sent, recv, calls, results)
    ensures ClientInv(u, Ready, sent, recv + [b], calls, results + [b])
  {
  }

  lemma {:induction false} CallFails(u: Setup, sent: seq<Body>, recv: seq<Body>, calls: seq<Body>, results: seq<Body>)
    requires ClientInv(u, Calling, sent, recv, calls, results)
    ensures ClientInv(u, Failed, sent, recv, calls, results)
  {
  }

  lemma {:induction false} ClientReadKeeps(u: Setup, s: Session)
    requires ClientSide(u, s) && Enabled(u, s, ClientRead)
    ensures ClientSide(u, Next(u, s, ClientRead))
  {
    var f, sent, recv := s.server.sent[s.received], Texts(s.server.read + s.up), Texts(s.server.sent[..s.received]);
    Arrival(s);
    if f.Text? {
      ResultArrives(u, sent, recv, s.calls, s.results, f.body);
    } else {
      assert recv + [] == recv;
      CallFails(u, sent, recv, s.calls, s.results);
    }
  }

  lemma {:induction false} NextKeepsInv(u: Setup, s: Session, step: Step)
    requires Inv(u, s) && Enabled(u, s, step)
    ensures Inv(u, Next(u, s, step))
  {
    match step
    case ServerStep(t) => ServerStepKeeps(u, s, t);
    case ClientStart => ClientStartKeeps(u, s);
    case ClientCall(b) => ClientCallKeeps(u, s, b);
    case ClientNoise(f) => ClientNoiseKeeps(u, s, f);
    case ClientAck => ClientAckKeeps(u, s);
    case ClientRead => ClientReadKeeps(u, s);
  }

  lemma {:induction false} RunKeepsInv(u: Setup, s: Session, steps: seq<Step>)
    requires Inv(u, s) && ValidRun(u, s, steps)
    ensures Inv(u, Final(u, s, steps))
    decreases |steps|
  {
    if steps != [] {
      NextKeepsInv(u, s, steps[0]);
      RunKeepsInv(u, Next(u, s, steps[0]), steps[1..]);
    }
  }

  // ----- Pairing, over every interleaving -----

  lemma {:induction false} OwedIsCalls(u: Setup, s: Session)
    requires Inv(u, s) && s.server.admitted
    ensures RequestsOf(s.server.served) <= s.calls
  {
    AnswersTexts(u.cfg, s.server);
    TextsConcat(s.server.read, s.up);
    var ts, all := Texts(s.server.read), Handshake(u, s.client) + s.calls;
    assert ts <= all;
    if ts != [] {
      assert ts[0] == all[0];
      if Handshake(u, s.client) == [] {
        assert all == s.calls;
        RpcIsNotLegacy(u.cfg.known, ts[0]);
      } else {
        assert all[1..] == s.calls && ts[1..] <= all[1..];
      }
    }
  }

  lemma {:induction false} ReceivedTexts(sent: seq<Frame>, n: nat)
    requires n <= |sent|
    ensures Texts(sent[..n]) <= Texts(sent)
  {
    assert sent == sent[..n] + sent[n..];
    TextsConcat(sent[..n], sent[n..]);
  }

  lemma {:induction false} DropHead(x: Body, xs: seq<Body>, ys: seq<Body>)
    requires [x] + xs <= [x] + ys
    ensures xs <= ys
  {
    assert ([x] + xs)[1..] == xs && ([x] + ys)[1..] == ys;
  }

  lemma {:induction false} ResultsArePrefix(u: Setup, s: Session)
    requires Inv(u, s) && s.results != []
    ensures s.server.admitted && s.results <= ResponsesOf(s.server.served)
  {
    var all := Texts(s.server.sent);
    ReceivedTexts(s.server.sent, s.received);
    assert [Ack] + s.results <= all;
    assert all[0] == Ack;
    DropHead(Ack, s.results, ResponsesOf(s.server.served));
  }

  /** Pairing: whatever the authentication path, the tokens and the interleaving, the client's k-th result is the
      daemon's answer to the client's k-th call, and that call was dispatched. */
  lemma {:induction false} KthResultAnswersKthCall(u: Setup, steps: seq<Step>, k: nat)
    requires ValidRun(u, Opened, steps) && k < |Final(u, Opened, steps).results|
    ensures
      var s := Final(u, Opened, steps);
      && k < |s.server.served| && k < |s.calls|
      && s.server.served[k].request == s.calls[k]
      && s.results[k] == s.server.served[k].response
      && s.server.served[k].dispatched
  {
    RunKeepsInv(u, Opened, steps);
    var s := Final(u, Opened, steps);
    ResultsArePrefix(u, s);
    OwedIsCalls(u, s);
    assert RequestsOf(s.server.served)[k] == s.calls[k];
    assert ResponsesOf(s.server.served)[k] == s.results[k];
  }

  /** A client gets results only if the upgrade carried the daemon's token or the client sends it. */
  lemma {:induction false} ResultsNeedToken(u: Setup, steps: seq<Step>)
    requires ValidRun(u, Opened, steps) && Final(u, Opened, steps).results != []
    ensures
      || u.cfg.headerToken == Some(u.cfg.token)
      || u.cfg.queryToken == Some(u.cfg.token)
      || (u.clientSendsAuth && u.clientToken == u.cfg.token)
  {
    RunKeepsInv(u, Opened, steps);
    var s := Final(u, Opened, steps);
    ResultsArePrefix(u, s);
    if !PreAuthenticated(u.cfg) {
      LeadingText(s.server.read);
      TextsConcat(s.server.read, s.up);
      assert (Handshake(u, s.client) + s.calls)[0] == s.server.read[0].body;
      assert AuthBody(u.clientToken).json.fields["auth"] == JStr(u.clientToken);
    }
  }
}
