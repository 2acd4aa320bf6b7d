/** The daemon's end of a WebSocket session, `handle_socket`, against a peer that may send anything. */
module WsServer {
  import opened Text

  // ----- Frames and their classification -----

  datatype Json =
    | JNull | JBool(b: bool) | JNum(n: int) | JStr(s: string) | JArr(items: seq<Json>) | JObj(fields: map<string, Json>)

  /** Text of a frame: not JSON, or the JSON value it holds. */
  datatype Body = Malformed(raw: string) | Parsed(json: Json)

  /** `Close` also stands for the end of the stream. */
  datatype Frame = Text(body: Body) | Binary | Control | Close

  predicate HasStr(b: Body, key: string) {
    b.Parsed? && b.json.JObj? && key in b.json.fields && b.json.fields[key].JStr?
  }

  predicate HasKey(b: Body, key: string) { b.Parsed? && b.json.JObj? && key in b.json.fields }

  predicate IsLegacyAuth(b: Body) {
    HasStr(b, "auth") && !HasKey(b, "jsonrpc") && !HasKey(b, "method")
  }

  /** An RPC request needs the version and a method; `known` decides the method and its parameters. Other fields
      are ignored. */
  predicate IsRpc(known: map<string, Json> -> bool, b: Body) {
    HasStr(b, "jsonrpc") && b.json.fields["jsonrpc"].s == "2.0" && HasStr(b, "method") && known(b.json.fields)
  }

  lemma {:induction false} RpcIsNotLegacy(known: map<string, Json> -> bool, b: Body)
    requires IsRpc(known, b)
    ensures !IsLegacyAuth(b)
  {
  }

  function AuthBody(token: string): Body { Parsed(JObj(map["auth" := JStr(token)])) }

  predicate Presents(f: Frame, token: string) {
    f.Text? && HasStr(f.body, "auth") && f.body.json.fields["auth"].s == token
  }

  const Ack := Parsed(JObj(map["auth" := JStr("ok"), "since" := JStr("now")]))
  const AuthFailed := Parsed(JObj(map["error" := JObj(map["message" := JStr("auth failed")])]))

  lemma {:induction false} AckIsNotFailure()
    ensures Ack != AuthFailed
  {
    assert "auth" in Ack.json.fields && "auth" !in AuthFailed.json.fields;
  }

  /** `constant_eq`: no early exit, yet exactly equality of the byte strings. */
  method ConstantEq(a: seq<bv8>, b: seq<bv8>) returns (r: bool)
    ensures r <==> a == b
  {
    if |a| != |b| { return false; }
    var diff: bv8 := 0;
    for i := 0 to |a|
      invariant diff == 0 <==> a[..i] == b[..i]
    {
      assert a[..i + 1] == a[..i] + [a[i]] && b[..i + 1] == b[..i] + [b[i]];
      XorZero(diff, a[i], b[i]);
      diff := diff | (a[i] ^ b[i]);
    }
    assert a[..|a|] == a && b[..|b|] == b;
    r := diff == 0;
  }

  lemma {:induction false} XorZero(d: bv8, x: bv8, y: bv8)
    ensures d | (x ^ y) == 0 <==> d == 0 && x == y
  {
  }

  function Texts(fs: seq<Frame>): seq<Body> {
    if fs == [] then []
    else Texts(fs[..|fs| - 1]) + if fs[|fs| - 1].Text? then [fs[|fs| - 1].body] else []
  }

  lemma {:induction false} TextsSnoc(fs: seq<Frame>, f: Frame)
    ensures Texts(fs + [f]) == Texts(fs) + if f.Text? then [f.body] else []
  {
  }

  // ----- What the server owes for the frames it has read -----

  /** `headerToken` and `queryToken` are the tokens presented with the upgrade, if any. */
  datatype Config = Config(token: string, headerToken: Option<string>, queryToken: Option<string>,
                           known: map<string, Json> -> bool)

  predicate PreAuthenticated(cfg: Config) {
    cfg.headerToken == Some(cfg.token) || cfg.queryToken == Some(cfg.token)
  }

  /** The text frame read as number k gets no answer: it is the first text and the handshake envelope, when the
      session was authenticated beforehand; otherwise it is the first frame, whatever else it says. */
  predicate Skipped(pre: bool, read: seq<Frame>, k: nat)
    requires k < |read| && read[k].Text?
  {
    if pre then Texts(read[..k]) == [] && IsLegacyAuth(read[k].body) else k == 0
  }

  /** The numbers of the frames to be answered, in order. */
  function OwedAt(pre: bool, read: seq<Frame>): seq<nat> {
    if read == [] then []
    else
      var n := |read| - 1;
      OwedAt(pre, read[..n]) + if read[n].Text? && !Skipped(pre, read, n) then [n] else []
  }

  lemma {:induction false} OwedAtSnoc(pre: bool, read: seq<Frame>, f: Frame)
    ensures OwedAt(pre, read + [f]) == OwedAt(pre, read)
              + if f.Text? && !(if pre then Texts(read) == [] && IsLegacyAuth(f.body) else read == []) then [|read|] else []
  {
    assert (read + [f])[..|read|] == read;
  }

  lemma {:induction false} OwedAtMember(pre: bool, read: seq<Frame>, k: nat)
    ensures k in OwedAt(pre, read) <==> k < |read| && read[k].Text? && !Skipped(pre, read, k)
  {
    if read != [] {
      var n := |read| - 1;
      OwedAtMember(pre, read[..n], k);
      if k < n { assert read[..n][..k] == read[..k]; }
    }
  }

  /** One text answered: the frame it answers, and whether the text was dispatched or refused as unparsable. */
  datatype Exchange = Exchange(at: nat, request: Body, response: Body, dispatched: bool)

  function AtOf(xs: seq<Exchange>): (r: seq<nat>)
    ensures |r| == |xs| && forall i :: 0 <= i < |xs| ==> r[i] == xs[i].at
  {
    seq(|xs|, i requires 0 <= i < |xs| => xs[i].at)
  }

  function ResponsesOf(xs: seq<Exchange>): (r: seq<Body>)
    ensures |r| == |xs| && forall i :: 0 <= i < |xs| ==> r[i] == xs[i].response
  {
    seq(|xs|, i requires 0 <= i < |xs| => xs[i].response)
  }

  /** Exactly the frames owed were answered, in order, and exactly the requests among them dispatched. */
  predicate Answers(cfg: Config, read: seq<Frame>, served: seq<Exchange>) {
    && AtOf(served) == OwedAt(PreAuthenticated(cfg), read)
    && forall i :: 0 <= i < |served| ==>
         && served[i].at < |read| && read[served[i].at] == Text(served[i].request)
         && served[i].dispatched == IsRpc(cfg.known, served[i].request)
  }

  lemma {:induction false} AnswersSkip(cfg: Config, read: seq<Frame>, served: seq<Exchange>, f: Frame)
    requires Answers(cfg, read, served)
    requires f.Text? ==> if PreAuthenticated(cfg) then Texts(read) == [] && IsLegacyAuth(f.body) else read == []
    ensures Answers(cfg, read + [f], served)
  {
    OwedAtSnoc(PreAuthenticated(cfg), read, f);
  }

  lemma {:induction false} AnswersOne(cfg: Config, read: seq<Frame>, served: seq<Exchange>, b: Body, answer: Body)
    requires Answers(cfg, read, served)
    requires !(if PreAuthenticated(cfg) then Texts(read) == [] && IsLegacyAuth(b) else read == [])
    ensures Answers(cfg, read + [Text(b)], served + [Exchange(|read|, b, answer, IsRpc(cfg.known, b))])
  {
    OwedAtSnoc(PreAuthenticated(cfg), read, Text(b));
    var n := served + [Exchange(|read|, b, answer, IsRpc(cfg.known, b))];
    assert AtOf(n) == AtOf(served) + [|read|];
  }

  // ----- The server as a state machine -----

  datatype Phase = Fresh | AwaitingAuth | Serving(mayDrain: bool) | Ended

  /** `read` and `sent` are all frames so far; `admitted` records that the session was opened. */
  datatype Server = Server(phase: Phase, read: seq<Frame>, sent: seq<Frame>, served: seq<Exchange>, admitted: bool)

  const New := Server(Fresh, [], [], [], false)

  /** `answer` is what the dispatcher, or the parse error, answers if the frame is answered. */
  datatype Step = Start | Receive(frame: Frame, answer: Body) | GiveUp | Ping | Shutdown

  predicate Enabled(s: Server, step: Step) {
    match step
    case Start => s.phase.Fresh?
    case Receive(_, _) => s.phase.AwaitingAuth? || s.phase.Serving?
    case GiveUp => s.phase.AwaitingAuth?
    case Ping => s.phase.Serving?
    case Shutdown => s.phase.Serving?
  }

  function Open(s: Server, mayDrain: bool): Server {
    s.(phase := Serving(mayDrain), admitted := true, sent := s.sent + [Text(Ack)])
  }

  function Authenticate(cfg: Config, s: Server, f: Frame): Server {
    var r := s.(read := s.read + [f]);
    if Presents(f, cfg.token) then Open(r, false)
    else r.(phase := Ended, sent := s.sent + if f.Text? then [Text(AuthFailed), Close] else [Close])
  }

  function Serve(cfg: Config, s: Server, f: Frame, answer: Body): Server
    requires s.phase.Serving?
  {
    var r := s.(read := s.read + [f]);
    match f
    case Close => r.(phase := Ended, sent := s.sent + [Close])
    case Text(b) =>
      if s.phase.mayDrain && IsLegacyAuth(b) then r.(phase := Serving(false))
      else r.(phase := Serving(false), sent := s.sent + [Text(answer)],
              served := s.served + [Exchange(|s.read|, b, answer, IsRpc(cfg.known, b))])
    case _ => r
  }

  function Next(cfg: Config, s: Server, step: Step): Server
    requires Enabled(s, step)
  {
    match step
    case Start => if PreAuthenticated(cfg) then Open(s, true) else s.(phase := AwaitingAuth)
    case Receive(f, answer) => if s.phase.AwaitingAuth? then Authenticate(cfg, s, f) else Serve(cfg, s, f, answer)
    case GiveUp => s.(phase := Ended, sent := s.sent + [Close])
    case Ping => s.(sent := s.sent + [Control])
    case Shutdown => s.(phase := Ended, sent := s.sent + [Close])
  }

  predicate ValidRun(cfg: Config, s: Server, steps: seq<Step>)
    decreases |steps|
  {
    steps == [] || (Enabled(s, steps[0]) && ValidRun(cfg, Next(cfg, s, steps[0]), steps[1..]))
  }

  function Final(cfg: Config, s: Server, steps: seq<Step>): Server
    requires ValidRun(cfg, s, steps)
    decreases |steps|
  {
    if steps == [] then s else Final(cfg, Next(cfg, s, steps[0]), steps[1..])
  }

  // ----- What every step keeps -----

  /** The session is open exactly when a matching token was shown, at the upgrade or in the first frame. */
  predicate TokenShown(cfg: Config, read: seq<Frame>) {
    PreAuthenticated(cfg) || (read != [] && Presents(read[0], cfg.token))
  }

  predicate PhaseInv(cfg: Config, s: Server) {
    && (s.phase.Fresh? ==> s.read == [] && s.sent == [] && !s.admitted)
    && (s.phase.AwaitingAuth? ==> s.read == [] && s.sent == [] && !PreAuthenticated(cfg))
    && (s.phase.Serving? ==> s.admitted && s.phase.mayDrain == (PreAuthenticated(cfg) && Texts(s.read) == []))
    && (!s.phase.Fresh? ==> (s.admitted <==> TokenShown(cfg, s.read)))
  }

  predicate AnswerInv(cfg: Config, s: Server) {
    if s.admitted then Answers(cfg, s.read, s.served) && Texts(s.sent) == [Ack] + ResponsesOf(s.served)
    else s.served == [] && Ack !in Texts(s.sent)
  }

  predicate Inv(cfg: Config, s: Server) { PhaseInv(cfg, s) && AnswerInv(cfg, s) }

  lemma {:induction false} NextKeepsPhase(cfg: Config, s: Server, step: Step)
    requires PhaseInv(cfg, s) && Enabled(s, step)
    ensures PhaseInv(cfg, Next(cfg, s, step))
  {
    if step.Receive? { TextsSnoc(s.read, step.frame); }
  }

  lemma {:induction false} OpenKeeps(cfg: Config, s: Server, mayDrain: bool)
    requires s.served == [] && s.sent == [] && Answers(cfg, s.read, [])
    ensures AnswerInv(cfg, Open(s, mayDrain))
  {
    TextsSnoc(s.sent, Text(Ack));
    assert [Ack] + ResponsesOf([]) == [Ack];
  }

  lemma {:induction false} AuthenticateKeeps(cfg: Config, s: Server, f: Frame)
    requires Inv(cfg, s) && s.phase.AwaitingAuth?
    ensures AnswerInv(cfg, Authenticate(cfg, s, f))
  {
    if Presents(f, cfg.token) {
      assert AtOf([]) == OwedAt(false, []);
      AnswersSkip(cfg, [], [], f);
      OpenKeeps(cfg, s.(read := s.read + [f]), false);
    } else {
      Refusal();
    }
  }

  lemma {:induction false} Refusal()
    ensures Ack !in Texts([Text(AuthFailed), Close]) && Ack !in Texts([Close])
  {
    AckIsNotFailure();
    assert [Text(AuthFailed), Close][..1] == [Text(AuthFailed)];
    assert Texts([Text(AuthFailed)]) == [AuthFailed];
  }

  lemma {:induction false} ServeKeeps(cfg: Config, s: Server, f: Frame, answer: Body)
    requires Inv(cfg, s) && s.phase.Serving?
    ensures AnswerInv(cfg, Serve(cfg, s, f, answer))
  {
    match f
    case Text(b) =>
      if s.phase.mayDrain && IsLegacyAuth(b) {
        AnswersSkip(cfg, s.read, s.served, f);
      } else {
        AnswersOne(cfg, s.read, s.served, b, answer);
        SendAnswer(s.sent, s.served, Exchange(|s.read|, b, answer, IsRpc(cfg.known, b)));
      }
    case _ =>
      AnswersSkip(cfg, s.read, s.served, f);
      TextsSnoc(s.sent, Close);
  }

  lemma {:induction false} SendAnswer(sent: seq<Frame>, served: seq<Exchange>, x: Exchange)
    requires Texts(sent) == [Ack] + ResponsesOf(served)
    ensures Texts(sent + [Text(x.response)]) == [Ack] + ResponsesOf(served + [x])
  {
    TextsSnoc(sent, Text(x.response));
    assert ResponsesOf(served + [x]) == ResponsesOf(served) + [x.response];
  }

  lemma {:induction false} NextKeepsInv(cfg: Config, s: Server, step: Step)
    requires Inv(cfg, s) && Enabled(s, step)
    ensures Inv(cfg, Next(cfg, s, step))
  {
    NextKeepsPhase(cfg, s, step);
    match step
    case Start =>
      assert AtOf([]) == OwedAt(PreAuthenticated(cfg), []);
      OpenKeeps(cfg, s, true);
    case Receive(f, a) => if s.phase.AwaitingAuth? { AuthenticateKeeps(cfg, s, f); } else { ServeKeeps(cfg, s, f, a); }
    case GiveUp => TextsSnoc(s.sent, Close);
    case Ping => TextsSnoc(s.sent, Control);
    case Shutdown => TextsSnoc(s.sent, Close);
  }

  lemma {:induction false} RunKeepsInv(cfg: Config, s: Server, steps: seq<Step>)
    requires Inv(cfg, s) && ValidRun(cfg, s, steps)
    ensures Inv(cfg, Final(cfg, s, steps))
    decreases |steps|
  {
    if steps != [] {
      NextKeepsInv(cfg, s, steps[0]);
      RunKeepsInv(cfg, Next(cfg, s, steps[0]), steps[1..]);
    }
  }

  // ----- What frames hold, field by field -----

  predicate IsObject(f: Frame) { f.Text? && f.body.Parsed? && f.body.json.JObj? }

  function Fields(f: Frame): map<string, Json>
    requires IsObject(f)
  {
    f.body.json.fields
  }

  /** The session's token was shown: as the upgrade's bearer protocol, as its query token, or as the string "auth"
      of the first frame. */
  predicate MatchingToken(cfg: Config, read: seq<Frame>) {
    || cfg.headerToken == Some(cfg.token)
    || cfg.queryToken == Some(cfg.token)
    || (read != [] && IsObject(read[0]) && "auth" in Fields(read[0]) && Fields(read[0])["auth"] == JStr(cfg.token))
  }

  /** Version "2.0", a method name, and the rest as the dispatcher's types want it. */
  predicate HoldsRequest(cfg: Config, f: Frame) {
    && IsObject(f)
    && "jsonrpc" in Fields(f) && Fields(f)["jsonrpc"] == JStr("2.0")
    && "method" in Fields(f) && Fields(f)["method"].JStr?
    && cfg.known(Fields(f))
  }

  /** A string "auth", and neither a version nor a method. */
  predicate HoldsEnvelope(f: Frame) {
    IsObject(f) && "auth" in Fields(f) && Fields(f)["auth"].JStr? && "jsonrpc" !in Fields(f) && "method" !in Fields(f)
  }

  predicate FirstText(read: seq<Frame>, k: nat) {
    k < |read| && read[k].Text? && forall i :: 0 <= i < k ==> !read[i].Text?
  }

  lemma {:induction false} NoTexts(fs: seq<Frame>)
    ensures Texts(fs) == [] <==> forall i :: 0 <= i < |fs| ==> !fs[i].Text?
  {
    if fs != [] {
      var n := |fs| - 1;
      NoTexts(fs[..n]);
      assert fs == fs[..n] + [fs[n]];
    }
  }

  // ----- Main results, whatever the peer sends -----

  /** The session opens exactly when a matching token was shown, at the upgrade or in the first frame; until
      then nothing is answered, let alone dispatched, and no acknowledgement is sent. */
  lemma {:induction false} NothingBeforeToken(cfg: Config, steps: seq<Step>)
    requires ValidRun(cfg, New, steps)
    ensures
      var s := Final(cfg, New, steps);
      && (!s.phase.Fresh? ==> (s.admitted <==> MatchingToken(cfg, s.read)))
      && (s.served != [] || Ack in Texts(s.sent) ==> s.admitted && MatchingToken(cfg, s.read))
  {
    RunKeepsInv(cfg, New, steps);
  }

  /** A session that has read a close, or was refused, reads no more. */
  predicate CloseInv(cfg: Config, s: Server) {
    && (forall k :: 0 <= k < |s.read| && s.read[k] == Close ==> k == |s.read| - 1 && s.phase.Ended?)
    && (s.phase.AwaitingAuth? || s.phase.Fresh? ==> s.read == [] && s.sent == [])
    && (s.read != [] && !s.admitted ==>
          s.phase.Ended? && |s.read| == 1 && s.sent == if s.read[0].Text? then [Text(AuthFailed), Close] else [Close])
    && (s.phase.Serving? ==> s.admitted)
  }

  lemma {:induction false} RunKeepsClose(cfg: Config, s: Server, steps: seq<Step>)
    requires CloseInv(cfg, s) && ValidRun(cfg, s, steps)
    ensures CloseInv(cfg, Final(cfg, s, steps))
    decreases |steps|
  {
    if steps != [] {
      NextKeepsClose(cfg, s, steps[0]);
      RunKeepsClose(cfg, Next(cfg, s, steps[0]), steps[1..]);
    }
  }

  lemma {:induction false} NextKeepsClose(cfg: Config, s: Server, step: Step)
    requires CloseInv(cfg, s) && Enabled(s, step)
    ensures CloseInv(cfg, Next(cfg, s, step))
  {
  }

  /** A close is the last frame read. A session refused at its first frame has read nothing else, and sent an error
      and a close for a text, a close alone otherwise. */
  lemma {:induction false} NothingAfterClose(cfg: Config, steps: seq<Step>)
    requires ValidRun(cfg, New, steps)
    ensures
      var s := Final(cfg, New, steps);
      && (forall k :: 0 <= k < |s.read| && s.read[k] == Close ==> k == |s.read| - 1 && s.phase == Ended)
      && (s.read != [] && !s.admitted ==>
            |s.read| == 1 && s.phase == Ended && s.sent == if s.read[0].Text? then [Text(AuthFailed), Close] else [Close])
  {
    RunKeepsClose(cfg, New, steps);
  }

  predicate AnsweredAt(served: seq<Exchange>, k: nat) { exists j :: 0 <= j < |served| && served[j].at == k }

  predicate Rising(ps: seq<nat>, n: nat) {
    && (forall i :: 0 <= i < |ps| ==> ps[i] < n)
    && (forall i, j :: 0 <= i < j < |ps| ==> ps[i] < ps[j])
  }

  lemma {:induction false} OwedRises(pre: bool, read: seq<Frame>)
    ensures Rising(OwedAt(pre, read), |read|)
  {
    if read != [] {
      var n := |read| - 1;
      OwedRises(pre, read[..n]);
      var h, ps := OwedAt(pre, read[..n]), OwedAt(pre, read);
      assert ps == h || ps == h + [n];
    }
  }

  /** The answers come in the order of the frames, each to the text of its frame, and exactly the requests are
      dispatched. */
  predicate InFrameOrder(cfg: Config, read: seq<Frame>, served: seq<Exchange>) {
    && (forall i, j :: 0 <= i < j < |served| ==> served[i].at < served[j].at)
    && (forall i :: 0 <= i < |served| ==>
          && served[i].at < |read| && read[served[i].at] == Text(served[i].request)
          && (served[i].dispatched <==> HoldsRequest(cfg, read[served[i].at])))
  }

  /** In an open session the text frames but one are answered. When the upgrade carried the token that one is the
      first text if it is a stale handshake envelope, otherwise it is the first frame. */
  predicate OwesAnswer(cfg: Config, read: seq<Frame>, k: nat)
    requires k < |read|
  {
    && read[k].Text?
    && if cfg.headerToken == Some(cfg.token) || cfg.queryToken == Some(cfg.token)
       then !(FirstText(read, k) && HoldsEnvelope(read[k])) else k > 0
  }

  /** What `Answers` says, frame by frame and field by field. */
  lemma {:induction false} AnswersMeaning(cfg: Config, read: seq<Frame>, served: seq<Exchange>)
    requires Answers(cfg, read, served)
    ensures InFrameOrder(cfg, read, served)
    ensures forall k :: 0 <= k < |read| ==> (AnsweredAt(served, k) <==> OwesAnswer(cfg, read, k))
  {
    var ps := OwedAt(PreAuthenticated(cfg), read);
    OwedRises(PreAuthenticated(cfg), read);
    assert AtOf(served) == ps;
    forall i, j | 0 <= i < j < |served| ensures served[i].at < served[j].at { assert ps[i] < ps[j]; }
    forall k | 0 <= k < |read| ensures AnsweredAt(served, k) <==> OwesAnswer(cfg, read, k) {
      OwedAtMember(PreAuthenticated(cfg), read, k);
      NoTexts(read[..k]);
      assert forall i :: 0 <= i < k ==> read[..k][i] == read[i];
      assert k in ps <==> AnsweredAt(served, k);
    }
  }

  /** An open session has sent the acknowledgement and the answers, and has answered exactly the frames it owes. */
  lemma {:induction false} AnswersWhatIsOwed(cfg: Config, steps: seq<Step>)
    requires ValidRun(cfg, New, steps) && Final(cfg, New, steps).admitted
    ensures
      var s := Final(cfg, New, steps);
      && Texts(s.sent) == [Ack] + ResponsesOf(s.served)
      && InFrameOrder(cfg, s.read, s.served)
      && forall k :: 0 <= k < |s.read| ==> (AnsweredAt(s.served, k) <==> OwesAnswer(cfg, s.read, k))
  {
    RunKeepsInv(cfg, New, steps);
    AnswersMeaning(cfg, Final(cfg, New, steps).read, Final(cfg, New, steps).served);
  }

  /** A frame that holds a request is answered exactly when the session is open and either was authenticated at
      the upgrade or the frame is not its first. */
  lemma {:induction false} RequestAnsweredExactly(cfg: Config, steps: seq<Step>, k: nat)
    requires ValidRun(cfg, New, steps) && k < |Final(cfg, New, steps).read|
    requires HoldsRequest(cfg, Final(cfg, New, steps).read[k])
    ensures
      var s := Final(cfg, New, steps);
      AnsweredAt(s.served, k)
      <==> s.admitted && (cfg.headerToken == Some(cfg.token) || cfg.queryToken == Some(cfg.token) || k > 0)
  {
    RunKeepsInv(cfg, New, steps);
    if Final(cfg, New, steps).admitted { AnswersWhatIsOwed(cfg, steps); }
  }

  /** A request that carries the token is a handshake as well. */
  function TokenRequest(token: string, m: string): Body {
    Parsed(JObj(map["jsonrpc" := JStr("2.0"), "method" := JStr(m), "auth" := JStr(token)]))
  }

  /** A request swallowed: sent as the first frame with the token among its fields, it opens the session and is
      never answered. */
  lemma {:induction false} RequestTakenAsHandshake(cfg: Config, m: string, answer: Body)
    requires !PreAuthenticated(cfg) && cfg.known(TokenRequest(cfg.token, m).json.fields)
    ensures
      var f := Text(TokenRequest(cfg.token, m));
      var steps := [Start, Receive(f, answer)];
      && HoldsRequest(cfg, f) && ValidRun(cfg, New, steps)
      && Final(cfg, New, steps).admitted && Final(cfg, New, steps).read == [f] && Final(cfg, New, steps).served == []
  {
    var f := Text(TokenRequest(cfg.token, m));
    var steps := [Start, Receive(f, answer)];
    var s1 := Next(cfg, New, Start);
    assert steps[1..] == [Receive(f, answer)] && steps[1..][1..] == [];
    assert f.body.json.fields["auth"] == JStr(cfg.token) && f.body.json.fields["jsonrpc"] == JStr("2.0");
    var s2 := Next(cfg, s1, Receive(f, answer));
    assert ValidRun(cfg, s2, []) && ValidRun(cfg, s1, steps[1..]);
    assert Final(cfg, s1, steps[1..]) == Final(cfg, s2, []) == s2;
  }

  // ----- The session loop itself -----

  /** The frames the session gets to see: those before a close frame. */
  function Heard(incoming: seq<Frame>): (r: seq<Frame>)
    ensures r <= incoming && Close !in r
    ensures |r| < |incoming| ==> incoming[|r|] == Close
  {
    if incoming == [] || incoming[0].Close? then [] else [incoming[0]] + Heard(incoming[1..])
  }

  lemma {:induction false} HeardPrefix(incoming: seq<Frame>, i: nat)
    requires i <= |incoming| && Close !in incoming[..i] && (i == |incoming| || incoming[i] == Close)
    ensures Heard(incoming) == incoming[..i]
  {
  }

  /** The request loop, from frame `first` on: 0 when authenticated at the upgrade, else the one after the
      handshake. */
  method RequestLoop(cfg: Config, incoming: seq<Frame>, first: nat, dispatch: Body -> Body)
    returns (out: seq<Body>, served: seq<Exchange>)
    requires first == (if PreAuthenticated(cfg) then 0 else 1) <= |incoming| && Close !in incoming[..first]
    requires Answers(cfg, incoming[..first], [])
    ensures Answers(cfg, Heard(incoming), served) && out == [Ack] + ResponsesOf(served)
    ensures forall j :: 0 <= j < |served| ==> served[j].response == dispatch(served[j].request)
  {
    out, served := [Ack], [];
    var i, mayDrain := first, PreAuthenticated(cfg);
    while i < |incoming| && !incoming[i].Close?
      invariant first <= i <= |incoming| && Close !in incoming[..i]
      invariant mayDrain == (PreAuthenticated(cfg) && Texts(incoming[..i]) == [])
      invariant Answers(cfg, incoming[..i], served) && out == [Ack] + ResponsesOf(served)
      invariant forall j :: 0 <= j < |served| ==> served[j].response == dispatch(served[j].request)
    {
      var f := incoming[i];
      assert incoming[..i + 1] == incoming[..i] + [f];
      TextsSnoc(incoming[..i], f);
      if f.Text? && !(mayDrain && IsLegacyAuth(f.body)) {
        var x := Exchange(i, f.body, dispatch(f.body), IsRpc(cfg.known, f.body));
        AnswersOne(cfg, incoming[..i], served, f.body, x.response);
        assert ResponsesOf(served + [x]) == ResponsesOf(served) + [x.response];
        out, served := out + [x.response], served + [x];
      } else {
        AnswersSkip(cfg, incoming[..i], served, f);
      }
      if f.Text? { mayDrain := false; }
      i := i + 1;
    }
    HeardPrefix(incoming, i);
  }

  /** `handle_socket` on a given stream of incoming frames; `dispatch` is the answer to a text, be it the
      dispatcher's or a parse error. A session that opens answers exactly what is owed for what it heard. */
  method HandleSocket(cfg: Config, incoming: seq<Frame>, dispatch: Body -> Body)
    returns (out: seq<Body>, served: seq<Exchange>)
    ensures !MatchingToken(cfg, incoming) ==> served == [] && Ack !in out
    ensures MatchingToken(cfg, incoming) ==>
              && out == [Ack] + ResponsesOf(served)
              && InFrameOrder(cfg, Heard(incoming), served)
              && forall k :: 0 <= k < |Heard(incoming)| ==> (AnsweredAt(served, k) <==> OwesAnswer(cfg, Heard(incoming), k))
    ensures forall i :: 0 <= i < |served| ==> served[i].response == dispatch(served[i].request)
  {
    assert AtOf([]) == OwedAt(PreAuthenticated(cfg), []);
    if PreAuthenticated(cfg) {
      out, served := RequestLoop(cfg, incoming, 0, dispatch);
      AnswersMeaning(cfg, Heard(incoming), served);
    } else if incoming == [] || !incoming[0].Text? {
      out, served := [], [];
    } else if !Presents(incoming[0], cfg.token) {
      AckIsNotFailure();
      out, served := [AuthFailed], [];
    } else {
      AnswersSkip(cfg, [], [], incoming[0]);
      assert incoming[..1] == [] + [incoming[0]];
      out, served := RequestLoop(cfg, incoming, 1, dispatch);
      AnswersMeaning(cfg, Heard(incoming), served);
    }
  }
}
