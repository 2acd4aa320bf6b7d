/** From the upgrade request to the session: the tokens it carries decide how the session authenticates. */
module WsUpgrade {
  import opened Text
  import opened WsServer
  import TT = TokenTransport

  /** The daemon's token, the `Sec-WebSocket-Protocol` lines and the query token of an upgrade request. */
  datatype Upgrade = Upgrade(token: string, headers: seq<string>, queryToken: Option<string>,
                             known: map<string, Json> -> bool)

  function ConfigOf(u: Upgrade): Config {
    var o := TT.ParseBearer(u.headers);
    Config(u.token, if o.Some? then Some(o.value.token) else None, u.queryToken, u.known)
  }

  /** The header half of `ws_handler`: whether the bearer protocol matches, and the protocol to echo. */
  method CheckHeader(token: string, headers: seq<string>) returns (ok: bool, echoed: Option<string>)
    ensures ok <==> TT.ParseBearer(headers).Some? && TT.ParseBearer(headers).value.token == token
    ensures echoed == if ok then Some(TT.ParseBearer(headers).value.protocol) else None
  {
    var offer := TT.ParseBearerSubprotocol(headers);
    ok := offer.Some? && offer.value.token == token;
    echoed := if ok then Some(offer.value.protocol) else None;
  }

  /** The session opens exactly when the first bearer protocol offered carries the daemon's token, or the query
      does, or the first frame does. */
  lemma {:induction false} OpensExactly(u: Upgrade, steps: seq<Step>)
    requires ValidRun(ConfigOf(u), New, steps) && !Final(ConfigOf(u), New, steps).phase.Fresh?
    ensures
      var s := Final(ConfigOf(u), New, steps);
      s.admitted
      <==> || (TT.ParseBearer(u.headers).Some? && TT.ParseBearer(u.headers).value.token == u.token)
           || u.queryToken == Some(u.token)
           || (s.read != [] && IsObject(s.read[0]) && "auth" in Fields(s.read[0])
               && Fields(s.read[0])["auth"] == JStr(u.token))
  {
    NothingBeforeToken(ConfigOf(u), steps);
  }

  lemma {:induction false} StartOpens(cfg: Config)
    ensures ValidRun(cfg, New, [Start])
    ensures Final(cfg, New, [Start]).admitted <==> cfg.headerToken == Some(cfg.token) || cfg.queryToken == Some(cfg.token)
  {
    var s := Next(cfg, New, Start);
    assert [Start][1..] == [];
    assert ValidRun(cfg, s, []) && Final(cfg, s, []) == s;
  }

  lemma {:induction false} HeaderTokenIs(u: Upgrade, offer: TT.Offer)
    requires TT.ParseBearer(u.headers) == Some(offer)
    ensures ConfigOf(u).headerToken == Some(offer.token)
  {
  }

  /** A client that offers its token as its only protocol gets a session before sending anything exactly when the
      token is the daemon's, or the query carries the daemon's, whatever token that can travel in a header it is. */
  lemma {:induction false} OfferOpensExactly(u: Upgrade, clientToken: string)
    requires u.headers == ["Bearer." + clientToken] && TT.Carriable(clientToken) && TT.Readable(clientToken)
    ensures ValidRun(ConfigOf(u), New, [Start])
    ensures Final(ConfigOf(u), New, [Start]).admitted <==> clientToken == u.token || u.queryToken == Some(u.token)
  {
    var cfg := ConfigOf(u);
    assert cfg.headerToken == Some(clientToken) by {
      TT.SingleOfferExact(clientToken);
      HeaderTokenIs(u, TT.Offer("Bearer." + clientToken, clientToken));
    }
    StartOpens(cfg);
  }
}
