/**
 * What a browser sees when it goes through the flow of the earlier version: a
 * login, then the callback carrying the cookie that login set.
 */
module OneFutureFlow {
  import opened Wrappers
  import opened QueryParams
  import opened Http
  import opened Cookies
  import opened Browser
  import opened Clients
  import opened Maps
  import opened OneFutureServer

  /** The callback carrying the cookie a login set resolves to that login's session. */
  lemma CallbackFindsLogin(srv: Server, id: Uuid, authorizeUrl: string, query: string, codec: IdCodec, cookieName: string)
    requires CodecSound(codec) && IsCookieHeader(cookieName)
    ensures Resolved(Login(srv, id, authorizeUrl, codec).server, CallbackRequest(codec, id, query, cookieName), codec)
      == Some(Session(id, authorizeUrl))
  {
    SingleCookieResolves(codec, id, Login(srv, id, authorizeUrl, codec).server.store, cookieName);
  }

  /**
   * A login followed by the callback carrying its cookie, when the token
   * exchange succeeds and the challenge is created: the store is back to what
   * it was before the login, one token was revoked, and the browser goes to
   * the game with its cookie cleared.
   */
  lemma LoginThenChallenge(srv: Server, id: Uuid, authorizeUrl: string, query: string, gameId: GameId, codec: IdCodec, cookieName: string)
    requires id !in srv.store
    requires CodecSound(codec) && IsCookieHeader(cookieName)
    requires ParseQueryParams(Some(query)).Success?
    ensures Redirect(Login(srv, id, authorizeUrl, codec).server, CallbackRequest(codec, id, query, cookieName), AuthOk, Some(gameId), codec)
      == Step(Server(srv.store, srv.revocations + 1), Sent(302, Some(GameLocation(gameId)), Some(IdPrefix + Deleted), NoBody))
  {
    var login := Login(srv, id, authorizeUrl, codec);
    var req := CallbackRequest(codec, id, query, cookieName);
    var callback := Redirect(login.server, req, AuthOk, Some(gameId), codec);
    assert callback == Step(Server(login.server.store - {id}, srv.revocations + 1),
                            Sent(302, Some(GameLocation(gameId)), Some(IdPrefix + Deleted), NoBody)) by {
      CallbackFindsLogin(srv, id, authorizeUrl, query, codec, cookieName);
    }
    assert login.server.store - {id} == srv.store by {
      RemoveAdded(srv.store, id, Session(id, authorizeUrl));
    }
  }

  /**
   * A login followed by the callback carrying its cookie, when the token
   * exchange succeeds but no challenge is created: 503, one token revoked, and
   * the session stays as the login stored it.
   */
  lemma LoginThenNoChallenge(srv: Server, id: Uuid, authorizeUrl: string, query: string, codec: IdCodec, cookieName: string)
    requires CodecSound(codec) && IsCookieHeader(cookieName)
    requires ParseQueryParams(Some(query)).Success?
    ensures Redirect(Login(srv, id, authorizeUrl, codec).server, CallbackRequest(codec, id, query, cookieName), AuthOk, None, codec)
      == Step(Server(srv.store[id := Session(id, authorizeUrl)], srv.revocations + 1), Sent(503, None, None, ChallengeFailed))
  {
    CallbackFindsLogin(srv, id, authorizeUrl, query, codec, cookieName);
  }

  /**
   * A login followed by the callback carrying its cookie, when the token
   * exchange fails: the handler throws, so the browser gets no reply, nothing
   * is revoked and the session stays as the login stored it.
   */
  lemma LoginThenTokenFailure(srv: Server, id: Uuid, authorizeUrl: string, query: string, failure: string,
                              challenge: Option<GameId>, codec: IdCodec, cookieName: string)
    requires CodecSound(codec) && IsCookieHeader(cookieName)
    ensures var login := Login(srv, id, authorizeUrl, codec);
      Redirect(login.server, CallbackRequest(codec, id, query, cookieName), AuthFail(failure), challenge, codec)
        == Step(login.server, Dropped)
  {
    CallbackFindsLogin(srv, id, authorizeUrl, query, codec, cookieName);
  }

  /**
   * Replaying the callback after the game was created: the session is gone, so
   * the same cookie now gets 400 "Missing cookie" and nothing changes, whatever
   * the token exchange and the challenge client would answer.
   */
  lemma ReplayAfterChallenge(srv: Server, id: Uuid, authorizeUrl: string, query: string, gameId: GameId,
                             codec: IdCodec, cookieName: string, token: AuthResult, challenge: Option<GameId>)
    requires id !in srv.store
    requires CodecSound(codec) && IsCookieHeader(cookieName)
    requires ParseQueryParams(Some(query)).Success?
    ensures var req := CallbackRequest(codec, id, query, cookieName);
      var first := Redirect(Login(srv, id, authorizeUrl, codec).server, req, AuthOk, Some(gameId), codec);
      Redirect(first.server, req, token, challenge, codec) == Step(first.server, Sent(400, None, None, MissingCookie))
  {
    LoginThenChallenge(srv, id, authorizeUrl, query, gameId, codec, cookieName);
    SingleCookieResolves(codec, id, srv.store, cookieName);
  }
}
