/**
 * What a browser sees when it goes through the flow of the current version: a
 * login, then the callback carrying the cookie that login set.
 */
module TwoFutureFlow {
  import opened Wrappers
  import opened QueryParams
  import opened Http
  import opened Cookies
  import opened Browser
  import opened Clients
  import opened Maps
  import opened TwoFutureServer

  /** The callback carrying the cookie a login set finds that login's empty session and completes it. */
  lemma CallbackAfterLogin(srv: Server, id: Uuid, authorizeUrl: string, query: string,
                           auth: AuthResult, challenge: Option<GameId>, codec: IdCodec, cookieName: string)
    requires CodecSound(codec) && IsCookieHeader(cookieName)
    requires ParseQueryParams(Some(query)).Success?
    ensures var login := Login(srv, id, authorizeUrl, codec);
      var kept := Session(id, Some(CallbackParams(ParseQueryParams(Some(query)).value)), Some(auth));
      Redirect(login.server, CallbackRequest(codec, id, query, cookieName), auth, challenge, codec)
        == Conclude(login.server, kept, challenge)
  {
    var login := Login(srv, id, authorizeUrl, codec);
    var req := CallbackRequest(codec, id, query, cookieName);
    SingleCookieResolves(codec, id, login.server.store, cookieName);
  }

  /**
   * Concluding the session a fresh login created: an eviction leaves exactly
   * the store the login started from; otherwise the login's entry is replaced
   * by the completed session.
   */
  lemma ConcludeAfterLogin(srv: Server, id: Uuid, authorizeUrl: string, codec: IdCodec, kept: Session, challenge: Option<GameId>)
    requires id !in srv.store
    requires kept.id == id && kept.authResult.Some?
    ensures var c := Conclude(Login(srv, id, authorizeUrl, codec).server, kept, challenge);
      c.server.store == if kept.authResult.value.AuthOk? && challenge.Some? then srv.store else srv.store[id := kept]
  {
    var login := Login(srv, id, authorizeUrl, codec);
    var c := Conclude(login.server, kept, challenge);
    var updated := srv.store[id := EmptySession(id)][id := kept];
    assert login.server.store[id := kept] == updated;
    if kept.authResult.value.AuthOk? && challenge.Some? {
      assert c.server.store == updated - {id};
      UpdateTwice(srv.store, id, EmptySession(id), kept);
      RemoveAdded(srv.store, id, kept);
    } else {
      assert c.server.store == updated;
      UpdateTwice(srv.store, id, EmptySession(id), kept);
    }
  }

  /**
   * A login followed by the callback carrying its cookie, when the exchange
   * yields a client and the challenge is created: the store is back to what it
   * was before the login, one token was revoked, and the browser goes to the
   * game with its cookie cleared.
   */
  lemma LoginThenChallenge(srv: Server, id: Uuid, authorizeUrl: string, query: string, gameId: GameId, codec: IdCodec, cookieName: string)
    requires id !in srv.store
    requires CodecSound(codec) && IsCookieHeader(cookieName)
    requires ParseQueryParams(Some(query)).Success?
    ensures Redirect(Login(srv, id, authorizeUrl, codec).server, CallbackRequest(codec, id, query, cookieName), AuthOk, Some(gameId), codec)
      == Step(Server(srv.store, srv.revocations + 1), Sent(302, Some(GameLocation(gameId)), Some(IdPrefix + Deleted), NoBody))
  {
    var login := Login(srv, id, authorizeUrl, codec);
    var callback := Redirect(login.server, CallbackRequest(codec, id, query, cookieName), AuthOk, Some(gameId), codec);
    var kept := Session(id, Some(CallbackParams(ParseQueryParams(Some(query)).value)), Some(AuthOk));
    var c := Conclude(login.server, kept, Some(gameId));
    assert callback == c by {
      CallbackAfterLogin(srv, id, authorizeUrl, query, AuthOk, Some(gameId), codec, cookieName);
    }
    assert c == Step(Server(srv.store, srv.revocations + 1), Sent(302, Some(GameLocation(gameId)), Some(IdPrefix + Deleted), NoBody)) by {
      ConcludeAfterLogin(srv, id, authorizeUrl, codec, kept, Some(gameId));
    }
  }

  /**
   * A login followed by the callback carrying its cookie, when the exchange
   * yields a client but no challenge is created: 503, one token revoked, and
   * the session stays with both slots filled.
   */
  lemma LoginThenNoChallenge(srv: Server, id: Uuid, authorizeUrl: string, query: string, codec: IdCodec, cookieName: string)
    requires id !in srv.store
    requires CodecSound(codec) && IsCookieHeader(cookieName)
    requires ParseQueryParams(Some(query)).Success?
    ensures var kept := Session(id, Some(CallbackParams(ParseQueryParams(Some(query)).value)), Some(AuthOk));
      Redirect(Login(srv, id, authorizeUrl, codec).server, CallbackRequest(codec, id, query, cookieName), AuthOk, None, codec)
        == Step(Server(srv.store[id := kept], srv.revocations + 1), Sent(503, None, None, ChallengeFailed))
  {
    var login := Login(srv, id, authorizeUrl, codec);
    var callback := Redirect(login.server, CallbackRequest(codec, id, query, cookieName), AuthOk, None, codec);
    var kept := Session(id, Some(CallbackParams(ParseQueryParams(Some(query)).value)), Some(AuthOk));
    var c := Conclude(login.server, kept, None);
    assert callback == c by {
      CallbackAfterLogin(srv, id, authorizeUrl, query, AuthOk, None, codec, cookieName);
    }
    assert c == Step(Server(srv.store[id := kept], srv.revocations + 1), Sent(503, None, None, ChallengeFailed)) by {
      ConcludeAfterLogin(srv, id, authorizeUrl, codec, kept, None);
    }
  }

  /**
   * A login followed by the callback carrying its cookie, when the exchange
   * fails: 503 with the failure, nothing revoked, and the session stays with
   * both slots filled.
   */
  lemma LoginThenAuthFailure(srv: Server, id: Uuid, authorizeUrl: string, query: string, failure: string,
                             challenge: Option<GameId>, codec: IdCodec, cookieName: string)
    requires id !in srv.store
    requires CodecSound(codec) && IsCookieHeader(cookieName)
    requires ParseQueryParams(Some(query)).Success?
    ensures var kept := Session(id, Some(CallbackParams(ParseQueryParams(Some(query)).value)), Some(AuthFail(failure)));
      Redirect(Login(srv, id, authorizeUrl, codec).server, CallbackRequest(codec, id, query, cookieName), AuthFail(failure), challenge, codec)
        == Step(Server(srv.store[id := kept], srv.revocations), Sent(503, None, None, AuthFailed(failure)))
  {
    var login := Login(srv, id, authorizeUrl, codec);
    var callback := Redirect(login.server, CallbackRequest(codec, id, query, cookieName), AuthFail(failure), challenge, codec);
    var kept := Session(id, Some(CallbackParams(ParseQueryParams(Some(query)).value)), Some(AuthFail(failure)));
    var c := Conclude(login.server, kept, challenge);
    assert callback == c by {
      CallbackAfterLogin(srv, id, authorizeUrl, query, AuthFail(failure), challenge, codec, cookieName);
    }
    assert c == Step(Server(srv.store[id := kept], srv.revocations), Sent(503, None, None, AuthFailed(failure))) by {
      ConcludeAfterLogin(srv, id, authorizeUrl, codec, kept, challenge);
    }
  }

  /**
   * Replaying the callback after the game was created: the session is gone, so
   * the same cookie now gets 400 "Missing cookie" and nothing changes, whatever
   * the exchange and the challenge client would answer.
   */
  lemma ReplayAfterChallenge(srv: Server, id: Uuid, authorizeUrl: string, query: string, gameId: GameId,
                             codec: IdCodec, cookieName: string, auth: AuthResult, challenge: Option<GameId>)
    requires id !in srv.store
    requires CodecSound(codec) && IsCookieHeader(cookieName)
    requires ParseQueryParams(Some(query)).Success?
    ensures var req := CallbackRequest(codec, id, query, cookieName);
      var first := Redirect(Login(srv, id, authorizeUrl, codec).server, req, AuthOk, Some(gameId), codec);
      Redirect(first.server, req, auth, challenge, codec) == Step(first.server, Sent(400, None, None, MissingCookie))
  {
    LoginThenChallenge(srv, id, authorizeUrl, query, gameId, codec, cookieName);
    SingleCookieResolves(codec, id, srv.store, cookieName);
  }
}
