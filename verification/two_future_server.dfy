/**
 * The request handlers of the current version, in which a session carries two
 * write-once slots: the code and state the callback delivers, and the
 * authorization result the login handler's OAuth exchange produces.
 *
 * The handlers run as sequential transitions over the session store. The login
 * handler's thread stays blocked inside the OAuth client until the callback
 * fills the code-and-state slot; it then exchanges the code and completes the
 * authorization slot, which the callback handler is waiting on. Both steps are
 * therefore folded into the `/redirect` transition, with the exchange's outcome
 * (`AuthOk` or a failure) and the challenge client's answer given as inputs.
 *
 * `Server`, `Step`, `Config`, `Run` and `NeverIssued` have namesakes in
 * `OneFutureServer`: each version has its own `Session`, `Oracle` and
 * dispatcher, and these are stated over them.
 */
module TwoFutureServer {
  import opened Wrappers
  import opened OneShot
  import opened QueryParams
  import opened Http
  import opened Cookies
  import opened Clients

  datatype CodeAndState = CodeAndState(code: string, state: string)

  /** `Data(id, codeAndStateFuture, authResultFuture)`. */
  datatype Session = Session(id: Uuid, codeAndState: Option<CodeAndState>, authResult: Option<AuthResult>)

  /** The session cache, and how many times a token has been revoked. */
  datatype Server = Server(store: map<Uuid, Session>, revocations: nat)

  /** What the handlers read from the settings and the UUID syntax. */
  datatype Config = Config(lichessUri: string, codec: IdCodec, resolve: (string, string) -> string)

  /**
   * The answers of everything outside the handlers, for one request: the UUID
   * `randomUUID` returns, the authorization URL the OAuth client redirects to,
   * the outcome of its token exchange, and the challenge client's result.
   */
  datatype Oracle = Oracle(freshId: Uuid, authorizeUrl: string, auth: AuthResult, challenge: Option<GameId>)

  datatype Step = Step(server: Server, reply: Reply)

  /**
   * Every stored session sits under its own id, and its two slots are either
   * both empty (the callback has not come) or both filled.
   */
  predicate Wf(srv: Server) {
    forall k :: k in srv.store ==>
      && srv.store[k].id == k
      && (srv.store[k].codeAndState.None? <==> srv.store[k].authResult.None?)
  }

  function EmptySession(id: Uuid): Session {
    Session(id, None, None)
  }

  /**
   * `/loginAndChallenge`: stores a new session with both slots empty, sets the
   * `id` cookie to its UUID and redirects the browser to the authorization URL.
   */
  function Login(srv: Server, id: Uuid, authorizeUrl: string, codec: IdCodec): (step: Step)
    ensures step.server.store.Keys == srv.store.Keys + {id}
    ensures step.server.store[id] == EmptySession(id)
    ensures forall k :: k in srv.store && k != id ==> step.server.store[k] == srv.store[k]
    ensures id !in srv.store ==> |step.server.store| == |srv.store| + 1
    ensures step.server.revocations == srv.revocations
    ensures step.reply == Sent(302, Some(authorizeUrl), Some(IdPrefix + codec.render(id)), NoBody)
  {
    var store := srv.store[id := EmptySession(id)];
    assert id !in srv.store ==> |store.Keys| == |srv.store.Keys + {id}| == |srv.store.Keys| + 1;
    Step(Server(store, srv.revocations), Sent(302, Some(authorizeUrl), Some(IdPrefix + codec.render(id)), NoBody))
  }

  /**
   * The callback completes the code-and-state slot; the login handler's
   * exchange then completes the authorization slot. Each keeps the value of its
   * first completion.
   */
  function Deliver(session: Session, cs: CodeAndState, auth: AuthResult): (s: Session)
    ensures s.id == session.id
    ensures s.codeAndState.Some? && s.authResult.Some?
    ensures session.codeAndState.Some? ==> s.codeAndState == session.codeAndState
    ensures session.codeAndState.None? ==> s.codeAndState == Some(cs)
    ensures session.authResult.Some? ==> s.authResult == session.authResult
    ensures session.authResult.None? ==> s.authResult == Some(auth)
  {
    var s1 := session.(codeAndState := Complete(session.codeAndState, cs));
    s1.(authResult := Complete(s1.authResult, auth))
  }

  /**
   * What the callback does once the authorization result is known. With a
   * client, it challenges the AI: on success the session is evicted, the cookie
   * cleared and the browser sent to the game; without a challenge the reply is
   * 503 and the session stays. Either way the token is revoked once. A failed
   * authorization is answered 503 with its description, nothing revoked and the
   * session kept.
   */
  function Conclude(srv: Server, session: Session, challenge: Option<GameId>): (step: Step)
    requires session.authResult.Some?
    ensures session.authResult.value.AuthOk? ==> step.server.revocations == srv.revocations + 1
    ensures session.authResult.value.AuthFail? ==> step.server.revocations == srv.revocations
    ensures session.id !in step.server.store <==> session.authResult.value.AuthOk? && challenge.Some?
    ensures session.id in step.server.store ==> step.server.store[session.id] == session
    ensures step.server.store.Keys <= srv.store.Keys + {session.id}
    ensures forall k :: k in srv.store && k != session.id ==> k in step.server.store && step.server.store[k] == srv.store[k]
    ensures session.authResult.value.AuthOk? && challenge.Some? ==>
      step.reply == Sent(302, Some(GameLocation(challenge.value)), Some(IdPrefix + Deleted), NoBody)
    ensures session.authResult.value.AuthOk? && challenge.None? ==>
      step.reply == Sent(503, None, None, ChallengeFailed)
    ensures session.authResult.value.AuthFail? ==>
      step.reply == Sent(503, None, None, AuthFailed(session.authResult.value.description))
  {
    var store := srv.store[session.id := session];
    match session.authResult.value
    case AuthOk =>
      (match challenge
       case Some(gameId) =>
         Step(Server(store - {session.id}, srv.revocations + 1),
              Sent(302, Some(GameLocation(gameId)), Some(IdPrefix + Deleted), NoBody))
       case None =>
         Step(Server(store, srv.revocations + 1), Sent(503, None, None, ChallengeFailed)))
    case AuthFail(description) =>
      Step(Server(store, srv.revocations), Sent(503, None, None, AuthFailed(description)))
  }

  /** The code and state the callback hands over: the query parameters, `""` when absent. */
  function CallbackParams(params: map<string, string>): (cs: CodeAndState)
    ensures "code" !in params ==> cs.code == ""
    ensures "state" !in params ==> cs.state == ""
    ensures "code" in params ==> cs.code == params["code"]
    ensures "state" in params ==> cs.state == params["state"]
  {
    CodeAndState(GetOrDefault(params, "code", ""), GetOrDefault(params, "state", ""))
  }

  /**
   * `/redirect`: without a session named by the cookie, 400 "Missing cookie"
   * and nothing changes; with one, a query `parseQueryParams` rejects throws
   * (no reply, nothing changes); otherwise the slots are completed and the
   * outcome decided by `Conclude`.
   */
  function Redirect(srv: Server, req: Request, auth: AuthResult, challenge: Option<GameId>, codec: IdCodec): (step: Step)
    ensures ReadSession(req.headers, srv.store, codec.parse).None? ==>
      step == Step(srv, Sent(400, None, None, MissingCookie))
    ensures ReadSession(req.headers, srv.store, codec.parse).Some? && ParseQueryParams(req.query).Failure? ==>
      step == Step(srv, Dropped)
    ensures srv.revocations <= step.server.revocations <= srv.revocations + 1
  {
    match ReadSession(req.headers, srv.store, codec.parse)
    case None => Step(srv, Sent(400, None, None, MissingCookie))
    case Some(session) =>
      match ParseQueryParams(req.query)
      case Failure(_) => Step(srv, Dropped)
      case Success(params) =>
        Conclude(srv, Deliver(session, CallbackParams(params), auth), challenge)
  }

  /** The dispatcher: one transition per request path. */
  function Dispatch(srv: Server, req: Request, oracle: Oracle, config: Config): (step: Step)
    ensures Wf(srv) ==> Wf(step.server)
    ensures srv.revocations <= step.server.revocations <= srv.revocations + 1
    ensures req.path != LoginPath && req.path != RedirectPath ==> step.server == srv
    ensures req.path == RootPath ==> step.reply == Sent(200, None, None, ChallengeForm)
    ensures req.path == GamePath ==> step.reply == GameRoute(req.query, config.lichessUri, config.resolve)
    ensures req.path !in {RootPath, LoginPath, RedirectPath, GamePath} ==> step.reply == Sent(404, None, None, NotFound)
    ensures Wf(srv) ==> step.server.store.Keys <= srv.store.Keys + (if req.path == LoginPath then {oracle.freshId} else {})
  {
    if req.path == RootPath then Step(srv, Sent(200, None, None, ChallengeForm))
    else if req.path == LoginPath then Login(srv, oracle.freshId, oracle.authorizeUrl, config.codec)
    else if req.path == RedirectPath then
      RedirectPreservesWf(srv, req, oracle.auth, oracle.challenge, config.codec);
      Redirect(srv, req, oracle.auth, oracle.challenge, config.codec)
    else if req.path == GamePath then Step(srv, GameRoute(req.query, config.lichessUri, config.resolve))
    else Step(srv, Sent(404, None, None, NotFound))
  }

  /** The session `readSession` finds is stored under its own id. */
  lemma ResolvedSessionStored(srv: Server, req: Request, codec: IdCodec)
    requires Wf(srv)
    requires ReadSession(req.headers, srv.store, codec.parse).Some?
    ensures var s := ReadSession(req.headers, srv.store, codec.parse).value;
      s.id in srv.store && srv.store[s.id] == s
  {
  }

  lemma RedirectPreservesWf(srv: Server, req: Request, auth: AuthResult, challenge: Option<GameId>, codec: IdCodec)
    ensures Wf(srv) ==> Wf(Redirect(srv, req, auth, challenge, codec).server)
    ensures Wf(srv) ==> Redirect(srv, req, auth, challenge, codec).server.store.Keys <= srv.store.Keys
  {
    if Wf(srv) && ReadSession(req.headers, srv.store, codec.parse).Some? && ParseQueryParams(req.query).Success? {
      var session := ReadSession(req.headers, srv.store, codec.parse).value;
      ResolvedSessionStored(srv, req, codec);
      var completed := Deliver(session, CallbackParams(ParseQueryParams(req.query).value), auth);
      var next := Conclude(srv, completed, challenge).server;
      assert next == Redirect(srv, req, auth, challenge, codec).server;
      forall k | k in next.store
        ensures next.store[k].id == k
        ensures next.store[k].codeAndState.None? <==> next.store[k].authResult.None?
      {
        if k != session.id {
          assert next.store[k] == srv.store[k];
        }
      }
    }
  }

  /** The session a callback request resolves to, when it resolves. */
  function Resolved(srv: Server, req: Request, codec: IdCodec): Option<Session> {
    ReadSession(req.headers, srv.store, codec.parse)
  }

  /**
   * A session leaves the store only on a callback that resolved to it, found a
   * client and created a challenge; the reply is then the redirect to the game
   * with the cookie cleared.
   */
  lemma EvictionOnlyOnChallenge(srv: Server, req: Request, oracle: Oracle, config: Config, k: Uuid)
    requires Wf(srv)
    requires k in srv.store
    ensures var step := Dispatch(srv, req, oracle, config);
      k !in step.server.store <==>
        && req.path == RedirectPath
        && Resolved(srv, req, config.codec) == Some(srv.store[k])
        && ParseQueryParams(req.query).Success?
        && srv.store[k].authResult.GetOr(oracle.auth).AuthOk?
        && oracle.challenge.Some?
    ensures var step := Dispatch(srv, req, oracle, config);
      k !in step.server.store ==>
        step.reply == Sent(302, Some(GameLocation(oracle.challenge.value)), Some(IdPrefix + Deleted), NoBody)
  {
    if req.path == RedirectPath && Resolved(srv, req, config.codec).Some? {
      ResolvedSessionStored(srv, req, config.codec);
    }
  }

  /**
   * A token is revoked only on a callback that resolved to a session whose
   * authorization result (the stored one, or else the exchange's) is a client,
   * and then exactly once, whether or not the challenge was created.
   */
  lemma RevocationOnlyAfterAuthOk(srv: Server, req: Request, oracle: Oracle, config: Config)
    requires Wf(srv)
    ensures var step := Dispatch(srv, req, oracle, config);
      step.server.revocations == srv.revocations + 1 <==>
        && req.path == RedirectPath
        && Resolved(srv, req, config.codec).Some?
        && ParseQueryParams(req.query).Success?
        && Resolved(srv, req, config.codec).value.authResult.GetOr(oracle.auth).AuthOk?
  {
  }

  /** Both slots filled: the callback for this session has been handled once. */
  predicate Filled(s: Session) {
    s.codeAndState.Some? && s.authResult.Some?
  }

  /**
   * One request leaves a filled session exactly as it was, unless it evicts it
   * or is a login whose fresh UUID collides with it.
   */
  lemma StepKeepsFilledSession(srv: Server, req: Request, oracle: Oracle, config: Config, k: Uuid)
    requires Wf(srv)
    requires k in srv.store && Filled(srv.store[k])
    requires req.path == LoginPath ==> oracle.freshId != k
    ensures var next := Dispatch(srv, req, oracle, config).server;
      k in next.store ==> next.store[k] == srv.store[k]
  {
    if req.path == RedirectPath && Resolved(srv, req, config.codec).Some? {
      ResolvedSessionStored(srv, req, config.codec);
    }
  }

  /** The server after handling a sequence of requests, each with the oracle answers for it. */
  function Run(srv: Server, trace: seq<(Request, Oracle)>, config: Config): (end: Server)
    ensures Wf(srv) ==> Wf(end)
    ensures srv.revocations <= end.revocations <= srv.revocations + |trace|
    decreases |trace|
  {
    if |trace| == 0 then srv
    else Run(Dispatch(srv, trace[0].0, trace[0].1, config).server, trace[1..], config)
  }

  /** No login in the trace draws this UUID. */
  ghost predicate NeverIssued(trace: seq<(Request, Oracle)>, k: Uuid) {
    forall i :: 0 <= i < |trace| ==> trace[i].0.path == LoginPath ==> trace[i].1.freshId != k
  }

  /** Dropping the first request keeps the trace free of logins that draw `k`. */
  lemma NeverIssuedTail(trace: seq<(Request, Oracle)>, k: Uuid)
    requires |trace| > 0 && NeverIssued(trace, k)
    ensures NeverIssued(trace[1..], k)
  {
    forall i | 0 <= i < |trace[1..]| ensures trace[1..][i].0.path == LoginPath ==> trace[1..][i].1.freshId != k {
      assert trace[1..][i] == trace[i + 1];
    }
  }

  /** A UUID absent from the store stays absent while no login draws it. */
  lemma {:induction false} AbsentStaysAbsent(srv: Server, trace: seq<(Request, Oracle)>, config: Config, k: Uuid)
    requires Wf(srv)
    requires k !in srv.store
    requires NeverIssued(trace, k)
    ensures k !in Run(srv, trace, config).store
    decreases |trace|
  {
    if |trace| > 0 {
      NeverIssuedTail(trace, k);
      var next := Dispatch(srv, trace[0].0, trace[0].1, config).server;
      AbsentStaysAbsent(next, trace[1..], config, k);
    }
  }

  /**
   * The slots are write-once across any sequence of requests: once the
   * callback has filled a session, that session is never altered again; it is
   * either still stored exactly as it was or gone for good (barring a UUID
   * collision at a later login).
   */
  lemma {:induction false} FilledSessionFrozen(srv: Server, trace: seq<(Request, Oracle)>, config: Config, k: Uuid)
    requires Wf(srv)
    requires k in srv.store && Filled(srv.store[k])
    requires NeverIssued(trace, k)
    ensures var end := Run(srv, trace, config);
      k in end.store ==> end.store[k] == srv.store[k]
    decreases |trace|
  {
    if |trace| > 0 {
      NeverIssuedTail(trace, k);
      var next := Dispatch(srv, trace[0].0, trace[0].1, config).server;
      StepKeepsFilledSession(srv, trace[0].0, trace[0].1, config, k);
      if k in next.store {
        FilledSessionFrozen(next, trace[1..], config, k);
      } else {
        AbsentStaysAbsent(next, trace[1..], config, k);
      }
    }
  }
}
