/**
 * The request handlers of the earlier version, in which a session carries one
 * future: the authorization URL together with the token exchange the OAuth
 * client prepares.
 *
 * The login handler completes that future itself, before it replies, so every
 * stored session already holds its authorization URL; the store keeps only the
 * URL. The callback handler then runs the token exchange with the code and state
 * it received; its outcome and the challenge client's answer are inputs of the
 * transition.
 *
 * `Server`, `Step`, `Config`, `Run` and `NeverIssued` have namesakes in
 * `TwoFutureServer`: each version has its own `Session`, `Oracle` and
 * dispatcher, and these are stated over them.
 */
module OneFutureServer {
  import opened Wrappers
  import opened QueryParams
  import opened Http
  import opened Cookies
  import opened Clients

  /** `Data(id, future)`, with the completed future reduced to its authorization URL. */
  datatype Session = Session(id: Uuid, authorizeUrl: string)

  /** The session cache, and how many times a token has been revoked. */
  datatype Server = Server(store: map<Uuid, Session>, revocations: nat)

  /** What the handlers read from the settings and the UUID syntax. */
  datatype Config = Config(lichessUri: string, codec: IdCodec, resolve: (string, string) -> string)

  /**
   * The answers of everything outside the handlers, for one request: the UUID
   * `randomUUID` returns, the authorization URL the OAuth client prepares, the
   * outcome of the token exchange, and the challenge client's result.
   */
  datatype Oracle = Oracle(freshId: Uuid, authorizeUrl: string, token: AuthResult, challenge: Option<GameId>)

  datatype Step = Step(server: Server, reply: Reply)

  /** Every stored session sits under its own id. */
  predicate Wf(srv: Server) {
    forall k :: k in srv.store ==> srv.store[k].id == k
  }

  /**
   * `/loginAndChallenge`: stores a new session holding the authorization URL,
   * sets the `id` cookie to its UUID and redirects the browser to that URL.
   */
  function Login(srv: Server, id: Uuid, authorizeUrl: string, codec: IdCodec): (step: Step)
    ensures step.server.store.Keys == srv.store.Keys + {id}
    ensures step.server.store[id] == Session(id, authorizeUrl)
    ensures forall k :: k in srv.store && k != id ==> step.server.store[k] == srv.store[k]
    ensures id !in srv.store ==> |step.server.store| == |srv.store| + 1
    ensures step.server.revocations == srv.revocations
    ensures step.reply == Sent(302, Some(authorizeUrl), Some(IdPrefix + codec.render(id)), NoBody)
  {
    var store := srv.store[id := Session(id, authorizeUrl)];
    assert id !in srv.store ==> |store.Keys| == |srv.store.Keys + {id}| == |srv.store.Keys| + 1;
    Step(Server(store, srv.revocations), Sent(302, Some(authorizeUrl), Some(IdPrefix + codec.render(id)), NoBody))
  }

  /**
   * `/redirect`: without a session named by the cookie, 400 "Missing cookie"
   * and nothing changes. With one, a query `parseQueryParams` rejects throws,
   * and so does a failed token exchange (`Result.get`): no reply, nothing
   * changes. With a token, the AI is challenged: on success the session is
   * evicted, the cookie cleared and the browser sent to the game; without a
   * challenge the reply is 503 and the session stays. Either way the token is
   * revoked once.
   */
  function Redirect(srv: Server, req: Request, token: AuthResult, challenge: Option<GameId>, codec: IdCodec): (step: Step)
    ensures ReadSession(req.headers, srv.store, codec.parse).None? ==>
      step == Step(srv, Sent(400, None, None, MissingCookie))
    ensures ParseQueryParams(req.query).Failure? || token.AuthFail? ==> step.server == srv
    ensures step.reply.Dropped? <==>
      ReadSession(req.headers, srv.store, codec.parse).Some? && (ParseQueryParams(req.query).Failure? || token.AuthFail?)
    ensures step.server.revocations == srv.revocations + 1 <==>
      ReadSession(req.headers, srv.store, codec.parse).Some? && ParseQueryParams(req.query).Success? && token.AuthOk?
    ensures srv.revocations <= step.server.revocations <= srv.revocations + 1
    ensures step.server.store.Keys <= srv.store.Keys
    ensures forall k :: k in step.server.store ==> step.server.store[k] == srv.store[k]
    ensures step.reply.Sent? && step.reply.status == 302 ==>
      && challenge.Some?
      && step.reply == Sent(302, Some(GameLocation(challenge.value)), Some(IdPrefix + Deleted), NoBody)
    ensures var session := ReadSession(req.headers, srv.store, codec.parse);
      session.Some? && ParseQueryParams(req.query).Success? && token.AuthOk? && challenge.Some? ==>
        && step.server == Server(srv.store - {session.value.id}, srv.revocations + 1)
        && step.reply == Sent(302, Some(GameLocation(challenge.value)), Some(IdPrefix + Deleted), NoBody)
    ensures var session := ReadSession(req.headers, srv.store, codec.parse);
      session.Some? && ParseQueryParams(req.query).Success? && token.AuthOk? && challenge.None? ==>
        step == Step(Server(srv.store, srv.revocations + 1), Sent(503, None, None, ChallengeFailed))
  {
    match ReadSession(req.headers, srv.store, codec.parse)
    case None => Step(srv, Sent(400, None, None, MissingCookie))
    case Some(session) =>
      match ParseQueryParams(req.query)
      case Failure(_) => Step(srv, Dropped)
      case Success(_) =>
        match token
        case AuthFail(_) => Step(srv, Dropped)
        case AuthOk =>
          match challenge
          case Some(gameId) =>
            Step(Server(srv.store - {session.id}, srv.revocations + 1),
                 Sent(302, Some(GameLocation(gameId)), Some(IdPrefix + Deleted), NoBody))
          case None =>
            Step(Server(srv.store, srv.revocations + 1), Sent(503, None, None, ChallengeFailed))
  }

  /** The dispatcher: one transition per request path. */
  function Dispatch(srv: Server, req: Request, oracle: Oracle, config: Config): (step: Step)
    ensures Wf(srv) ==> Wf(step.server)
    ensures srv.revocations <= step.server.revocations <= srv.revocations + 1
    ensures req.path != LoginPath && req.path != RedirectPath ==> step.server == srv
    ensures req.path == RootPath ==> step.reply == Sent(200, None, None, ChallengeForm)
    ensures req.path == GamePath ==> step.reply == GameRoute(req.query, config.lichessUri, config.resolve)
    ensures req.path !in {RootPath, LoginPath, RedirectPath, GamePath} ==> step.reply == Sent(404, None, None, NotFound)
    ensures step.server.store.Keys <= srv.store.Keys + (if req.path == LoginPath then {oracle.freshId} else {})
  {
    if req.path == RootPath then Step(srv, Sent(200, None, None, ChallengeForm))
    else if req.path == LoginPath then Login(srv, oracle.freshId, oracle.authorizeUrl, config.codec)
    else if req.path == RedirectPath then Redirect(srv, req, oracle.token, oracle.challenge, config.codec)
    else if req.path == GamePath then Step(srv, GameRoute(req.query, config.lichessUri, config.resolve))
    else Step(srv, Sent(404, None, None, NotFound))
  }

  /** The session a callback request resolves to, when it resolves. */
  function Resolved(srv: Server, req: Request, codec: IdCodec): Option<Session> {
    ReadSession(req.headers, srv.store, codec.parse)
  }

  /** The session `readSession` finds is stored under its own id. */
  lemma ResolvedSessionStored(srv: Server, req: Request, codec: IdCodec)
    requires Wf(srv)
    requires Resolved(srv, req, codec).Some?
    ensures var s := Resolved(srv, req, codec).value;
      s.id in srv.store && srv.store[s.id] == s
  {
  }

  /**
   * A session leaves the store only on a callback that resolved to it, parsed,
   * obtained a token and created a challenge; the reply is then the redirect
   * to the game with the cookie cleared.
   */
  lemma EvictionOnlyOnChallenge(srv: Server, req: Request, oracle: Oracle, config: Config, k: Uuid)
    requires Wf(srv)
    requires k in srv.store
    ensures var step := Dispatch(srv, req, oracle, config);
      k !in step.server.store <==>
        && req.path == RedirectPath
        && Resolved(srv, req, config.codec) == Some(srv.store[k])
        && ParseQueryParams(req.query).Success?
        && oracle.token.AuthOk?
        && oracle.challenge.Some?
    ensures var step := Dispatch(srv, req, oracle, config);
      k !in step.server.store ==>
        step.reply == Sent(302, Some(GameLocation(oracle.challenge.value)), Some(IdPrefix + Deleted), NoBody)
  {
    if req.path == RedirectPath && Resolved(srv, req, config.codec).Some? {
      ResolvedSessionStored(srv, req, config.codec);
    }
  }

  /**
   * A stored session is never altered: one request leaves it as it was or
   * evicts it, unless it is a login whose fresh UUID collides with it.
   */
  lemma SessionUnaltered(srv: Server, req: Request, oracle: Oracle, config: Config, k: Uuid)
    requires k in srv.store
    requires req.path == LoginPath ==> oracle.freshId != k
    ensures var next := Dispatch(srv, req, oracle, config).server;
      k in next.store ==> next.store[k] == srv.store[k]
  {
  }

  /** The server after handling a sequence of requests, each with the oracle answers for it. */
  function Run(srv: Server, trace: seq<(Request, Oracle)>, config: Config): (end: Server)
    ensures Wf(srv) ==> Wf(end)
    ensures srv.revocations <= end.revocations <= srv.revocations + |trace|
    decreases |trace|
  {
    if |trace| == 0 then srv
    else Run(Dispatch(srv, trace[0].0, trace[0].1, config).server, trace[1..], config)
  }

  /** No login in the trace draws this UUID. */
  ghost predicate NeverIssued(trace: seq<(Request, Oracle)>, k: Uuid) {
    forall i :: 0 <= i < |trace| ==> trace[i].0.path == LoginPath ==> trace[i].1.freshId != k
  }

  lemma NeverIssuedTail(trace: seq<(Request, Oracle)>, k: Uuid)
    requires |trace| > 0 && NeverIssued(trace, k)
    ensures NeverIssued(trace[1..], k)
  {
    forall i | 0 <= i < |trace[1..]| ensures trace[1..][i].0.path == LoginPath ==> trace[1..][i].1.freshId != k {
      assert trace[1..][i] == trace[i + 1];
    }
  }

  /**
   * Across any sequence of requests in which no login draws its UUID, a stored
   * session is either still stored exactly as it was or gone for good: an
   * evicted session cannot come back, so its cookie is useless afterwards.
   */
  lemma {:induction false} SessionFrozen(srv: Server, trace: seq<(Request, Oracle)>, config: Config, k: Uuid)
    requires NeverIssued(trace, k)
    ensures var end := Run(srv, trace, config);
      k in end.store ==> k in srv.store && end.store[k] == srv.store[k]
    decreases |trace|
  {
    if |trace| > 0 {
      NeverIssuedTail(trace, k);
      var next := Dispatch(srv, trace[0].0, trace[0].1, config).server;
      SessionFrozen(next, trace[1..], config, k);
      if k in srv.store {
        SessionUnaltered(srv, trace[0].0, trace[0].1, config, k);
      }
    }
  }
}
