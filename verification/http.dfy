/**
 * What the handlers see of the HTTP exchange and of the two external clients
 * (the OAuth/PKCE client and the challenge client): the request, the reply,
 * and the outcomes those clients report.
 */
module Http {
  import opened Wrappers
  import opened QueryParams

  /** One request header: a name and the list of values sent under it. */
  datatype Header = Header(name: string, values: seq<string>)

  /** The parts of a request the handlers read: the URI path, the query as `getQuery` returns it, percent-decoded (`None` for no query) and the headers. */
  datatype Request = Request(path: string, query: Option<string>, headers: seq<Header>)

  /** The reply body, by the handler branch that produced it. */
  datatype Body =
    | NoBody                      // a 302 sent with `sendResponseHeaders(302, -1)`
    | ChallengeForm               // the static form served at `/`
    | GamePage(html: string)      // the game link page
    | MissingCookie               // "Missing cookie"
    | ChallengeFailed             // "Failed to challenge AI"
    | AuthFailed(reason: string)  // `String.valueOf` of a failed authorization result
    | NotFound                    // "Not Found"

  /**
   * `Sent`: the status, the `Location` and `Set-Cookie` headers, and the body.
   * `Dropped`: the handler threw before replying, so no reply was written.
   */
  datatype Reply =
    | Sent(status: int, location: Option<string>, setCookie: Option<string>, body: Body)
    | Dropped

  /** The text of a body as written to the wire (the game page carries its own HTML). */
  function BodyText(b: Body): string {
    match b
    case NoBody => ""
    case ChallengeForm => ChallengeFormHtml
    case GamePage(html) => html
    case MissingCookie => "Missing cookie"
    case ChallengeFailed => "Failed to challenge AI"
    case AuthFailed(reason) => reason
    case NotFound => "Not Found"
  }

  const RootPath: string := "/"
  const LoginPath: string := "/loginAndChallenge"
  const RedirectPath: string := "/redirect"
  const GamePath: string := "/game"

  const ChallengeFormHtml: string :=
    "<html>\n  <head>\n    <title>Challenge AI</title>\n  </head>\n  <body>\n"
    + "    <form action=\"/loginAndChallenge\">\n"
    + "      <input type=\"submit\" value=\"Challenge AI (5+3, level 1, casual)\"/>\n"
    + "    </form>\n  </body>\n</html>"

  /** The game page template, split around its two `%1$s` placeholders. */
  const GamePageHead: string := "<html>\n  <head><title>Game</title></head>\n  <body>\n    Game: <a href=\""
  const GamePageMiddle: string := "\">"
  const GamePageTail: string := "</a>\n  </body>\n</html>"

  /** `String.format(gameLinkTemplate, link)`: the one argument fills both the `href` and the link text. */
  function GamePageHtml(link: string): (html: string)
    ensures |html| == |GamePageHead| + |link| + |GamePageMiddle| + |link| + |GamePageTail|
    ensures html[..|GamePageHead|] == GamePageHead
    ensures html[|GamePageHead|..|GamePageHead| + |link|] == link
    ensures html[|GamePageHead| + |link|..|GamePageHead| + |link| + |GamePageMiddle|] == GamePageMiddle
    ensures html[|GamePageHead| + |link| + |GamePageMiddle|..|html| - |GamePageTail|] == link
    ensures html[|html| - |GamePageTail|..] == GamePageTail
  {
    GamePageHead + link + GamePageMiddle + link + GamePageTail
  }

  /** The query of the `/game` location the callback redirects to. */
  function GameQuery(gameId: string): string {
    "gameId=" + gameId
  }

  /** `String.format("/game?gameId=%s", id)`. */
  function GameLocation(gameId: string): string {
    GamePath + "?" + GameQuery(gameId)
  }

  /**
   * The `/game` route, the same in both versions: the `gameId` parameter
   * (default empty) is resolved against the Lichess URI and shown as a link;
   * a query that `parseQueryParams` rejects, or a missing one, throws.
   * `resolve` stands for `URI.resolve`.
   */
  function GameRoute(query: Option<string>, lichessUri: string, resolve: (string, string) -> string): (reply: Reply)
    ensures ParseQueryParams(query).Failure? <==> reply == Dropped
    ensures query.None? ==> reply == Dropped
    ensures ParseQueryParams(query).Success? ==>
      var params := ParseQueryParams(query).value;
      var gameId := if "gameId" in params then params["gameId"] else "";
      reply == Sent(200, None, None, GamePage(GamePageHtml(resolve(lichessUri, "/" + gameId))))
  {
    match ParseQueryParams(query)
    case Failure(_) => Dropped
    case Success(params) =>
      var gameId := GetOrDefault(params, "gameId", "");
      Sent(200, None, None, GamePage(GamePageHtml(resolve(lichessUri, "/" + gameId))))
  }

  /**
   * The location the callback redirects to leads back to the same game: a
   * request for it shows the link to that game id, provided the id is non-empty
   * and free of `&` and `=` (as the challenge ids the server hands out are).
   */
  lemma GameLocationRoundTrip(gameId: string, lichessUri: string, resolve: (string, string) -> string)
    requires |gameId| > 0 && '&' !in gameId && '=' !in gameId
    ensures GameLocation(gameId) == GamePath + "?" + GameQuery(gameId)
    ensures GameRoute(Some(GameQuery(gameId)), lichessUri, resolve)
         == Sent(200, None, None, GamePage(GamePageHtml(resolve(lichessUri, "/" + gameId))))
  {
    var key := "gameId";
    assert '=' !in key && '&' !in key by {
      assert forall i :: 0 <= i < |key| ==> key[i] != '=' && key[i] != '&';
    }
    assert GameQuery(gameId) == key + "=" + gameId;
    SinglePair(key, gameId);
    var params := map[key := gameId];
    assert ParseQueryParams(Some(GameQuery(gameId))) == Success(params);
    assert GetOrDefault(params, key, "") == gameId;
  }
}

/** Outcomes reported by the external OAuth and challenge clients, passed to the handlers as inputs. */
module Clients {

  /** `AuthResult`: a usable client (`AuthOk`) or a failure carrying its printed form. */
  datatype AuthResult = AuthOk | AuthFail(description: string)

  /** The id of a challenge created against the AI. */
  type GameId = string
}
