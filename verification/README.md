# challengeaiexample, modelled in Dafny

challengeaiexample is a small Java HTTP program. A visitor presses a button
and logs in to Lichess with OAuth (PKCE). The program then challenges the
Lichess AI to a game on the visitor's behalf and links to the new game. Two
near-identical versions of `Main.java` exist:

- The current version, `src/main/java/example/Main.java`, keeps two write-once
  futures per session:
  - the code and state the OAuth callback delivers;
  - the authorization result the login handler's OAuth exchange produces.
- The earlier version, `src/challengeaiexample/example/Main.java`, keeps one
  future per session: the authorization URL with its token exchange.

This project models the program's logic and proves properties of it:

- **Session-cookie resolution** (`readSession`, module `Cookies`).
- **Query-string parsing** (`parseQueryParams`, module `QueryParams`). Java's
  `String.split` semantics are written out in module `JavaStrings`.
- **Route handlers** (`/`, `/loginAndChallenge`, `/redirect`, `/game` and the
  404 default), modelled as pure transitions over the session store:
  - `TwoFutureServer` for the current version, `OneFutureServer` for the
    earlier one.
  - `TwoFutureFlow` and `OneFutureFlow` hold whole-flow properties.
  - A counter records token revocations.
  - Everything outside the handlers is an input of the transition: the fresh
    UUID, the authorization URL, the outcome of the OAuth exchange and the
    challenge client's answer.
- **Settings** (`parseArgs`, `load`, `find` and the getters' defaults, module
  `Settings`), with a `Variant` for the one default that differs between the
  versions.

Modelling choices:

- **Write-once slots.** A `CompletableFuture` is an `Option` slot that
  `OneShot.Complete` fills at most once.
- **Threads made sequential.** In the current version, the login handler's
  thread blocks inside the OAuth client until the callback completes the
  code-and-state slot. It then completes the authorization slot, which the
  callback handler is waiting on. Both steps happen inside one `/redirect`
  request, so the model folds them into the `/redirect` transition.
- **Exceptions.** A handler that throws sends no reply and changes nothing; the
  model returns `Reply.Dropped` for it. This covers:
  - a query `parseQueryParams` rejects;
  - a failed token exchange in the earlier version, on the assumption that
    chariot's `Result.get()` throws for a failed result (see "Left out").
- **UUID syntax** is abstract (`IdCodec`). `CodecSound` assumes only two
  things: `toString` writes 36 lower-case hex digits and dashes, and
  `fromString` reads that text back.
- **`findAny`** is modelled as "first match", in both `readSession` and
  `Settings.find`:
  - For the settings, `LoadKindsDistinct` shows no option kind occurs twice,
    so the choice makes no difference.
  - For cookies, the sequential stream returns the first candidate.

Session lifetime, as the code has it:

- A session is evicted only when a challenge is created. Nothing evicts it
  after a failed challenge, a failed authorization or a failed token exchange,
  and there is no timeout.
- In the earlier version, with `Result.get()` throwing on a failed exchange,
  the browser gets no reply (not a 503) and nothing is revoked.
- In the current version, a callback whose query cannot be parsed throws
  before the code-and-state slot is completed. The login handler stays blocked
  until a later callback with a parseable query for the same session arrives;
  that callback completes the slot and can then lead to the session's eviction.

## Model

| member | source | states |
|---|---|---|
| OneShot.Complete | src/main/java/example/Main.java:82 | `complete` on an empty slot stores the value; on a filled slot it keeps the first value |
| OneShot.FirstWriteWins | src/main/java/example/Main.java:82 | completing a slot a second time leaves the first value in place |
| JavaStrings.Pieces | src/main/java/example/Main.java:117 | the raw pieces between delimiters contain no delimiter, and joining them with the delimiter gives back the text |
| JavaStrings.Split | src/main/java/example/Main.java:117 | one-character `split`: `[s]` when the delimiter is absent; otherwise a prefix of the raw pieces whose dropped tail is all empty strings and whose last kept piece is non-empty |
| JavaStrings.PiecesAtFirst | src/main/java/example/Main.java:157-158 | a text containing the delimiter splits into the text before its first occurrence, then the pieces of the rest |
| JavaStrings.PiecesEmptyOnlyDelimiters | src/main/java/example/Main.java:157-158 | if every raw piece is empty, the text is made of delimiters only |
| JavaStrings.OnlyDelimitersPiecesEmpty | src/main/java/example/Main.java:157-158 | a text made of delimiters only yields only empty pieces, so `split` drops them all |
| JavaStrings.TrimStart | src/main/java/example/Main.java:118 | the result is a suffix of the text, everything removed is at most U+0020, and the result starts with a character above U+0020 or is empty |
| JavaStrings.TrimEnd | src/main/java/example/Main.java:118 | the result is a prefix of the text, everything removed is at most U+0020, and the result ends with a character above U+0020 or is empty |
| JavaStrings.TrimFrame | src/main/java/example/Main.java:118 | what `trim` keeps (`TrimEnd(TrimStart(s))`, the body of `Trim`) is the text with a run of characters at most U+0020 before it and another after it, and has no such character at either end |
| JavaStrings.Trim | src/main/java/example/Main.java:118 | the result is no longer than the text and is empty or has characters above U+0020 at both ends |
| JavaStrings.TrimPadded | src/main/java/example/Main.java:118 | `trim` of a text padded on both sides with characters at most U+0020 is the text, when the text's own ends are above U+0020 |
| JavaStrings.TrimIdempotent | src/main/java/example/Main.java:118 | trimming twice is trimming once |
| JavaStrings.PiecesJoin | src/main/java/example/Main.java:117 | splitting pieces joined by a delimiter they do not contain gives those pieces back |
| JavaStrings.TwoPiecesPrefix | src/main/java/example/Main.java:157-158 | the first two pieces with the delimiter between them start the text |
| JavaStrings.IsWhitespace | src/main/java/example/Main.java:122 | `Character.isWhitespace` excludes the no-break spaces U+00A0, U+2007 and U+202F; every ASCII whitespace character is one `trim` removes; a character `trim` removes is not whitespace iff it is below TAB or between CR and FS |
| JavaStrings.IsBlank | src/main/java/example/Main.java:122 | the empty text is blank, and a non-empty blank text starts and ends with whitespace |
| JavaStrings.BlankAsciiTrimsAway | src/main/java/example/Main.java:118-122 | a blank text of ASCII characters trims to the empty text |
| JavaStrings.BlankNotTrimmed | src/main/java/example/Main.java:118-122 | `isBlank` and `trim` differ outside ASCII: a lone U+2000 is blank, yet `trim` keeps it |
| JavaStrings.LowerCase | src/main/java/example/Main.java:114 | lowering keeps the length and maps each character through `LowerChar` (ASCII capitals and the Kelvin sign) |
| QueryParams.ParseSegmentReference | src/main/java/example/Main.java:156-158 | `s.split("=")` yields a key and a value exactly when some character other than `=` follows the first `=`; the key is then the text before the first `=` and the value the text between the first and second `=` |
| QueryParams.ParseSegment | src/main/java/example/Main.java:157-158 | a segment's key and value contain no `=`, and the segment starts with key, `=`, value; a segment without `=` has no value |
| QueryParams.SegmentWithValue | src/main/java/example/Main.java:157-158 | when `split("=")` yields two or more strings, entry 0 is the text before the first `=` and entry 1 is the text up to the next `=` |
| QueryParams.SegmentWithoutValue | src/main/java/example/Main.java:158 | when `split("=")` yields fewer than two strings, nothing but `=` follows the first `=` (`split("=")[1]` throws) |
| QueryParams.CollectStep | src/main/java/example/Main.java:156-158 | one step of `toMap`: a segment without a value fails, a repeated key fails, otherwise its key and value are added |
| QueryParams.Collect | src/main/java/example/Main.java:156-158 | a successful `toMap` adds exactly one new entry per segment; a failure is a segment without a value, which is one of the segments, or a repeated key |
| QueryParams.CollectSucceeds | src/main/java/example/Main.java:156-158 | `toMap` succeeds iff every segment has a value, the keys are pairwise distinct, and none was collected before |
| QueryParams.CollectKeys | src/main/java/example/Main.java:156-158 | a successful `toMap` has as keys the previous keys plus every segment's key |
| QueryParams.CollectKeepsEntries | src/main/java/example/Main.java:156-158 | a successful `toMap` keeps every entry collected before |
| QueryParams.CollectBinds | src/main/java/example/Main.java:156-158 | a successful `toMap` maps each segment's key to that segment's value |
| QueryParams.ParseQueryParams | src/main/java/example/Main.java:155-156 | a null query fails (`query.split` throws) |
| QueryParams.ParseQuerySucceeds | src/main/java/example/Main.java:155-159 | `parseQueryParams(q)` succeeds iff every `&`-segment has a value and no key repeats (the earlier version's copy, lines 150-154, is identical) |
| QueryParams.ParseQueryContents | src/main/java/example/Main.java:155-159 | a parsed query's keys are exactly the segments' keys, each mapped to its segment's value |
| QueryParams.SinglePair | src/main/java/example/Main.java:155-159 | `key=value`, with a key free of `=` and `&` and a non-empty value free of both, parses to the one entry `key -> value` |
| QueryParams.GetOrDefault | src/main/java/example/Main.java:79-80 | `getOrDefault` returns the bound value when the key is present, the default otherwise |
| Http.GamePageHtml | src/main/java/example/Main.java:28-34 | the formatted page is the template with the one argument both as `href` and as link text, at the stated positions |
| Http.GameRoute | src/main/java/example/Main.java:98-103 | `/game` answers 200 with the page linking to `resolve(lichessUri, "/" + gameId)` (`gameId` defaults to empty); a missing or unparsable query throws (the same in both versions) |
| Http.GameLocationRoundTrip | src/main/java/example/Main.java:89 | the `/game?gameId=<id>` location the callback redirects to leads `/game` to the link for that same id |
| Cookies.CookieHeaderCaseInsensitive | src/main/java/example/Main.java:114 | a header name passes `toLowerCase().equals("cookie")` iff it has six characters, each one of the cases of the corresponding letter (or the Kelvin sign for `k`) |
| Cookies.IdEntry | src/main/java/example/Main.java:118-122 | a piece contributes a candidate only if it trims to `id=` plus that candidate, which is neither `deleted` nor blank; a trimmed `id=` piece is dropped only for `deleted` or blank text |
| Cookies.Candidates | src/main/java/example/Main.java:114-122 | no candidate is `deleted` or blank, and there is none without a header named `cookie` |
| Cookies.ReadSession | src/main/java/example/Main.java:113-128 | a session is returned iff the first candidate parses as a UUID present in the store, and it is the stored session; otherwise `None` (both versions share this code) |
| Cookies.CandidatesEmpty | src/main/java/example/Main.java:113-125 | there is no candidate iff no header named `cookie` carries a `;`-piece that trims to `id=` followed by text that is neither `deleted` nor blank |
| Cookies.NoEntryNoSession | src/main/java/example/Main.java:113-125 | such a request resolves to no session, whatever the store |
| Cookies.IdEntryPadded | src/main/java/example/Main.java:118-122 | an `id=<text>` piece padded on both sides with characters at most U+0020 yields the text, when the text is neither `deleted` nor blank and has no such character at either end |
| Cookies.DeletedEntrySkipped | src/main/java/example/Main.java:121 | the cleared cookie `id=deleted`, however padded, yields no candidate |
| Cookies.EmptyEntrySkipped | src/main/java/example/Main.java:122 | an empty `id=`, however padded, yields no candidate |
| Cookies.ReadSessionFirstCandidate | src/main/java/example/Main.java:123-125 | the first candidate alone decides: its UUID's session if stored, `None` otherwise |
| Cookies.SetCookieResolves | src/main/java/example/Main.java:61 | the cookie `id=<uuid>` the login sets, sent back as the first value of the first cookie header, resolves to that UUID's session whatever follows it |
| Cookies.CookieListCandidates | src/main/java/example/Main.java:117-122 | a cookie value listing other cookies and then `id=<uuid>` has that UUID text as its only candidate |
| Cookies.CookieAfterOthersResolves | src/main/java/example/Main.java:113-125 | a browser's cookie header listing other cookies before the login's `id=<uuid>` resolves to that UUID's session |
| Cookies.SingleCookieResolves | src/challengeaiexample/example/Main.java:62 | a request carrying only the login's cookie resolves to that UUID's session |
| Cookies.ClearedCookieResolvesNothing | src/main/java/example/Main.java:88 | once the cookie is reset to `id=deleted`, it resolves to no session |
| Settings.ParseArgs | src/main/java/example/Main.java:183-187 | a public URI option exists iff there is exactly one argument, and it is that argument (the same in both versions) |
| Settings.LoadSources | src/main/java/example/Main.java:175-181 | every loaded option comes from the single argument or from the matching environment variable |
| Settings.LoadKindsDistinct | src/main/java/example/Main.java:175-187 | the loaded list holds each option kind at most once, so `findAny` has one choice |
| Settings.Find | src/main/java/example/Main.java:217-222 | `find` returns `None` iff no option has the kind; otherwise an option of that kind from the list, namely the first |
| Settings.FindUnique | src/challengeaiexample/example/Main.java:210-215 | when all options of a kind are equal, `find` returns that option |
| Settings.LoadedPublicUri | src/main/java/example/Main.java:194-197 | the public URI is the single argument, else the version's default: `http://localhost:8000/` here, `https://challengeaiexample.herokuapp.com` in the earlier version |
| Settings.LichessUriOf | src/main/java/example/Main.java:189-192 | `lichessURI()` is the URI of the `LICHESS_URI` option `find` returns, or `https://lichess.org` when there is none |
| Settings.PublicUriOf | src/main/java/example/Main.java:194-197 | `publicURI()` is the URI of the public-URI option `find` returns, or the version's default when there is none |
| Settings.BindPortOf | src/main/java/example/Main.java:199-202 | `bindPort()` is the port of the `PORT` option `find` returns, or 8000 when there is none |
| Settings.BindAddressOf | src/main/java/example/Main.java:204-207 | `bindAddress()` is the address of the `BIND_ADDRESS` option `find` returns, or `0.0.0.0` when there is none |
| Settings.LoadedLichessUri | src/main/java/example/Main.java:189-192 | the Lichess URI is `LICHESS_URI` when set, else `https://lichess.org` |
| Settings.LoadedBindPort | src/main/java/example/Main.java:199-202 | the port is `PORT` when set, else 8000 |
| Settings.LoadedBindAddress | src/main/java/example/Main.java:204-207 | the bind address is `BIND_ADDRESS` when set, else `0.0.0.0` |
| Settings.Defaults | src/challengeaiexample/example/Main.java:182-200 | with no arguments and no environment, every getter returns its default, for each version |
| TwoFutureServer.Login | src/main/java/example/Main.java:58-63 | adds exactly one entry under the fresh id with both slots empty, leaves every other entry as it was, grows the store by one for a fresh id, revokes nothing, and replies 302 to the authorization URL with `Set-Cookie: id=<id>` |
| TwoFutureServer.Deliver | src/main/java/example/Main.java:82-83 | the callback's code and state, and then the exchange's result, each land in their slot only if it is empty; filled slots keep their values |
| TwoFutureServer.CallbackParams | src/main/java/example/Main.java:78-80 | code and state are the query's `code` and `state` parameters, or `""` when absent |
| TwoFutureServer.Conclude | src/main/java/example/Main.java:84-95 | with a client and a challenge: evict, `id=deleted`, 302 to `/game?gameId=<id>`, one revocation; with a client and no challenge: 503, entry kept, one revocation; with a failed authorization: 503 with its description, entry kept, no revocation; other entries unchanged |
| TwoFutureServer.Redirect | src/main/java/example/Main.java:73-96 | no resolvable session: 400 "Missing cookie", nothing changes; an unparsable query: no reply, nothing changes; at most one revocation |
| TwoFutureServer.Dispatch | src/main/java/example/Main.java:54-106 | `/` serves the form, `/game` the game route, other paths 404; only login and callback change the store; the store invariant is kept; keys never appear except the login's fresh id |
| TwoFutureServer.RedirectPreservesWf | src/main/java/example/Main.java:73-96 | the callback keeps every session under its own id with its two slots both empty or both filled, and adds no key |
| TwoFutureServer.EvictionOnlyOnChallenge | src/main/java/example/Main.java:84-91 | a session leaves the store iff a callback resolved to it, its query parsed, its authorization result is a client and a challenge was created; the reply is then the 302 to the game with `id=deleted` |
| TwoFutureServer.RevocationOnlyAfterAuthOk | src/main/java/example/Main.java:84-95 | a token is revoked iff a callback resolved, its query parsed and the session's authorization result is a client, whatever the challenge outcome |
| TwoFutureServer.StepKeepsFilledSession | src/main/java/example/Main.java:82-83 | in a store that keeps the invariant (sessions under their own ids, both slots empty or both filled), no request other than a login that draws its UUID alters a session whose slots are filled; it is kept as it was or evicted (a login drawing the same UUID replaces it through `sessions.put`) |
| TwoFutureServer.Run | src/main/java/example/Main.java:53-107 | any sequence of requests keeps the store invariant and revokes at most once per request |
| TwoFutureServer.AbsentStaysAbsent | src/main/java/example/Main.java:59-60 | an id absent from the store stays absent while no login draws it |
| TwoFutureServer.FilledSessionFrozen | src/main/java/example/Main.java:82-83 | from a store that keeps the invariant, across any sequence of requests in which no login draws its UUID, a filled session stays exactly as it was or is gone for good |
| TwoFutureFlow.CallbackAfterLogin | src/main/java/example/Main.java:59-83 | the callback carrying the login's cookie finds the login's empty session and completes both slots with its code and state and the exchange's result |
| TwoFutureFlow.ConcludeAfterLogin | src/main/java/example/Main.java:59-60 | concluding a fresh login's session either restores the store from before the login (eviction) or leaves the completed session in the login's entry |
| TwoFutureFlow.LoginThenChallenge | src/main/java/example/Main.java:58-92 | login, then callback with a client and a challenge: the store is as before the login, one token is revoked, and the reply is 302 to the game with the cookie cleared |
| TwoFutureFlow.LoginThenNoChallenge | src/main/java/example/Main.java:58-92 | login, then callback with a client and no challenge: 503, one revocation, the completed session stays |
| TwoFutureFlow.LoginThenAuthFailure | src/main/java/example/Main.java:58-95 | login, then callback whose exchange fails: 503 with the failure, no revocation, the completed session stays |
| TwoFutureFlow.ReplayAfterChallenge | src/main/java/example/Main.java:74-76 | replaying the callback after the game was created gets 400 "Missing cookie" and changes nothing |
| OneFutureServer.Login | src/challengeaiexample/example/Main.java:59-67 | adds exactly one entry under the fresh id holding the authorization URL, leaves every other entry as it was, and replies 302 to that URL with `Set-Cookie: id=<id>` |
| OneFutureServer.Redirect | src/challengeaiexample/example/Main.java:70-90 | no resolvable session: 400, nothing changes; an unparsable query or a failed token exchange: no reply, nothing changes; with a token and a challenge: the resolved session is evicted, one revocation, 302 to the game with `id=deleted`; with a token and no challenge: 503, store kept, one revocation; revoked iff a session resolved, the query parsed and a token was obtained; it only removes entries |
| OneFutureServer.Dispatch | src/challengeaiexample/example/Main.java:54-101 | `/` serves the form, `/game` the game route, other paths 404; only login and callback change the store; sessions stay under their own ids; keys never appear except the login's fresh id |
| OneFutureServer.EvictionOnlyOnChallenge | src/challengeaiexample/example/Main.java:79-88 | a session leaves the store iff a callback resolved to it, its query parsed, a token was obtained and a challenge created; the reply is then the 302 to the game with `id=deleted` |
| OneFutureServer.SessionUnaltered | src/challengeaiexample/example/Main.java:59-90 | no request other than a colliding login alters a stored session; it is kept as it was or evicted |
| OneFutureServer.Run | src/challengeaiexample/example/Main.java:54-101 | any sequence of requests keeps sessions under their own ids and revokes at most once per request |
| OneFutureServer.SessionFrozen | src/challengeaiexample/example/Main.java:59-91 | across any sequence of requests in which no login draws its UUID, a session is still stored exactly as it was or gone for good |
| OneFutureFlow.CallbackFindsLogin | src/challengeaiexample/example/Main.java:60-71 | the callback carrying the login's cookie resolves to the session the login stored |
| OneFutureFlow.LoginThenChallenge | src/challengeaiexample/example/Main.java:59-90 | login, then callback with a token and a challenge: the store is as before the login, one revocation, 302 to the game with the cookie cleared |
| OneFutureFlow.LoginThenNoChallenge | src/challengeaiexample/example/Main.java:59-90 | login, then callback with a token and no challenge: 503, one revocation, the session stays |
| OneFutureFlow.LoginThenTokenFailure | src/challengeaiexample/example/Main.java:59-79 | login, then callback whose token exchange fails: no reply, no revocation, the session stays |
| OneFutureFlow.ReplayAfterChallenge | src/challengeaiexample/example/Main.java:71-74 | replaying the callback after the game was created gets 400 and changes nothing |

## Left out

- The HTTP server, socket binding, the thread pool, and the blocking of
  `join()`. Requests are handled one after another. Two callbacks racing on
  one session, and a callback arriving before the earlier version's login has
  completed its future, are not modelled.
- The OAuth/PKCE client and the challenge client (chariot). Their answers are
  inputs of each transition, and `revokeToken` is a counter. The exchange
  itself, the `state` check inside the library and the challenge parameters are
  not modelled.
- A login whose OAuth client fails before calling the redirect callback. In the
  current version this leaves the login request without a reply. The model's
  login always replies 302.
- UUID generation: the fresh id is an input. UUID text syntax is abstract
  (`IdCodec`).
- `URI.create`, `URI.resolve`, `InetAddress.getByName`, `Integer.parseInt` and
  `System.getenv`:
  - The environment is given already parsed.
  - URIs and addresses are kept as text.
  - `resolve` is a parameter.
  - Their exceptions are not modelled.
- The `content-type` header the current version adds, and the HTML text beyond
  the placement of the game link. The form is a constant.
- Header-name normalisation by the HTTP server. `toLowerCase` is modelled only
  for the characters that lower to ASCII letters (ASCII capitals and the Kelvin
  sign), which is enough to compare with `cookie`.
- The order of the request's header entries. The server keeps them in a hash map,
  so `entrySet` has no defined order. The model reads them in the order given,
  and `findAny` on the sequential stream is the first candidate in that order.
- Printing the settings at start-up, and `bindSocketAddress`.
- Timeout-based eviction of abandoned sessions: the code has none.
- OneFutureServer.Redirect: assumes chariot's `Result.get()` throws for a failed
  token exchange, so the callback drops the request. Chariot is not part of
  this model. If `get()` returned null instead, lines 80-90 of the earlier
  version would still run: a challenge attempt with no token, then
  `revokeToken`.
- Percent-decoding: a request's query is taken as `getQuery` returns it,
  already decoded. The model does not decode it.
- Locale: `toLowerCase` is modelled with root-locale results. In a Turkish
  default locale, `COOKIE` lowers to `cookıe` and is not recognised, while
  `COOKİE` lowers to `cookie`.
- Failed logins in the earlier version: if `oauthPKCEwithCustomRedirect`
  throws (lines 63-66), the session is already stored but its future never
  completes. A later callback carrying its cookie then blocks for ever in
  `join()` (line 79). The model's login always completes the future.
- Failed logins in the current version: a login whose thread dies before
  completing the authorization slot leaves its session's `authResultFuture`
  empty. A later callback for that session blocks for ever on
  `authFuture.join()` (line 83). The model folds the exchange into the
  callback, so it does not show that block.
- Settings.Load: its own contract states only the length bound. What it builds
  is stated by `Settings.LoadSources`, `Settings.LoadKindsDistinct` and the
  `Settings.Loaded*` lemmas.
