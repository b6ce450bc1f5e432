/**
 * The requests a browser sends back to the handlers after a login: the
 * callback to `/redirect`, carrying the `id` cookie the login set.
 */
module Browser {
  import opened Wrappers
  import opened Http
  import opened Cookies

  /** The callback request (`/redirect` with a query) a browser sends back with the cookie the login set, under a cookie header name. */
  function CallbackRequest(codec: IdCodec, id: Uuid, query: string, cookieName: string): Request {
    Request(RedirectPath, Some(query), [Header(cookieName, [IdPrefix + codec.render(id)])])
  }
}
