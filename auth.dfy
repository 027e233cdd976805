/**
 * Identity as the route handlers see it, and the choice of database client
 * from the request's `Authorization` header.
 */
module Auth {

  import opened Wrappers
  import opened JsString

  type UserId = string

  /** A signed-in user as the auth provider reports it. */
  datatype User = User(id: UserId, email: Option<string>)

  /** The answer of `auth.getUser()`: a user, an error, or neither. */
  datatype Session = Session(user: Option<User>, error: Option<string>)

  /** The handlers proceed only with a user and no error. */
  predicate Authenticated(s: Session) {
    s.error.None? && s.user.Some?
  }

  /** The client a route handler talks to the database with. */
  datatype Client =
    | TokenClient(authorization: string)   // a plain client that forwards this Authorization header
    | CookieClient                         // the auth-helpers client that reads the session cookies

  const SchemePrefix := "bearer "
  const CanonicalScheme := "Bearer "

  /** The bearer token in the header, when its scheme is `bearer` in any ASCII case. */
  function BearerToken(authHeader: Option<string>): Option<string> {
    match authHeader
    case None => None
    case Some(h) =>
      if StartsWith(LowerAscii(h), SchemePrefix) then Some(h[|SchemePrefix|..]) else None
  }

  /** `createSupabaseServer(authHeader)` */
  function CreateServerClient(authHeader: Option<string>): Client {
    match BearerToken(authHeader)
    case Some(token) => TokenClient(CanonicalScheme + token)
    case None => CookieClient
  }

  /** The first seven characters spell `bearer ` up to ASCII case. */
  predicate HasBearerScheme(h: string) {
    |h| >= |SchemePrefix| && forall i :: 0 <= i < |SchemePrefix| ==> LowerChar(h[i]) == SchemePrefix[i]
  }

  /**
   * The token branch is taken exactly when the header is present and begins
   * with `bearer ` in any ASCII case; the token is the header with exactly
   * those seven characters cut off, neither trimmed nor checked.
   */
  lemma BearerTokenSpec(h: string)
    ensures BearerToken(Some(h)).Some? <==> HasBearerScheme(h)
    ensures BearerToken(Some(h)).Some? ==> h == h[..|SchemePrefix|] + BearerToken(Some(h)).value
  {
    var lower := LowerAscii(h);
    if HasBearerScheme(h) {
      assert lower[..|SchemePrefix|] == SchemePrefix;
    }
    if StartsWith(lower, SchemePrefix) {
      forall i | 0 <= i < |SchemePrefix| ensures LowerChar(h[i]) == SchemePrefix[i] {
        assert lower[..|SchemePrefix|][i] == lower[i];
      }
    }
  }

  /** Any seven-character spelling of the scheme that lowers to `bearer ` yields the token after it. */
  lemma TokenAfterAnyCasing(scheme: string, token: string)
    requires |scheme| == |SchemePrefix| && LowerAscii(scheme) == SchemePrefix
    ensures BearerToken(Some(scheme + token)) == Some(token)
    ensures CreateServerClient(Some(scheme + token)) == TokenClient(CanonicalScheme + token)
  {
    var h := scheme + token;
    forall i | 0 <= i < |SchemePrefix| ensures LowerChar(h[i]) == SchemePrefix[i] {
      assert h[i] == scheme[i];
      assert LowerAscii(scheme)[i] == LowerChar(scheme[i]);
    }
    BearerTokenSpec(h);
    assert h[|SchemePrefix|..] == token;
  }

  /** `Bearer x`, `BEARER x` and `bearer x` all give token `x`; `Bearer ` gives the empty token, `Bearer  x` gives ` x`. */
  lemma TokenExamples()
    ensures BearerToken(Some("Bearer x")) == Some("x")
    ensures BearerToken(Some("BEARER x")) == Some("x")
    ensures BearerToken(Some("bearer x")) == Some("x")
    ensures BearerToken(Some("Bearer ")) == Some("")
    ensures BearerToken(Some("Bearer  x")) == Some(" x")
  {
    TokenAfterAnyCasing("Bearer ", "x");
    TokenAfterAnyCasing("BEARER ", "x");
    TokenAfterAnyCasing("bearer ", "x");
    TokenAfterAnyCasing("Bearer ", "");
    TokenAfterAnyCasing("Bearer ", " x");
    assert "Bearer " + "" == "Bearer ";
  }

  /** A missing header, `Bearer` without the space, or another scheme falls back to the cookie client. */
  lemma CookieFallbackExamples(credentials: string)
    ensures CreateServerClient(None) == CookieClient
    ensures CreateServerClient(Some("Bearer")) == CookieClient
    ensures CreateServerClient(Some("Basic " + credentials)) == CookieClient
  {
    BearerTokenSpec("Bearer");
    var h := "Basic " + credentials;
    BearerTokenSpec(h);
    assert h[1] == 'a' && LowerChar(h[1]) != SchemePrefix[1];
  }

  /**
   * The forwarded header is always the canonical `Bearer ` followed by the
   * token, whatever casing the request used; and the header round-trips:
   * reading it back gives the same token.
   */
  lemma ForwardedHeaderCanonical(authHeader: Option<string>)
    ensures CreateServerClient(authHeader).TokenClient? ==>
      && authHeader.Some? && BearerToken(authHeader).Some?
      && CreateServerClient(authHeader).authorization == CanonicalScheme + BearerToken(authHeader).value
      && CreateServerClient(Some(CreateServerClient(authHeader).authorization)) == CreateServerClient(authHeader)
  {
    if CreateServerClient(authHeader).TokenClient? {
      var token := BearerToken(authHeader).value;
      assert LowerAscii(CanonicalScheme) == SchemePrefix;
      TokenAfterAnyCasing(CanonicalScheme, token);
    }
  }
}
