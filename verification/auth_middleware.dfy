/**
 * The administrator's login and the guard in front of every admin route. Signing and
 * signature checking are abstract: a `Keys` value holds the signing function and the
 * decoding function of the configured secret; expiry is checked here, as the token
 * library does. Times in this module are whole seconds.
 */
module AuthMiddleware {
  import opened Common

  // ---------------------------------------------------------------------------------------
  // Splitting the Authorization header

  /** `s.split(' ')`: the pieces between single spaces; the empty string gives one empty piece. */
  function Split(s: string): (r: seq<string>)
    ensures |r| >= 1
    ensures forall i :: 0 <= i < |r| ==> ' ' !in r[i]
  {
    if s == [] then [""]
    else
      var rest := Split(s[1..]);
      if s[0] == ' ' then [""] + rest
      else
        assert ' ' !in [s[0]] + rest[0];
        [[s[0]] + rest[0]] + rest[1..]
  }

  /** `parts.join(' ')`. */
  function Join(parts: seq<string>): string {
    if parts == [] then ""
    else if |parts| == 1 then parts[0]
    else parts[0] + " " + Join(parts[1..])
  }

  /** Joining the pieces of a split restores the string. */
  lemma {:induction false} JoinSplit(s: string)
    ensures Join(Split(s)) == s
  {
    if s != [] {
      JoinSplit(s[1..]);
      var rest := Split(s[1..]);
      if s[0] == ' ' {
        assert s == [' '] + s[1..];
      } else if |rest| == 1 {
        assert s == [s[0]] + s[1..];
      } else {
        assert rest == [rest[0]] + rest[1..];
        assert ([[s[0]] + rest[0]] + rest[1..])[1..] == rest[1..];
        assert s == [s[0]] + s[1..];
      }
    }
  }

  /** Splitting at a space concatenates the pieces of both sides. */
  lemma {:induction false} SplitAtSpace(a: string, b: string)
    ensures Split(a + " " + b) == Split(a) + Split(b)
  {
    if a == [] {
      assert a + " " + b == [' '] + b;
      assert (a + " " + b)[1..] == b;
    } else {
      var s := a + " " + b;
      assert s[0] == a[0] && s[1..] == a[1..] + " " + b;
      SplitAtSpace(a[1..], b);
      var left := Split(a[1..]);
      var rest := Split(s[1..]);
      assert rest == left + Split(b);
      if a[0] != ' ' {
        assert rest[0] == left[0];
        assert rest[1..] == left[1..] + Split(b);
        assert Split(s) == [[a[0]] + left[0]] + (left[1..] + Split(b));
        assert Split(a) == [[a[0]] + left[0]] + left[1..];
      }
    }
  }

  /** A string without spaces is a single piece. */
  lemma {:induction false} SplitNoSpace(s: string)
    requires ' ' !in s
    ensures Split(s) == [s]
  {
    if s != [] {
      assert ' ' !in s[1..];
      SplitNoSpace(s[1..]);
      assert s == [s[0]] + s[1..];
    }
  }

  /**
   * The token of `authorization?.split(' ')[1]`: the second space-separated piece of the
   * header, or nothing when the header is absent, has no second piece or that piece is empty.
   */
  function TokenOf(authorization: Option<string>): (r: Option<string>)
    ensures authorization.None? ==> r.None?
    ensures authorization.Some? ==>
      r == if |Split(authorization.value)| >= 2 && Split(authorization.value)[1] != ""
           then Some(Split(authorization.value)[1]) else None
    ensures r.Some? ==> r.value != "" && ' ' !in r.value
    ensures authorization.Some? && ' ' !in authorization.value ==> r.None?
  {
    match authorization
    case None => None
    case Some(h) =>
      var parts := Split(h);
      if ' ' !in h then
        SplitNoSpace(h);
        None
      else if |parts| >= 2 && parts[1] != "" then Some(parts[1]) else None
  }

  /**
   * In `scheme + " " + token + rest`, where the scheme and the token hold no space and the
   * rest is empty or starts with a space, the extracted token is `token`, whatever the scheme.
   */
  lemma BearerToken(scheme: string, token: string, rest: string)
    requires ' ' !in scheme && ' ' !in token && token != ""
    requires rest == "" || rest[0] == ' '
    ensures TokenOf(Some(scheme + " " + token + rest)) == Some(token)
  {
    SplitNoSpace(scheme);
    SplitNoSpace(token);
    if rest == "" {
      assert scheme + " " + token + rest == scheme + " " + token;
      SplitAtSpace(scheme, token);
    } else {
      var tail := rest[1..];
      assert scheme + " " + token + rest == scheme + " " + (token + " " + tail);
      SplitAtSpace(token, tail);
      SplitAtSpace(scheme, token + " " + tail);
    }
  }

  // ---------------------------------------------------------------------------------------
  // Tokens

  /** The claims a token carries; `exp` is absent for a token signed without an expiry. */
  datatype Payload = Payload(username: string, role: string, iat: int, exp: Option<int>)

  /**
   * The configured secret, abstractly: `sign` produces a token for a payload and `decode`
   * gives back the payload of a well-formed token whose signature matches, None otherwise.
   */
  datatype Keys = Keys(sign: Payload -> string, decode: string -> Option<Payload>)

  /** Signing then decoding round-trips, and signed tokens are non-empty and space-free. */
  ghost predicate Sound(k: Keys) {
    forall p :: k.decode(k.sign(p)) == Some(p) && k.sign(p) != "" && ' ' !in k.sign(p)
  }

  /** The token library's check: a good signature, and the clock (seconds) before `exp`. */
  function Verify(k: Keys, token: string, now: int): (r: Option<Payload>)
    ensures r.Some? ==> k.decode(token) == r && (r.value.exp.Some? ==> now < r.value.exp.value)
    ensures k.decode(token).Some? && (k.decode(token).value.exp.None? || now < k.decode(token).value.exp.value) ==> r.Some?
  {
    match k.decode(token)
    case None => None
    case Some(p) => if p.exp.Some? && now >= p.exp.value then None else Some(p)
  }

  // ---------------------------------------------------------------------------------------
  // The guard

  const NoTokenMessage: string := "Access denied. No token provided."
  const BadTokenMessage: string := "Invalid or expired token."

  datatype Decision = Proceed(claims: Payload) | Reject(failure: Failure)

  /** What `authenticateAdmin` decides for a request with this Authorization header. */
  function Guard(authorization: Option<string>, k: Keys, now: int): (d: Decision)
    ensures d.Proceed? <==> TokenOf(authorization).Some? && Verify(k, TokenOf(authorization).value, now).Some?
    ensures d.Proceed? ==> Some(d.claims) == Verify(k, TokenOf(authorization).value, now)
    ensures d.Reject? ==> d.failure.status == 401
    ensures d.Reject? ==> d.failure.message == if TokenOf(authorization).None? then NoTokenMessage else BadTokenMessage
  {
    match TokenOf(authorization)
    case None => Reject(Failure(401, NoTokenMessage))
    case Some(token) =>
      match Verify(k, token, now)
      case None => Reject(Failure(401, BadTokenMessage))
      case Some(claims) => Proceed(claims)
  }

  /**
   * No header, a header without a space, or an empty second piece (`"Bearer  x"`) is
   * answered with 401 "Access denied. No token provided.", whatever the keys and the clock.
   */
  lemma MissingTokenRejected(authorization: Option<string>, k: Keys, now: int)
    requires || authorization.None?
             || (' ' !in authorization.value)
             || (|Split(authorization.value)| >= 2 && Split(authorization.value)[1] == "")
    ensures Guard(authorization, k, now) == Reject(Failure(401, NoTokenMessage))
  {
  }

  /** The request/response pair a middleware sees, and how often it passed control on. */
  class Exchange {
    const authorization: Option<string>
    var admin: Option<Payload>
    var response: Option<Failure>
    var nextCalls: nat

    constructor (authorization: Option<string>)
      ensures this.authorization == authorization
      ensures admin == None && response == None && nextCalls == 0
    {
      this.authorization := authorization;
      admin := None;
      response := None;
      nextCalls := 0;
    }
  }

  /**
   * `authenticateAdmin(req, res, next)`: either attaches the claims to the request and calls
   * `next` once, or answers 401 and does not call `next`.
   */
  method AuthenticateAdmin(ex: Exchange, k: Keys, now: int)
    modifies ex
    ensures Guard(ex.authorization, k, now).Proceed? ==>
      ex.admin == Some(Guard(ex.authorization, k, now).claims)
      && ex.nextCalls == old(ex.nextCalls) + 1 && ex.response == old(ex.response)
    ensures Guard(ex.authorization, k, now).Reject? ==>
      ex.response == Some(Guard(ex.authorization, k, now).failure)
      && ex.nextCalls == old(ex.nextCalls) && ex.admin == old(ex.admin)
  {
    var token := TokenOf(ex.authorization);
    if token.None? {
      ex.response := Some(Failure(401, NoTokenMessage));
      return;
    }
    var decoded := Verify(k, token.value, now);
    if decoded.None? {
      ex.response := Some(Failure(401, BadTokenMessage));
      return;
    }
    ex.admin := decoded;
    ex.nextCalls := ex.nextCalls + 1;
  }

  // ---------------------------------------------------------------------------------------
  // Login

  datatype Credentials = Credentials(username: string, password: string)

  const DefaultUsername: string := "admin"
  const DefaultPassword: string := "DanferSchool@2024"

  /** The admin pair: each environment value when set and non-empty, the built-in one otherwise. */
  function ConfiguredCredentials(envUsername: Option<string>, envPassword: Option<string>): Credentials {
    Credentials(
      if Truthy(envUsername) then envUsername.value else DefaultUsername,
      if Truthy(envPassword) then envPassword.value else DefaultPassword)
  }

  /** Tokens expire 24 hours after issue. */
  const TokenLifetime: int := 24 * 60 * 60

  const InvalidCredentialsMessage: string := "Invalid credentials"

  datatype LoginResult = LoginOk(token: string) | LoginFailed(message: string)

  /** The claims of a token issued at `now` to `username`. */
  function AdminClaims(username: string, now: int): (p: Payload)
    ensures p.username == username && p.role == "admin"
    ensures p.iat == now && p.exp == Some(now + TokenLifetime)
  {
    Payload(username, "admin", now, Some(now + TokenLifetime))
  }

  /** `loginAdmin(username, password)` at time `now` (seconds). */
  function LoginAdmin(c: Credentials, k: Keys, username: string, password: string, now: int): (r: LoginResult)
    ensures r.LoginOk? <==> username == c.username && password == c.password
    ensures r.LoginOk? ==> r.token == k.sign(AdminClaims(username, now))
    ensures r.LoginFailed? ==> r.message == InvalidCredentialsMessage
  {
    if username == c.username && password == c.password then LoginOk(k.sign(AdminClaims(username, now)))
    else LoginFailed(InvalidCredentialsMessage)
  }

  /**
   * With neither environment value set (or both empty), login succeeds exactly for
   * `admin` / `DanferSchool@2024`; with both set and non-empty, exactly for that pair.
   */
  lemma ConfiguredLogin(envUsername: Option<string>, envPassword: Option<string>, k: Keys,
                        username: string, password: string, now: int)
    ensures !Truthy(envUsername) && !Truthy(envPassword) ==>
      (LoginAdmin(ConfiguredCredentials(envUsername, envPassword), k, username, password, now).LoginOk?
       <==> username == "admin" && password == "DanferSchool@2024")
    ensures Truthy(envUsername) && Truthy(envPassword) ==>
      (LoginAdmin(ConfiguredCredentials(envUsername, envPassword), k, username, password, now).LoginOk?
       <==> username == envUsername.value && password == envPassword.value)
  {
  }

  /**
   * A token from a successful login, sent as `Bearer <token>`, passes the guard with the
   * login's claims for exactly 24 hours after issue and is rejected from then on.
   */
  lemma LoginTokenLifetime(c: Credentials, k: Keys, username: string, password: string, issued: int, now: int)
    requires Sound(k)
    requires LoginAdmin(c, k, username, password, issued).LoginOk?
    ensures var d := Guard(Some("Bearer " + LoginAdmin(c, k, username, password, issued).token), k, now);
      if now < issued + TokenLifetime then d == Proceed(AdminClaims(username, issued))
      else d == Reject(Failure(401, BadTokenMessage))
  {
    var token := LoginAdmin(c, k, username, password, issued).token;
    assert k.decode(k.sign(AdminClaims(username, issued))) == Some(AdminClaims(username, issued));
    BearerToken("Bearer", token, "");
    assert "Bearer" + " " + token + "" == "Bearer " + token;
  }

  /** A failed login says the same thing whichever field was wrong. */
  lemma LoginFailureUniform(c: Credentials, k: Keys, badUser: string, badPassword: string, now: int)
    requires badUser != c.username && badPassword != c.password
    ensures LoginAdmin(c, k, badUser, c.password, now) == LoginAdmin(c, k, c.username, badPassword, now)
    ensures LoginAdmin(c, k, badUser, c.password, now) == LoginAdmin(c, k, badUser, badPassword, now)
  {
  }
}
