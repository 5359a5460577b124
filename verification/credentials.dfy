/**
 * The credential state kept in the application's settings dictionary
 * (`App.Current.Properties`) under three keys, and the transitions
 * `GetAccessToken`, `RefreshAuth`, `LogIn` and `Logout` make on it.
 * Instants are whole seconds.
 */
module Credentials {
  import opened Wrappers
  import opened Strings

  /** A settings value: the client stores strings and instants. */
  datatype Value = Str(text: string) | Date(seconds: int)

  type Settings = map<string, Value>

  const BearerKey: string := "client_bearer"
  const ExpirationKey: string := "client_expiration"
  const RefreshKey: string := "client_refresh_token"
  const CredentialKeys: set<string> := {BearerKey, ExpirationKey, RefreshKey}

  /** Seconds taken off `expires_in` to allow for lag between client and server. */
  const ExpiryMargin: int := 60

  /** A C# `int`. */
  type Int32 = x: int | Int32Min <= x <= Int32Max

  /** C# `int` arithmetic is unchecked: a result is taken modulo 2^32 into the `int` range. */
  function Wrap32(x: int): (r: Int32)
    ensures (r - x) % 0x1_0000_0000 == 0
  {
    (x - Int32Min) % 0x1_0000_0000 + Int32Min
  }

  /**
   * The seconds added to now for the new expiry: `expires_in - 60` in C# `int`
   * arithmetic. It is the exact difference unless `expires_in` lies within 60 of
   * the `int` minimum, where it wraps to nearly 2^31 seconds ahead.
   */
  function Lifetime(expiresIn: Int32): (s: Int32)
    ensures expiresIn >= Int32Min + ExpiryMargin ==> s == expiresIn - ExpiryMargin
    ensures expiresIn < Int32Min + ExpiryMargin ==> s == expiresIn - ExpiryMargin + 0x1_0000_0000
  {
    Wrap32(expiresIn - ExpiryMargin)
  }

  /**
   * The casts `(string)` and `(DateTime)` the client applies to the three keys
   * succeed: the keys hold values of the types the client writes into them.
   */
  ghost predicate WellTyped(p: Settings) {
    && (BearerKey in p ==> p[BearerKey].Str?)
    && (ExpirationKey in p ==> p[ExpirationKey].Date?)
    && (RefreshKey in p ==> p[RefreshKey].Str?)
  }

  /** What the token endpoint answers to one POST. */
  datatype TokenReply =
    | Granted(accessToken: string, expiresIn: Int32, refreshToken: string)  // success status, TokenResponse parsed
    | Denied                                                               // non-success status
    | Unavailable                                                          // an exception (transport or parsing)

  /** The outcome of `LogIn`. */
  datatype LoginResponse = Error | Success | Failure

  /** A token handed to the caller and the settings after handing it out. */
  datatype AuthStep = AuthStep(token: string, settings: Settings)

  /** The bearer token may be used as it is (the test guarding `GetAccessToken`). */
  function TokenUsable(p: Settings, now: int): (usable: bool)
    requires WellTyped(p)
    ensures usable <==> BearerKey in p && ExpirationKey in p && now < p[ExpirationKey].seconds
  {
    ExpirationKey in p && p[ExpirationKey].seconds > now && BearerKey in p
  }

  /** The three writes made after a successful token exchange. */
  function StoreGrant(p: Settings, now: int, g: TokenReply): (q: Settings)
    requires g.Granted?
    ensures WellTyped(p) ==> WellTyped(q)
    ensures q.Keys == p.Keys + CredentialKeys
    ensures q[BearerKey] == Str(g.accessToken) && q[RefreshKey] == Str(g.refreshToken)
    ensures q[ExpirationKey] == Date(now + Lifetime(g.expiresIn))
    ensures forall k :: k in p && k !in CredentialKeys ==> q[k] == p[k]
  {
    p[BearerKey := Str(g.accessToken)][ExpirationKey := Date(now + Lifetime(g.expiresIn))][RefreshKey := Str(g.refreshToken)]
  }

  /**
   * `RefreshAuth`: None when the exchange throws (the exception reaches the caller
   * and nothing has been written).
   */
  function Refresh(p: Settings, now: int, reply: TokenReply): (r: Option<AuthStep>)
    requires WellTyped(p)
    ensures r.Some? ==> WellTyped(r.value.settings)
    ensures r.None? <==> RefreshKey in p && reply.Unavailable?
    ensures RefreshKey !in p ==> r == Some(AuthStep("", p))
    ensures r.Some? && r.value.token != "" ==> reply.Granted? && r.value.token == reply.accessToken
    ensures forall k :: k !in CredentialKeys ==>
      r.Some? ==> (k in r.value.settings <==> k in p) && (k in p ==> r.value.settings[k] == p[k])
  {
    if RefreshKey !in p then Some(AuthStep("", p))
    else match reply
      case Granted(access, _, _) => Some(AuthStep(access, StoreGrant(p, now, reply)))
      case Denied => Some(AuthStep("", p - {RefreshKey, BearerKey}))
      case Unavailable => None
  }

  /**
   * With a refresh token stored, a granted exchange writes all three keys with the
   * 60-second margin and returns the new bearer; a refused one removes the refresh
   * and bearer tokens, keeps the expiry and returns "".
   */
  lemma RefreshOutcomes(p: Settings, now: int, reply: TokenReply)
    requires WellTyped(p) && RefreshKey in p
    ensures reply.Granted? ==>
      var q := StoreGrant(p, now, reply);
      && Refresh(p, now, reply) == Some(AuthStep(reply.accessToken, q))
      && q[BearerKey] == Str(reply.accessToken)
      && q[ExpirationKey] == Date(now + Lifetime(reply.expiresIn))
      && q[RefreshKey] == Str(reply.refreshToken)
    ensures reply.Denied? ==>
      && Refresh(p, now, reply).Some?
      && var step := Refresh(p, now, reply).value;
      && step.token == ""
      && BearerKey !in step.settings && RefreshKey !in step.settings
      && (ExpirationKey in step.settings <==> ExpirationKey in p)
      && (ExpirationKey in p ==> step.settings[ExpirationKey] == p[ExpirationKey])
  {
  }

  /** `GetAccessToken`: the stored bearer while it is unexpired, else a refresh, else "". */
  function AccessToken(p: Settings, now: int, reply: TokenReply): (r: AuthStep)
    requires WellTyped(p)
    ensures WellTyped(r.settings)
    ensures TokenUsable(p, now) ==> r == AuthStep(p[BearerKey].text, p)
    ensures !TokenUsable(p, now) ==>
      r == if Refresh(p, now, reply).Some? then Refresh(p, now, reply).value else AuthStep("", p)
    ensures forall k :: k !in CredentialKeys ==>
      (k in r.settings <==> k in p) && (k in p ==> r.settings[k] == p[k])
  {
    if TokenUsable(p, now) then AuthStep(p[BearerKey].text, p)
    else match Refresh(p, now, reply)
      case Some(step) => step
      case None => AuthStep("", p)
  }

  /** The outcome of `LogIn` on the settings; the cache is cleared only on Success. */
  datatype LoggedIn = LoggedIn(response: LoginResponse, settings: Settings)

  function LogIn(p: Settings, now: int, reply: TokenReply): (r: LoggedIn)
    ensures WellTyped(p) ==> WellTyped(r.settings)
    ensures r.response == Success <==> reply.Granted?
    ensures r.response == Error <==> reply.Unavailable?
    ensures r.response != Success ==> r.settings == p
    ensures r.response == Success ==> r.settings == StoreGrant(p, now, reply)
  {
    match reply
    case Granted(_, _, _) => LoggedIn(Success, StoreGrant(p, now, reply))
    case Denied => LoggedIn(Failure, p)
    case Unavailable => LoggedIn(Error, p)
  }

  /** `Logout` on the settings: exactly the three credential keys go. */
  function WithoutCredentials(p: Settings): (q: Settings)
    ensures WellTyped(p) ==> WellTyped(q)
    ensures forall k :: k in q <==> k in p && k !in CredentialKeys
    ensures forall k :: k in q ==> q[k] == p[k]
  {
    p - CredentialKeys
  }

  // ---------------------------------------------------------------------------
  // Properties relating several calls

  /**
   * Right after a successful login at `t0`, the token is served without a refresh
   * strictly before `t0 + expires_in - 60`; from then on a refresh is attempted
   * with the refresh token that the login stored.
   */
  lemma LogInThenAccessToken(p: Settings, t0: int, g: TokenReply, t1: int, reply: TokenReply)
    requires WellTyped(p) && g.Granted?
    ensures var q := LogIn(p, t0, g).settings;
      && (t1 < t0 + Lifetime(g.expiresIn) ==> AccessToken(q, t1, reply) == AuthStep(g.accessToken, q))
      && (t1 >= t0 + Lifetime(g.expiresIn) ==>
            AccessToken(q, t1, reply) ==
              match reply
              case Granted(access, _, _) => AuthStep(access, StoreGrant(q, t1, reply))
              case Denied => AuthStep("", q - {RefreshKey, BearerKey})
              case Unavailable => AuthStep("", q))
  {
  }

  /**
   * A refused refresh drops the refresh token and the bearer token, keeps the
   * expiry, and every later `GetAccessToken` fails closed: "" without change,
   * whatever the token endpoint would answer.
   */
  lemma DeniedRefreshFailsClosed(p: Settings, now: int, later: int, reply: TokenReply)
    requires WellTyped(p) && RefreshKey in p && !TokenUsable(p, now)
    ensures var a := AccessToken(p, now, Denied);
      && a.token == ""
      && BearerKey !in a.settings && RefreshKey !in a.settings
      && (ExpirationKey in a.settings <==> ExpirationKey in p)
      && (ExpirationKey in p ==> a.settings[ExpirationKey] == p[ExpirationKey])
      && AccessToken(a.settings, later, reply) == AuthStep("", a.settings)
  {
  }

  /** After `Logout`, `GetAccessToken` fails closed until the next login. */
  lemma LoggedOutFailsClosed(p: Settings, now: int, reply: TokenReply)
    requires WellTyped(p)
    ensures AccessToken(WithoutCredentials(p), now, reply) == AuthStep("", WithoutCredentials(p))
  {
  }

  /** A transport failure during a refresh changes nothing and yields "". */
  lemma UnavailableRefreshKeepsState(p: Settings, now: int)
    requires WellTyped(p) && !TokenUsable(p, now)
    ensures AccessToken(p, now, Unavailable) == AuthStep("", p)
  {
  }
}
