/**
 * The resource fetcher (`DownloadResource`), the stale-while-revalidate policy
 * (`GetResource`) and the holder-update rule of `PostResource`, as functions of
 * the table, the settings and what the outside world answers during one call.
 */
module Resources {
  import opened Wrappers
  import opened Strings
  import opened Store
  import opened Credentials

  /** What the resource endpoint answers to one request. */
  datatype HttpReply =
    | Answered(success: bool, body: string, ttlValues: seq<string>)  // status, body, values of the `TTL` header
    | Unreachable                                                    // an exception on the way

  /**
   * Everything outside the client during one call: the clock, the token
   * endpoint's answer (used only if a refresh is attempted), the resource
   * endpoint's answer, and whether the table could be read and written.
   */
  datatype World = World(now: int, auth: TokenReply, reply: HttpReply, readOk: bool, writeOk: bool)

  /**
   * The time to live read from the `TTL` header: its first value parsed as a
   * 32-bit integer; 0 when the header is missing, its value blank, or unparseable.
   */
  function Ttl(values: seq<string>): (ttl: int)
    ensures Int32Min <= ttl <= Int32Max
    ensures values == [] ==> ttl == 0
  {
    if values == [] || IsBlank(values[0]) then 0
    else match ParseInt32(values[0])
      case Some(n) => n
      case None => 0
  }

  /** A server that writes a number into the header gets that number back. */
  lemma TtlOfHeader(n: int, rest: seq<string>)
    requires Int32Min <= n <= Int32Max
    ensures Ttl([FormatInt(n)] + rest) == n
  {
    ParseFormat(n);
    var s := FormatInt(n);
    FormatNatDigits(if n < 0 then -n else n);
    assert !IsWhiteSpace(s[|s| - 1]);
    assert !IsBlank(s);
  }

  /** A header the parser refuses gives a time to live of 0. */
  lemma TtlDefaultsToZero(values: seq<string>)
    requires values == [] || IsBlank(values[0]) || ParseInt32(values[0]).None?
    ensures Ttl(values) == 0
  {
  }

  /** The result of `DownloadResource`: the row it returns and the state after it. */
  datatype Downloaded = Downloaded(row: Option<WebResource>, table: Table, settings: Settings)

  /**
   * `DownloadResource(url)`: ask for an access token, GET the resource, and on a
   * success status with a non-blank body upsert the row `(url, body, now + TTL)`.
   */
  function Download(t: Table, p: Settings, url: string, w: World): (d: Downloaded)
    requires WellTyped(p)
    ensures d.settings == AccessToken(p, w.now, w.auth).settings
    ensures d.row.Some? ==> d.row.value.url == url && d.table == Upsert(t, d.row.value)
    ensures d.row.None? ==> d.table == t
    ensures WellKeyed(t) ==> WellKeyed(d.table)
  {
    var auth := AccessToken(p, w.now, w.auth);
    match w.reply
    case Unreachable => Downloaded(None, t, auth.settings)
    case Answered(success, body, ttlValues) =>
      if !success || IsBlank(body) then Downloaded(None, t, auth.settings)
      else
        var row := WebResource(url, body, w.now + Ttl(ttlValues));
        if w.writeOk then Downloaded(Some(row), Upsert(t, row), auth.settings)
        else Downloaded(None, t, auth.settings)
  }

  /** The download that succeeds is exactly the one with a success status, a non-blank body and a working store. */
  predicate Delivers(w: World) {
    w.reply.Answered? && w.reply.success && !IsBlank(w.reply.body) && w.writeOk
  }

  /**
   * A download yields a row iff the reply delivers; the row holds the body and
   * expires `TTL` seconds from now; on every other path the table is untouched.
   */
  lemma DownloadOutcome(t: Table, p: Settings, url: string, w: World)
    requires WellTyped(p)
    ensures var d := Download(t, p, url, w);
      && (d.row.Some? <==> Delivers(w))
      && (d.row.Some? ==> d.row.value == WebResource(url, w.reply.body, w.now + Ttl(w.reply.ttlValues)))
      && (!Delivers(w) ==> d.table == t)
  {
  }

  /**
   * Downloading twice with an unchanged answer, at any two instants, leaves one
   * row for the url: the later download's, as if the first had not happened.
   */
  lemma DownloadIdempotent(t: Table, p: Settings, q: Settings, url: string, w1: World, w2: World)
    requires WellTyped(p) && WellTyped(q)
    requires w2.reply == w1.reply && Delivers(w2)
    ensures var t2 := Download(Download(t, p, url, w1).table, q, url, w2).table;
      && t2 == Download(t, q, url, w2).table
      && t2.Keys == t.Keys + {url}
      && t2[url] == WebResource(url, w2.reply.body, w2.now + Ttl(w2.reply.ttlValues))
  {
  }

  // ---------------------------------------------------------------------------
  // GetResource: stale-while-revalidate

  /** The payloads published to the holder, in order, and the state afterwards. */
  datatype Fetched = Fetched(published: seq<string>, table: Table, settings: Settings)

  /** The cache key: the url without its trailing slashes. */
  function CacheKey(url: string): (key: string)
    ensures key <= url && (key == [] || key[|key| - 1] != '/')
    ensures forall i :: |key| <= i < |url| ==> url[i] == '/'
  {
    TrimEnd(url, '/')
  }

  function Fetch(t: Table, p: Settings, url: string, refresh: bool, w: World): (f: Fetched)
    requires WellTyped(p)
    ensures |f.published| <= 2
    ensures f.table == t || f.table == Download(t, p, CacheKey(url), w).table
    ensures WellKeyed(t) ==> WellKeyed(f.table)
  {
    var key := CacheKey(url);
    var cached := Lookup(t, key, w.readOk);
    if cached.Some? && !refresh then
      if cached.value.eol < w.now then
        var d := Download(t, p, key, w);
        var correction := if d.row.Some? && cached.value.response != d.row.value.response
                          then [d.row.value.response] else [];
        Fetched([cached.value.response] + correction, d.table, d.settings)
      else Fetched([cached.value.response], t, p)
    else
      var d := Download(t, p, key, w);
      Fetched(if d.row.Some? then [d.row.value.response] else [], d.table, d.settings)
  }

  /**
   * A hit that has not expired (`EOL >= now`), without a forced refresh: exactly
   * one emission, the cached response, and no download (table and settings,
   * credentials included, unchanged).
   */
  lemma FetchFreshHit(t: Table, p: Settings, url: string, w: World)
    requires WellTyped(p)
    requires w.readOk && CacheKey(url) in t && t[CacheKey(url)].eol >= w.now
    ensures Fetch(t, p, url, false, w) == Fetched([t[CacheKey(url)].response], t, p)
  {
  }

  /**
   * A hit that has expired (`EOL < now`), without a forced refresh: the stale
   * response comes first; a second emission happens iff the download delivers a
   * response that differs from the cached one, and it is that fresh response.
   */
  lemma FetchStaleHit(t: Table, p: Settings, url: string, w: World)
    requires WellTyped(p)
    requires w.readOk && CacheKey(url) in t && t[CacheKey(url)].eol < w.now
    ensures var f := Fetch(t, p, url, false, w);
      && 1 <= |f.published| <= 2
      && f.published[0] == t[CacheKey(url)].response
      && (|f.published| == 2 <==> Delivers(w) && w.reply.body != t[CacheKey(url)].response)
      && (|f.published| == 2 ==> f.published[1] == w.reply.body)
      && f.table == Download(t, p, CacheKey(url), w).table
      && f.settings == Download(t, p, CacheKey(url), w).settings
  {
  }

  /**
   * A miss (or an unreadable table) or a forced refresh: nothing stale is
   * published; one emission, the downloaded body, iff the download delivers.
   */
  lemma FetchMissOrForced(t: Table, p: Settings, url: string, refresh: bool, w: World)
    requires WellTyped(p)
    requires refresh || !w.readOk || CacheKey(url) !in t
    ensures var f := Fetch(t, p, url, refresh, w);
      && f.published == (if Delivers(w) then [w.reply.body] else [])
      && f.table == Download(t, p, CacheKey(url), w).table
      && f.settings == Download(t, p, CacheKey(url), w).settings
  {
  }

  /**
   * The table only ever changes at the trimmed key, and the row there is keyed
   * by it: lookup and store use the same key.
   */
  lemma FetchStoresUnderKey(t: Table, p: Settings, url: string, refresh: bool, w: World)
    requires WellTyped(p)
    ensures var f := Fetch(t, p, url, refresh, w);
      && (forall k :: k != CacheKey(url) ==> (k in f.table <==> k in t) && (k in t ==> f.table[k] == t[k]))
      && (CacheKey(url) in f.table && f.table != t ==> f.table[CacheKey(url)].url == CacheKey(url))
  {
  }

  /**
   * An empty cache, `GetResource(holder, "/campuses/")` and a server answering a
   * body with `TTL: 300`: the holder gets the body once and the table holds the
   * row under "/campuses", expiring 300 seconds from now.
   */
  lemma FetchCampusesExample(p: Settings, body: string, w: World)
    requires WellTyped(p) && !IsBlank(body)
    requires w.reply == Answered(true, body, ["300"]) && w.writeOk
    ensures var f := Fetch(map[], p, "/campuses/", false, w);
      && f.published == [body]
      && Lookup(f.table, "/campuses", true) == Some(WebResource("/campuses", body, w.now + 300))
  {
    var key := "/campuses";
    TrimEndAbsorbs(key, '/');
    assert CacheKey("/campuses/") == key;
    assert DigitChar(0) == '0' && DigitChar(3) == '3';
    assert FormatNat(3) == "3";
    assert FormatNat(30) == "3" + "0" == "30";
    assert FormatNat(300) == "30" + "0" == "300";
    assert FormatInt(300) == "300";
    TtlOfHeader(300, []);
    assert [FormatInt(300)] + [] == ["300"];
    assert Ttl(["300"]) == 300;
    assert Delivers(w);
    FetchMissOrForced(map[], p, "/campuses/", false, w);
    DownloadOutcome(map[], p, key, w);
    var d := Download(map[], p, key, w);
    assert d.row == Some(WebResource(key, body, w.now + 300));
    assert d.table[key] == WebResource(key, body, w.now + 300);
  }

  // ---------------------------------------------------------------------------
  // PostResource

  /** The payloads `PostResource` publishes and the settings after it. */
  datatype Posted = Posted(published: seq<string>, settings: Settings)

  /**
   * `PostResource`: whatever the status, a non-blank body is published; a blank
   * body or an exception leaves the holder alone. Nothing is cached.
   */
  function Post(p: Settings, w: World): (r: Posted)
    requires WellTyped(p)
    ensures r.settings == AccessToken(p, w.now, w.auth).settings
    ensures WellTyped(r.settings)
    ensures |r.published| <= 1
    ensures r.published != [] ==> w.reply.Answered? && r.published == [w.reply.body] && !IsBlank(w.reply.body)
  {
    var auth := AccessToken(p, w.now, w.auth);
    match w.reply
    case Unreachable => Posted([], auth.settings)
    case Answered(_, body, _) => Posted(if IsBlank(body) then [] else [body], auth.settings)
  }

  /** A non-success status with a non-blank body still reaches the holder. */
  lemma PostIgnoresStatus(p: Settings, w: World)
    requires WellTyped(p)
    requires w.reply.Answered? && !IsBlank(w.reply.body)
    ensures Post(p, w).published == [w.reply.body]
  {
  }

  // ---------------------------------------------------------------------------
  // Logout and the cache

  /**
   * After `Logout` (with a working store) nothing is cached, so a later
   * `GetResource` publishes nothing stale: at most the freshly downloaded body,
   * fetched without a bearer token.
   */
  lemma FetchAfterLogout(t: Table, p: Settings, url: string, refresh: bool, w: World)
    requires WellTyped(p)
    ensures var f := Fetch(Clear(t, true), WithoutCredentials(p), url, refresh, w);
      && f.published == (if Delivers(w) then [w.reply.body] else [])
      && AccessToken(WithoutCredentials(p), w.now, w.auth).token == ""
  {
  }
}
