# Avalanche `RockClient`: cache policy and credential state, modelled in Dafny

The Avalanche mobile app reaches its content API through one static class, `RockClient`.
It keeps a local SQLite table `WebResource(Url, Response, EOL)` of downloaded payloads. It serves
them with a stale-while-revalidate policy (`GetResource`). It downloads and upserts rows
(`DownloadResource`). It also keeps an OAuth2 bearer token, its expiry and a refresh token in the
application's settings dictionary (`GetAccessToken`, `RefreshAuth`, `LogIn`, `Logout`).

The model has six modules, one per component:

- `Wrappers`: `Option`, which stands for a C# reference that may be null.
- `Strings`: the .NET primitives the client relies on, defined from scratch:
  - `string.IsNullOrWhiteSpace`, using the Unicode White_Space set;
  - `string.TrimEnd(char)`;
  - `int.TryParse` with the default number style (surrounding ASCII white space, an optional sign,
    ASCII digits, a 32-bit range);
  - a decimal renderer, which is the partner of the parser.
- `Store`: the table as `map<string, WebResource>` keyed by `Url`, with lookup, upsert and clear.
- `Credentials`: the settings as `map<string, Value>`, plus the token state machine as functions
  from the old settings to the token and the new settings.
- `Resources`: `DownloadResource`, `GetResource` and `PostResource` as functions of the table, the
  settings and a `World`. A `World` is what the outside answers during one call:
  - the clock, in integer seconds;
  - the token endpoint's answer (`Granted`, `Denied` or `Unavailable`);
  - the resource endpoint's answer (`Answered(success, body, ttlValues)` or `Unreachable`);
  - whether the table could be read and written.
- `Client`: the imperative side.
  - `RockClient` is a class whose fields `table` and `properties` are updated in place by methods
    named after the source's. Each method's `ensures` ties the new state, and what it returns,
    to the specification functions above.
  - `ObservableResource<T>` is the caller's holder. Its `history` records every value assigned to
    `Resource`, in order.

Deserialization (`Deserialize<T>`) is a parameter `deserialize: string -> T`. The holder receives
`deserialize(payload)` for every published payload. For `T = string` the caller passes the identity.

Two behaviours of the code are worth knowing, and the model keeps both:

- A refused refresh removes `client_refresh_token` and `client_bearer` and keeps
  `client_expiration` (RockClient.cs:231-239).
- `PostResource` never checks `IsSuccessStatusCode`, so it publishes any non-blank body whatever
  the HTTP status (RockClient.cs:82-89).

## Model

| member | source | states |
|---|---|---|
| `Strings.TrimEnd` | App/Avalanche/Avalanche/Utilities/RockClient.cs:39 | the result is a prefix of the url, does not end in '/', and only '/' characters were removed |
| `Strings.TrimEndIdempotent` | App/Avalanche/Avalanche/Utilities/RockClient.cs:39 | trimming a trimmed url changes nothing |
| `Strings.TrimEndAbsorbs` | App/Avalanche/Avalanche/Utilities/RockClient.cs:39 | a url with one more trailing '/' has the same cache key |
| `Strings.IsBlank` | App/Avalanche/Avalanche/Utilities/RockClient.cs:144 | `string.IsNullOrWhiteSpace`: the empty string is blank, and a string is non-blank iff it has a character that is not Unicode white space (also used at lines 85 and 152) |
| `Strings.ParseInt32` | App/Avalanche/Avalanche/Utilities/RockClient.cs:154 | `int.TryParse` succeeds only with a value in the 32-bit range |
| `Strings.ParseFormat` | App/Avalanche/Avalanche/Utilities/RockClient.cs:154 | parsing the decimal rendering of any integer gives that integer back when it fits 32 bits, and is refused otherwise |
| `Strings.ParseRefusesNonDigit` | App/Avalanche/Avalanche/Utilities/RockClient.cs:154 | once surrounding white space is stripped, a character that is neither a digit nor a leading sign makes `int.TryParse` fail |
| `Strings.ParseRefusesEmpty` | App/Avalanche/Avalanche/Utilities/RockClient.cs:154 | white space alone, or a lone sign, makes `int.TryParse` fail |
| `Store.Lookup` | App/Avalanche/Avalanche/Utilities/RockClient.cs:244-261 | a row is found iff the table is readable and holds the exact url; it is the row stored under that url; a storage error reads as absent |
| `Store.Upsert` | App/Avalanche/Avalanche/Utilities/RockClient.cs:164-168 | afterwards the url has exactly the new row, every other row is unchanged, and no key is added besides the url |
| `Store.UpsertIdempotent` | App/Avalanche/Avalanche/Utilities/RockClient.cs:164-168 | upserting the same row twice equals upserting it once (no duplicate rows) |
| `Store.Clear` | App/Avalanche/Avalanche/Utilities/RockClient.cs:281-292 | after a successful clear every lookup is absent; on a storage error the table is unchanged |
| `Credentials.TokenUsable` | App/Avalanche/Avalanche/Utilities/RockClient.cs:189-191 | the bearer may be used iff a bearer is stored, an expiration is stored, and now is strictly before that expiration |
| `Credentials.Wrap32` | App/Avalanche/Avalanche/Utilities/RockClient.cs:226 | C# unchecked `int` arithmetic: the result is an `int` congruent to the exact value modulo 2^32 |
| `Credentials.Lifetime` | App/Avalanche/Avalanche/Utilities/RockClient.cs:226 | `expires_in - 60` as C# computes it: the exact difference, except within 60 of the `int` minimum, where it wraps 2^32 upwards (an expiry about 68 years ahead) |
| `Credentials.StoreGrant` | App/Avalanche/Avalanche/Utilities/RockClient.cs:225-227 | bearer := access_token, expiration := now + `Lifetime(expires_in)`, refresh := refresh_token; all other keys unchanged |
| `Credentials.Refresh` | App/Avalanche/Avalanche/Utilities/RockClient.cs:205-242 | with no refresh token, returns "" and changes nothing; it throws iff a refresh token exists and the exchange fails in transit; a non-empty token is the granted access_token; non-credential keys never change |
| `Credentials.RefreshOutcomes` | App/Avalanche/Avalanche/Utilities/RockClient.cs:209-241 | a grant writes the three keys with the 60-second margin and returns access_token; a refusal removes the refresh and bearer tokens, keeps the expiration and returns "" |
| `Credentials.AccessToken` | App/Avalanche/Avalanche/Utilities/RockClient.cs:185-203 | while the expiration is present and later than now and a bearer is present, returns the bearer and changes nothing; otherwise it returns the refresh's token and settings, or "" with nothing changed when the refresh throws; non-credential keys never change |
| `Credentials.UnavailableRefreshKeepsState` | App/Avalanche/Avalanche/Utilities/RockClient.cs:195-202 | if the refresh throws, `GetAccessToken` returns "" and the settings are untouched |
| `Credentials.LogInThenAccessToken` | App/Avalanche/Avalanche/Utilities/RockClient.cs:189-197 | after a login at t0, the token is served without a refresh strictly before t0 + `Lifetime(expires_in)`; from then on the stored refresh token is exchanged, with each of the three outcomes spelled out |
| `Credentials.DeniedRefreshFailsClosed` | App/Avalanche/Avalanche/Utilities/RockClient.cs:231-239 | a refused refresh returns "", leaves neither a bearer nor a refresh token, keeps the expiration, and every later `GetAccessToken` returns "" without change |
| `Credentials.LogIn` | App/Avalanche/Avalanche/Utilities/RockClient.cs:294-332 | Success iff the endpoint grants; Error iff the exchange throws; otherwise Failure; the settings change only on Success, and then to the three granted keys |
| `Credentials.WithoutCredentials` | App/Avalanche/Avalanche/Utilities/RockClient.cs:336-344 | a key survives iff it is not one of the three credential keys, and surviving keys keep their values |
| `Credentials.LoggedOutFailsClosed` | App/Avalanche/Avalanche/Utilities/RockClient.cs:336-344 | after logout `GetAccessToken` returns "" and changes nothing |
| `Resources.Ttl` | App/Avalanche/Avalanche/Utilities/RockClient.cs:148-156 | the time to live is a 32-bit value, and 0 when the header is absent |
| `Resources.TtlOfHeader` | App/Avalanche/Avalanche/Utilities/RockClient.cs:148-156 | a `TTL` header whose first value renders n gives a time to live of n |
| `Resources.TtlDefaultsToZero` | App/Avalanche/Avalanche/Utilities/RockClient.cs:148-156 | a missing, blank or unparseable header gives 0 |
| `Resources.Download` | App/Avalanche/Avalanche/Utilities/RockClient.cs:121-182 | the settings are those `GetAccessToken` leaves; a returned row is keyed by the url and the table is that row upserted; with no row the table is unchanged; rows stay keyed by their Url |
| `Resources.DownloadOutcome` | App/Avalanche/Avalanche/Utilities/RockClient.cs:141-181 | a row comes back iff the status is a success, the body is non-blank and the store accepts the write; the row is (url, body, now + TTL); on every failure path the table is unchanged |
| `Resources.DownloadIdempotent` | App/Avalanche/Avalanche/Utilities/RockClient.cs:164-168 | two delivering downloads with an unchanged answer, at any two instants, leave one row for the url: the later one's, with the table as if only the later download had run |
| `Resources.CacheKey` | App/Avalanche/Avalanche/Utilities/RockClient.cs:39 | the key is the url with all its trailing '/' characters removed, and only those |
| `Resources.Fetch` | App/Avalanche/Avalanche/Utilities/RockClient.cs:37-63 | at most two emissions; the table is either untouched or exactly what a download of the trimmed key leaves |
| `Resources.FetchFreshHit` | App/Avalanche/Avalanche/Utilities/RockClient.cs:41-45 | an unexpired hit without refresh publishes exactly the cached response and downloads nothing (table and settings unchanged) |
| `Resources.FetchStaleHit` | App/Avalanche/Avalanche/Utilities/RockClient.cs:45-51 | an expired hit publishes the cached response first; a second emission happens iff the download delivers a different body, and it is that body; table and settings are those the download leaves |
| `Resources.FetchMissOrForced` | App/Avalanche/Avalanche/Utilities/RockClient.cs:54-60 | a miss or a forced refresh publishes nothing stale: exactly the downloaded body if the download delivers, else nothing |
| `Resources.FetchStoresUnderKey` | App/Avalanche/Avalanche/Utilities/RockClient.cs:39-59 | only the row under the trimmed key can change, and a changed row carries that key as its Url |
| `Resources.FetchCampusesExample` | App/Avalanche/Avalanche/Utilities/RockClient.cs:37-61 | on an empty cache "/campuses/" with `TTL: 300` publishes the body once and stores it under "/campuses" expiring at now + 300 |
| `Resources.Post` | App/Avalanche/Avalanche/Utilities/RockClient.cs:65-97 | at most one emission, and only of a non-blank body the endpoint answered |
| `Resources.PostIgnoresStatus` | App/Avalanche/Avalanche/Utilities/RockClient.cs:82-89 | a non-blank body is published even with a non-success status |
| `Resources.FetchAfterLogout` | App/Avalanche/Avalanche/Utilities/RockClient.cs:334-347 | after logout nothing stale is published, at most the downloaded body, and the download runs without a bearer token |
| `Client.ObservableResource.Publish` | App/Avalanche/Avalanche/Utilities/RockClient.cs:44 | assigning `Resource` appends the value to what subscribers have seen |
| `Client.RockClient.GetDBResource` | App/Avalanche/Avalanche/Utilities/RockClient.cs:244-261 | returns the row stored under the url iff the table is readable and holds it |
| `Client.RockClient.UpdateRow` | App/Avalanche/Avalanche/Utilities/RockClient.cs:165 | rewrites the row with the same key and reports 1, or reports 0 and changes nothing |
| `Client.RockClient.InsertRow` | App/Avalanche/Avalanche/Utilities/RockClient.cs:167 | adds the row under its key |
| `Client.RockClient.ClearDatabase` | App/Avalanche/Avalanche/Utilities/RockClient.cs:281-292 | returns whether the delete ran; the table is `Store.Clear` of the old table |
| `Client.RockClient.RefreshAuth` | App/Avalanche/Avalanche/Utilities/RockClient.cs:205-242 | token and new settings are those of `Credentials.Refresh`; on a throw nothing changes; the table is untouched |
| `Client.RockClient.GetAccessToken` | App/Avalanche/Avalanche/Utilities/RockClient.cs:185-203 | token and new settings are those of `Credentials.AccessToken`; the table is untouched |
| `Client.RockClient.LogIn` | App/Avalanche/Avalanche/Utilities/RockClient.cs:294-332 | response and settings are those of `Credentials.LogIn`; the cache is cleared only on Success |
| `Client.RockClient.Logout` | App/Avalanche/Avalanche/Utilities/RockClient.cs:334-347 | removes the three credential keys one by one, leaving the other settings unchanged, and clears the table |
| `Client.RockClient.DownloadResource` | App/Avalanche/Avalanche/Utilities/RockClient.cs:121-182 | returned row, table and settings are those of `Resources.Download` |
| `Client.RockClient.GetResource` | App/Avalanche/Avalanche/Utilities/RockClient.cs:37-63 | table and settings are those of `Resources.Fetch`; the holder receives exactly its published payloads, deserialized, in order |
| `Client.RockClient.PostResource` | App/Avalanche/Avalanche/Utilities/RockClient.cs:65-97 | settings are those of `Resources.Post`; the table is untouched; the holder receives exactly its published payload, deserialized |

## Left out

- HTTP itself is left out: `HttpClient`, `GetAuthClient`, URIs and request bodies. The endpoint's
  answer is a parameter. The access token is still fetched before every request, but the headers
  it decides are not modelled. These are the two `client_id` headers, the second of which carries
  the client secret (RockClient.cs:77-78, 134-135), and `Authorization: Bearer`.
- `GetUserAgent` is left out: it only formats device information.
- JSON parsing of the token response is left out. `Granted` carries the parsed fields. A parse
  failure counts as `Unavailable`, because it throws before any setting is written.
- `Deserialize<T>` is a caller-supplied total function. A payload that fails to deserialize is not
  modelled.
- `CreateDatabase` and SQLite specifics are left out: a map needs no schema. A storage error is a
  `readOk`/`writeOk` flag of the `World`.
- `async`/`await`, fire-and-forget scheduling and concurrent callers are left out. Each call runs to
  completion before the next, so only the per-call emission order is modelled.
- Time is integer seconds, and each call reads the clock once. `DateTime` range errors from
  `AddSeconds` are left out.
- `SavePropertiesAsync` is left out. The settings map is taken to be the persisted state, and a
  failure to save is not modelled.
- Settings of the wrong type under the three credential keys are left out. Such a value would make
  the C# casts throw. The class invariant `Valid` requires these keys to hold a string, an instant
  and a string, which is what the client writes.
- Null strings are not modelled, since strings are `seq<char>`.
- `Strings.ParseInt32`: it does not model culture-specific signs or the trailing NUL characters
  that .NET also accepts.
- The `Debug.WriteLine` of a failed login's body is left out.
