/**
 * The static `RockClient` as an object: the cache table and the settings
 * dictionary are its fields, and each public operation is a method that updates
 * them in place, proved to agree with the specification functions of
 * `Credentials` and `Resources`. `ObservableResource` is the caller's holder;
 * its history records every value assigned to its `Resource` property.
 */
module Client {
  import opened Wrappers
  import opened Strings
  import opened Store
  import opened Credentials
  import opened Resources

  class ObservableResource<T> {
    /** Every value assigned to `Resource`, oldest first; subscribers are notified of each. */
    var history: seq<T>

    constructor ()
      ensures history == []
    {
      history := [];
    }

    /** Assigning `Resource`. */
    method Publish(v: T)
      modifies this
      ensures history == old(history) + [v]
    {
      history := history + [v];
    }
  }

  /** The values the holder receives for a sequence of payloads (`Deserialize<T>` on each). */
  function Deserialized<T>(deserialize: string -> T, payloads: seq<string>): (r: seq<T>)
    ensures |r| == |payloads|
    ensures forall i :: 0 <= i < |r| ==> r[i] == deserialize(payloads[i])
  {
    seq(|payloads|, i requires 0 <= i < |payloads| => deserialize(payloads[i]))
  }

  class RockClient {
    /** The `WebResource` table, by primary key. */
    var table: Table
    /** `App.Current.Properties`. */
    var properties: Settings

    ghost predicate Valid()
      reads this
    {
      WellKeyed(table) && WellTyped(properties)
    }

    /** The client over what was persisted by earlier runs. */
    constructor (persistedTable: Table, persistedProperties: Settings)
      requires WellKeyed(persistedTable) && WellTyped(persistedProperties)
      ensures Valid() && table == persistedTable && properties == persistedProperties
    {
      table := persistedTable;
      properties := persistedProperties;
    }

    // -------------------------------------------------------------------------
    // Persistent resource store

    method GetDBResource(url: string, readOk: bool) returns (r: Option<WebResource>)
      requires Valid()
      ensures r.Some? <==> readOk && url in table
      ensures r.Some? ==> r.value.url == url && r.value == table[url]
    {
      if readOk && url in table {
        r := Some(table[url]);
      } else {
        r := None;
      }
    }

    /** `UpdateAsync`: rewrites the row with the same primary key, if any; returns the rows affected. */
    method UpdateRow(row: WebResource) returns (updated: nat)
      modifies this
      ensures updated == if row.url in old(table) then 1 else 0
      ensures table == if updated == 1 then old(table)[row.url := row] else old(table)
      ensures properties == old(properties)
    {
      if row.url in table {
        table := table[row.url := row];
        updated := 1;
      } else {
        updated := 0;
      }
    }

    /** `InsertAsync` of a row whose primary key is not yet present. */
    method InsertRow(row: WebResource)
      requires row.url !in table
      modifies this
      ensures table == old(table)[row.url := row]
      ensures properties == old(properties)
    {
      table := table[row.url := row];
    }

    method ClearDatabase(writeOk: bool) returns (cleared: bool)
      requires Valid()
      modifies this
      ensures Valid()
      ensures cleared == writeOk
      ensures table == Clear(old(table), writeOk)
      ensures properties == old(properties)
    {
      if writeOk {
        table := map[];
      }
      cleared := writeOk;
    }

    // -------------------------------------------------------------------------
    // Credential manager

    /** None: the exchange threw and the exception reaches the caller. */
    method RefreshAuth(now: int, reply: TokenReply) returns (token: Option<string>)
      requires Valid()
      modifies this
      ensures Valid() && table == old(table)
      ensures token.None? ==> Refresh(old(properties), now, reply).None? && properties == old(properties)
      ensures token.Some? ==> Refresh(old(properties), now, reply) == Some(AuthStep(token.value, properties))
    {
      if RefreshKey in properties {
        match reply
        case Granted(access, expiresIn, refresh) =>
          properties := properties[BearerKey := Str(access)];
          properties := properties[ExpirationKey := Date(now + Lifetime(expiresIn))];
          properties := properties[RefreshKey := Str(refresh)];
          return Some(access);
        case Denied =>
          ghost var before := properties;
          properties := properties - {RefreshKey};
          if BearerKey in properties {
            properties := properties - {BearerKey};
          }
          assert properties == before - {RefreshKey, BearerKey};
        case Unavailable =>
          return None;
      }
      return Some("");
    }

    method GetAccessToken(now: int, reply: TokenReply) returns (token: string)
      requires Valid()
      modifies this
      ensures Valid() && table == old(table)
      ensures AuthStep(token, properties) == AccessToken(old(properties), now, reply)
    {
      if TokenUsable(properties, now) {
        return properties[BearerKey].text;
      }
      var refreshed := RefreshAuth(now, reply);
      match refreshed
      case Some(t) => token := t;
      case None => token := "";
    }

    method LogIn(username: string, password: string, now: int, reply: TokenReply, clearOk: bool)
      returns (response: LoginResponse)
      requires Valid()
      modifies this
      ensures Valid()
      ensures Credentials.LogIn(old(properties), now, reply) == LoggedIn(response, properties)
      ensures table == if response == Success then Clear(old(table), clearOk) else old(table)
    {
      match reply
      case Granted(access, expiresIn, refresh) =>
        properties := properties[BearerKey := Str(access)];
        properties := properties[ExpirationKey := Date(now + Lifetime(expiresIn))];
        properties := properties[RefreshKey := Str(refresh)];
        var cleared := ClearDatabase(clearOk);
        return Success;
      case Denied =>
        return Failure;
      case Unavailable =>
        return Error;
    }

    method Logout(clearOk: bool)
      requires Valid()
      modifies this
      ensures Valid()
      ensures properties == WithoutCredentials(old(properties))
      ensures table == Clear(old(table), clearOk)
    {
      var keys := [BearerKey, ExpirationKey, RefreshKey];
      for i := 0 to |keys|
        invariant Valid() && table == old(table)
        invariant properties == old(properties) - (set j | 0 <= j < i :: keys[j])
      {
        if keys[i] in properties {
          properties := properties - {keys[i]};
        }
      }
      ghost var removed := set j | 0 <= j < |keys| :: keys[j];
      assert keys[0] in removed && keys[1] in removed && keys[2] in removed;
      assert removed == CredentialKeys;
      var cleared := ClearDatabase(clearOk);
    }

    // -------------------------------------------------------------------------
    // Resource fetcher and orchestrator

    method DownloadResource(url: string, w: World) returns (r: Option<WebResource>)
      requires Valid()
      modifies this
      ensures Valid()
      ensures Downloaded(r, table, properties) == Download(old(table), old(properties), url, w)
    {
      var token := GetAccessToken(w.now, w.auth);
      // A non-blank token attaches the client id and bearer headers; the request is the world's to answer.
      match w.reply
      case Unreachable =>
        return None;
      case Answered(success, body, ttlValues) =>
        if !success || IsBlank(body) {
          return None;
        }
        var ttl := 0;
        if ttlValues != [] && !IsBlank(ttlValues[0]) {
          match ParseInt32(ttlValues[0])
          case Some(n) => ttl := n;
          case None => ttl := 0;
        }
        var row := WebResource(url, body, w.now + ttl);
        if !w.writeOk {
          return None;
        }
        var updated := UpdateRow(row);
        if updated == 0 {
          InsertRow(row);
        }
        return Some(row);
    }

    method GetResource<T>(holder: ObservableResource<T>, url: string, refresh: bool,
                          deserialize: string -> T, w: World)
      requires Valid()
      modifies this, holder
      ensures Valid()
      ensures var f := Fetch(old(table), old(properties), url, refresh, w);
        && table == f.table && properties == f.settings
        && holder.history == old(holder.history) + Deserialized(deserialize, f.published)
    {
      var key := TrimEnd(url, '/');
      var cached := GetDBResource(key, w.readOk);
      if cached.Some? && !refresh {
        holder.Publish(deserialize(cached.value.response));
        if cached.value.eol < w.now {
          var renewed := DownloadResource(key, w);
          if renewed.Some? && cached.value.response != renewed.value.response {
            holder.Publish(deserialize(renewed.value.response));
          }
        }
      } else {
        cached := DownloadResource(key, w);
        if cached.Some? {
          holder.Publish(deserialize(cached.value.response));
        }
      }
    }

    method PostResource<T>(holder: ObservableResource<T>, url: string, body: map<string, string>,
                           deserialize: string -> T, w: World)
      requires Valid()
      modifies this, holder
      ensures Valid() && table == old(table)
      ensures var r := Post(old(properties), w);
        && properties == r.settings
        && holder.history == old(holder.history) + Deserialized(deserialize, r.published)
    {
      var token := GetAccessToken(w.now, w.auth);
      match w.reply
      case Unreachable =>
        return;
      case Answered(_, result, _) =>
        if IsBlank(result) {
          return;
        }
        holder.Publish(deserialize(result));
    }
  }
}
