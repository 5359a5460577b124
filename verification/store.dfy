/**
 * The local SQLite table `WebResource(Url PRIMARY KEY, Response, EOL)`, as a map
 * from the primary key to the row. Times are whole seconds.
 */
module Store {
  import opened Wrappers

  datatype WebResource = WebResource(url: string, response: string, eol: int)

  type Table = map<string, WebResource>

  /** Every row sits under its own Url: the primary key is the row's Url column. */
  ghost predicate WellKeyed(t: Table) {
    forall k :: k in t ==> t[k].url == k
  }

  /**
   * `GetDBResource`: `SELECT * FROM WebResource WHERE Url = ?`, first row or null;
   * a storage error (`readOk` false) is caught and also reads as null.
   */
  function Lookup(t: Table, url: string, readOk: bool): (r: Option<WebResource>)
    ensures r.Some? <==> readOk && url in t
    ensures r.Some? ==> r.value == t[url]
    ensures WellKeyed(t) && r.Some? ==> r.value.url == url
  {
    if readOk && url in t then Some(t[url]) else None
  }

  /**
   * `UpdateAsync` then, if no row was updated, `InsertAsync`: the table ends up
   * with exactly the new row under its Url and every other row as it was.
   */
  function Upsert(t: Table, row: WebResource): (r: Table)
    ensures WellKeyed(t) ==> WellKeyed(r)
    ensures r.Keys == t.Keys + {row.url}
    ensures r[row.url] == row
    ensures forall k :: k in t && k != row.url ==> r[k] == t[k]
  {
    t[row.url := row]
  }

  /** Upserting the same row twice leaves one row, as after the first upsert. */
  lemma UpsertIdempotent(t: Table, row: WebResource)
    ensures Upsert(Upsert(t, row), row) == Upsert(t, row)
  {
  }

  /** `ClearDatabase`: `DELETE FROM WebResource`; on a storage error nothing is deleted. */
  function Clear(t: Table, writeOk: bool): (r: Table)
    ensures writeOk ==> forall url :: Lookup(r, url, true).None?
    ensures !writeOk ==> r == t
  {
    if writeOk then map[] else t
  }
}
