/** The records both plugins read from the GraphQL servers, and the endpoints they know. */
module Stash {
  import opened Wrappers

  const StashDBEndpoint: string := "https://stashdb.org/graphql"
  const TpdbEndpoint: string := "https://theporndb.net/graphql"
  const FansDBEndpoint: string := "https://fansdb.cc/graphql"
  const OldFansDBEndpoint: string := "https://fansdb.xyz/graphql"

  /** A configured stash-box: `{ endpoint, api_key, name }`; `api_key` may be null. */
  datatype StashBox = StashBox(endpoint: string, apiKey: Option<string>, name: string)

  /** `!api_key` is false: the key is present and not the empty string. */
  predicate HasApiKey(box: StashBox) {
    box.apiKey.Some? && box.apiKey.value != ""
  }

  /** One of a local performer's `stash_ids`: `{ endpoint, stash_id }`. */
  datatype StashIdEntry = StashIdEntry(endpoint: string, stashId: string)

  /**
   * A scene as the stash-boxes return it. `releaseDate` is the timestamp (milliseconds) of
   * `new Date(release_date)`, `None` when that is an Invalid Date: see `ReleaseDate`.
   */
  datatype Scene = Scene(id: string, title: string, releaseDate: Option<int>)

  /** The `release_date` field as it arrives: `null`, absent, or a string. */
  datatype RawDate = NullDate | NoDate | DateText(text: string)

  /**
   * `new Date(release_date)` as a timestamp: `null` converts to 0, the epoch, which is a valid
   * date; an absent field (`undefined`) gives an Invalid Date; a string gives whatever the
   * engine's date parser `parse` makes of it.
   */
  function ReleaseDate(raw: RawDate, parse: string -> Option<int>): (d: Option<int>)
    ensures raw.NullDate? ==> d == Some(0)
    ensures raw.NoDate? ==> d.None?
  {
    match raw
    case NullDate => Some(0)
    case NoDate => None
    case DateText(text) => parse(text)
  }

  /**
   * The answer to one batched query with one alias per requested id: `Failed` when
   * the request returned `null` (transport error, GraphQL errors, no data), otherwise one row
   * per alias, a row being `None` when the alias or its field is missing.
   */
  datatype Response<T> = Failed | Answered(rows: seq<Option<T>>)

  /** `result?.[alias_j]?.field || []`. */
  function RowOr<T>(rows: seq<Option<seq<T>>>, j: nat): seq<T> {
    if j < |rows| && rows[j].Some? then rows[j].value else []
  }
}
