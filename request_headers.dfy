/**
 * The HTTP headers of a GraphQL request, as both plugins build them (`gqlHeaders` in
 * stashNewPerformerScenes.js, `graphqlRequest` in stashRightClickPerformers.js): JSON content
 * always, and an `Apikey` header only when the key is truthy.
 */
module RequestHeaders {
  import opened Wrappers
  import opened JsObject

  const ContentType: string := "Content-Type"
  const Json: string := "application/json"
  const ApikeyHeader: string := "Apikey"

  /** A key is sent when it is present and not the empty string. */
  predicate Truthy(key: Option<string>) {
    key.Some? && key.value != ""
  }

  /** The header object for a request made with `key`. */
  function Headers(key: Option<string>): (h: Obj<string>)
    ensures Get(h, ContentType) == Some(Json)
    ensures Get(h, ApikeyHeader) == (if Truthy(key) then key else None)
    ensures forall k :: k in Keys(h) ==> k == ContentType || k == ApikeyHeader
  {
    var h := [Entry(ContentType, Json)];
    if Truthy(key) then
      PutOther(h, ApikeyHeader, key.value, ContentType);
      PutKeys(h, ApikeyHeader, key.value);
      Put(h, ApikeyHeader, key.value)
    else h
  }

  /**
   * `graphqlRequest`'s key: the argument if it is a non-empty string, else the local key
   * read from the configuration (`None` stands for a missing or non-string argument).
   */
  function EffectiveApiKey(apiKey: Option<string>, localApiKey: string): (k: string)
    ensures Truthy(apiKey) ==> k == apiKey.value
    ensures !Truthy(apiKey) ==> k == localApiKey
  {
    if Truthy(apiKey) then apiKey.value else localApiKey
  }

  /** The right-click plugin sends an `Apikey` header exactly when one of the two keys is non-empty. */
  lemma ApikeySentIff(apiKey: Option<string>, localApiKey: string)
    ensures Get(Headers(Some(EffectiveApiKey(apiKey, localApiKey))), ApikeyHeader).Some? <==>
            Truthy(apiKey) || localApiKey != ""
    ensures Truthy(apiKey) ==> Get(Headers(Some(EffectiveApiKey(apiKey, localApiKey))), ApikeyHeader) == apiKey
  {
  }

  /** A request given no key of its own falls back to the local key. */
  lemma LocalKeyFallback(localApiKey: string)
    ensures EffectiveApiKey(None, localApiKey) == localApiKey
    ensures EffectiveApiKey(Some(""), localApiKey) == localApiKey
  {
  }
}
