/**
 * The right-click plugin's configuration (stashRightClickPerformers.js): the local API key
 * and, for StashDB, ThePornDB and FansDB, the endpoint and key taken from the first
 * configured stash-box of that provider; and the performer's own StashDB and ThePornDB ids.
 */
module ProviderConfig {
  import opened Wrappers
  import opened Text
  import opened Stash

  datatype Provider = StashDB | ThePornDB | FansDB

  /**
   * How a configured box is recognised: StashDB by its exact endpoint, ThePornDB by the
   * endpoint's prefix (so `?type=Movie` variants count), FansDB by either of its domains.
   */
  predicate IsProvider(p: Provider, endpoint: string) {
    match p
    case StashDB => endpoint == StashDBEndpoint
    case ThePornDB => StartsWith(endpoint, TpdbEndpoint)
    case FansDB => endpoint == FansDBEndpoint || endpoint == OldFansDBEndpoint
  }

  /** `stashBoxes.find(...)`: the index of the first box of provider `p`, if any. */
  function FindBox(boxes: seq<StashBox>, p: Provider): (r: Option<nat>)
    ensures r.Some? ==> r.value < |boxes| && IsProvider(p, boxes[r.value].endpoint) &&
                        forall i :: 0 <= i < r.value ==> !IsProvider(p, boxes[i].endpoint)
    ensures r.None? ==> forall i :: 0 <= i < |boxes| ==> !IsProvider(p, boxes[i].endpoint)
  {
    if boxes == [] then None
    else if IsProvider(p, boxes[0].endpoint) then Some(0)
    else match FindBox(boxes[1..], p)
      case None => None
      case Some(i) => Some(i + 1)
  }

  /** What `fetchConfiguration` returns: the boxes and the local `apiKey`. */
  datatype ConfigData = ConfigData(stashBoxes: seq<StashBox>, localApiKey: Option<string>)

  /** `fetchConfiguration`: a failed query gives no boxes and an empty key. */
  function FetchConfiguration(reply: Option<ConfigData>): (r: ConfigData)
    ensures reply.None? ==> r.stashBoxes == [] && r.localApiKey == Some("")
    ensures reply.Some? ==> r == reply.value
  {
    if reply.None? then ConfigData([], Some("")) else reply.value
  }

  /** `box?.api_key ?? ''` for the first box of provider `p`. */
  function ProviderKey(boxes: seq<StashBox>, p: Provider): string {
    match FindBox(boxes, p)
    case None => ""
    case Some(i) => boxes[i].apiKey.GetOr("")
  }

  /** `box?.endpoint ?? ''` for the first box of provider `p`. */
  function ProviderEndpoint(boxes: seq<StashBox>, p: Provider): string {
    match FindBox(boxes, p)
    case None => ""
    case Some(i) => boxes[i].endpoint
  }

  class RightClickConfig {
    var localApiKey: string
    var stashDBApiKey: string
    var stashDBEndpoint: string
    var tpdbApiKey: string
    var tpdbEndpoint: string
    var fansdbApiKey: string
    var fansdbEndpoint: string

    /** The initial `config` object. */
    constructor()
      ensures localApiKey == "" && stashDBApiKey == "" && stashDBEndpoint == StashDBEndpoint
      ensures tpdbApiKey == "" && tpdbEndpoint == "" && fansdbApiKey == "" && fansdbEndpoint == FansDBEndpoint
    {
      localApiKey := "";
      stashDBApiKey := "";
      stashDBEndpoint := StashDBEndpoint;
      tpdbApiKey := "";
      tpdbEndpoint := "";
      fansdbApiKey := "";
      fansdbEndpoint := FansDBEndpoint;
    }

    /**
     * The start-up assignments after `fetchConfiguration`: each provider's key and endpoint
     * come from its first box, `''` when there is none; the StashDB endpoint keeps its default.
     */
    method ApplyConfiguration(reply: Option<ConfigData>)
      modifies this
      ensures var data := FetchConfiguration(reply);
              && localApiKey == data.localApiKey.GetOr("")
              && stashDBApiKey == ProviderKey(data.stashBoxes, StashDB)
              && stashDBEndpoint == old(stashDBEndpoint)
              && tpdbApiKey == ProviderKey(data.stashBoxes, ThePornDB)
              && tpdbEndpoint == ProviderEndpoint(data.stashBoxes, ThePornDB)
              && fansdbApiKey == ProviderKey(data.stashBoxes, FansDB)
              && fansdbEndpoint == ProviderEndpoint(data.stashBoxes, FansDB)
    {
      var data := FetchConfiguration(reply);
      var boxes := data.stashBoxes;
      var stashDBBox := FindBox(boxes, StashDB);
      var tpdbBox := FindBox(boxes, ThePornDB);
      var fansdbBox := FindBox(boxes, FansDB);
      localApiKey := data.localApiKey.GetOr("");
      stashDBApiKey := if stashDBBox.Some? then boxes[stashDBBox.value].apiKey.GetOr("") else "";
      tpdbApiKey := if tpdbBox.Some? then boxes[tpdbBox.value].apiKey.GetOr("") else "";
      tpdbEndpoint := if tpdbBox.Some? then boxes[tpdbBox.value].endpoint else "";
      fansdbEndpoint := if fansdbBox.Some? then boxes[fansdbBox.value].endpoint else "";
      fansdbApiKey := if fansdbBox.Some? then boxes[fansdbBox.value].apiKey.GetOr("") else "";
    }
  }

  /** A provider without a configured box gets `''` for both key and endpoint. */
  lemma MissingProviderIsEmpty(boxes: seq<StashBox>, p: Provider)
    requires forall i :: 0 <= i < |boxes| ==> !IsProvider(p, boxes[i].endpoint)
    ensures ProviderKey(boxes, p) == "" && ProviderEndpoint(boxes, p) == ""
  {
  }

  /** Whenever some box of the provider is configured, one no later than it is selected. */
  lemma SelectedEndpointBelongs(boxes: seq<StashBox>, p: Provider, i: nat)
    requires i < |boxes| && IsProvider(p, boxes[i].endpoint)
    ensures FindBox(boxes, p).Some? && FindBox(boxes, p).value <= i
    ensures IsProvider(p, ProviderEndpoint(boxes, p))
  {
  }

  /** No endpoint is recognised for two providers, so each box serves at most one of them. */
  lemma ProvidersDisjoint(endpoint: string, p: Provider, q: Provider)
    requires IsProvider(p, endpoint) && IsProvider(q, endpoint)
    ensures p == q
  {
  }

  /**
   * A provider's endpoint is `''` exactly when no box of it is configured; otherwise it is one
   * the provider is recognised by.
   */
  lemma ProviderEndpointShape(boxes: seq<StashBox>, p: Provider)
    ensures ProviderEndpoint(boxes, p) == "" <==> forall i :: 0 <= i < |boxes| ==> !IsProvider(p, boxes[i].endpoint)
    ensures ProviderEndpoint(boxes, p) != "" ==> IsProvider(p, ProviderEndpoint(boxes, p))
  {
  }

  /**
   * A box at the ThePornDB endpoint followed by anything (a query such as `?type=Movie`, a
   * path) is selected for ThePornDB when it comes first, whatever boxes follow it.
   */
  lemma TpdbSelectedWhateverFollows(suffix: string, key: Option<string>, name: string, rest: seq<StashBox>)
    ensures var boxes := [StashBox(TpdbEndpoint + suffix, key, name)] + rest;
            && ProviderEndpoint(boxes, ThePornDB) == TpdbEndpoint + suffix
            && ProviderKey(boxes, ThePornDB) == key.GetOr("")
  {
  }

  /**
   * The StashDB endpoint is compared exactly: a box whose endpoint extends it (a trailing
   * slash, a query) is passed over, and the key comes from the boxes after it.
   */
  lemma ExtendedStashDBIgnored(suffix: string, key: Option<string>, name: string, rest: seq<StashBox>)
    requires suffix != ""
    ensures var boxes := [StashBox(StashDBEndpoint + suffix, key, name)] + rest;
            && ProviderKey(boxes, StashDB) == ProviderKey(rest, StashDB)
            && ProviderEndpoint(boxes, StashDB) == ProviderEndpoint(rest, StashDB)
  {
  }

  /** A performer's stash ids, as `fetchPerformerIDs` returns them. */
  datatype PerformerIds = PerformerIds(stashDBID: Option<string>, tpdbID: Option<string>)

  /** `stash_ids.find(id => id.endpoint === endpoint)?.stash_id`. */
  function FirstStashId(ids: seq<StashIdEntry>, endpoint: string): (r: Option<string>)
    ensures r.Some? ==> exists i :: 0 <= i < |ids| && ids[i] == StashIdEntry(endpoint, r.value) &&
                                    forall j :: 0 <= j < i ==> ids[j].endpoint != endpoint
    ensures r.None? ==> forall i :: 0 <= i < |ids| ==> ids[i].endpoint != endpoint
  {
    if ids == [] then None
    else if ids[0].endpoint == endpoint then Some(ids[0].stashId)
    else FirstStashId(ids[1..], endpoint)
  }

  /**
   * `fetchPerformerIDs`: `None` when the performer could not be read; otherwise the first
   * stash id at exactly the StashDB and exactly the ThePornDB endpoint.
   */
  function FetchPerformerIds(reply: Option<seq<StashIdEntry>>): Option<PerformerIds> {
    match reply
    case None => None
    case Some(ids) => Some(PerformerIds(FirstStashId(ids, StashDBEndpoint), FirstStashId(ids, TpdbEndpoint)))
  }

  /**
   * Unlike the configuration, the performer's ThePornDB id is matched exactly: an id recorded
   * under the ThePornDB endpoint followed by anything is skipped, whatever else is recorded.
   */
  lemma SuffixedTpdbIdsIgnored(suffix: string, stashId: string, rest: seq<StashIdEntry>)
    requires suffix != ""
    ensures FetchPerformerIds(Some([StashIdEntry(TpdbEndpoint + suffix, stashId)] + rest)).value.tpdbID ==
            FetchPerformerIds(Some(rest)).value.tpdbID
  {
  }
}
