/**
 * The state of the new-release plugin (stashNewPerformerScenes.js): the registry of external
 * stash-boxes, the date-range preference and the set of performers already processed, and
 * the operations that change them, `processPerformerCards` among them.
 */
module ReleaseTracker {
  import opened Wrappers
  import opened Text
  import opened JsNumbers
  import opened Stash
  import opened JsObject
  import opened PerformerUrls
  import opened IdentityMap
  import opened RemoteIndex
  import opened ReleaseFilter

  const DefaultDateRange: int := 7

  /** `storedDateRange ? parseInt(storedDateRange, 10) : 7`; `None` in the result is `NaN`. */
  function InitialDateRange(stored: Option<string>): Option<int> {
    if stored.None? || stored.value == "" then Some(DefaultDateRange) else ParseInt(stored.value)
  }

  /** A date range entered in the modal is accepted when it parses to at least one day. */
  predicate ValidDateRange(input: string) {
    ParseInt(input).Some? && ParseInt(input).value >= 1
  }

  // ---------------------------------------------------------------- registry

  /** The configured boxes minus ThePornDB, compared exactly, in their original order. */
  function WithoutTpdb(boxes: seq<StashBox>): (r: seq<StashBox>)
    ensures |r| <= |boxes|
  {
    if boxes == [] then []
    else
      var last := boxes[|boxes| - 1];
      WithoutTpdb(boxes[..|boxes| - 1]) + (if last.endpoint != TpdbEndpoint then [last] else [])
  }

  /** The registry holds exactly the configured boxes whose endpoint is not ThePornDB's. */
  lemma {:induction false} WithoutTpdbMembers(boxes: seq<StashBox>)
    ensures forall b :: b in WithoutTpdb(boxes) <==> b in boxes && b.endpoint != TpdbEndpoint
  {
    if boxes != [] {
      var init := boxes[..|boxes| - 1];
      WithoutTpdbMembers(init);
      assert boxes == init + [boxes[|boxes| - 1]];
    }
  }

  /** The filter works box by box: the registry keeps the configured order. */
  lemma {:induction false} WithoutTpdbConcat(a: seq<StashBox>, b: seq<StashBox>)
    ensures WithoutTpdb(a + b) == WithoutTpdb(a) + WithoutTpdb(b)
  {
    if b == [] {
      assert a + b == a;
    } else {
      var b', last := b[..|b| - 1], b[|b| - 1];
      assert (a + b)[..|a + b| - 1] == a + b';
      assert (a + b)[|a + b| - 1] == last;
      WithoutTpdbConcat(a, b');
    }
  }

  /** Boxes of other providers are all kept. */
  lemma {:induction false} WithoutTpdbKeepsOthers(boxes: seq<StashBox>)
    requires forall i :: 0 <= i < |boxes| ==> boxes[i].endpoint != TpdbEndpoint
    ensures WithoutTpdb(boxes) == boxes
  {
    if boxes != [] {
      var init := boxes[..|boxes| - 1];
      var last := boxes[|boxes| - 1];
      WithoutTpdbKeepsOthers(init);
      assert boxes == init + [last];
    }
  }

  // ---------------------------------------------------------------- cards

  /** `card.querySelector('a')?.getAttribute('href')?.match(/\/performers\/(\d+)/)?.[1]`. */
  function CardId(href: Option<string>): Option<string> {
    match href
    case None => None
    case Some(h) => PerformerIdFromHref(h)
  }

  /** `performerIds`: the ids of the first `n` cards that are not processed yet, in card order. */
  function PendingIds(hrefs: seq<Option<string>>, processed: set<string>, n: nat): seq<string>
    requires n <= |hrefs|
  {
    if n == 0 then []
    else
      var id := CardId(hrefs[n - 1]);
      PendingIds(hrefs, processed, n - 1) + (if id.Some? && id.value !in processed then [id.value] else [])
  }

  /** A performer is pending exactly when one of the cards shows it and it is not processed. */
  lemma {:induction false} PendingIdsMembership(hrefs: seq<Option<string>>, processed: set<string>, n: nat, p: string)
    requires n <= |hrefs|
    ensures p in PendingIds(hrefs, processed, n) <==>
            p !in processed && exists c :: 0 <= c < n && CardId(hrefs[c]) == Some(p)
  {
    if n > 0 {
      PendingIdsMembership(hrefs, processed, n - 1, p);
    }
  }

  /** `Array.from(performerCards).find(...)`: the first of the first `n` cards showing performer `p`. */
  function FirstCard(hrefs: seq<Option<string>>, p: string, n: nat): (r: Option<nat>)
    requires n <= |hrefs|
    ensures r.Some? ==> r.value < n && CardId(hrefs[r.value]) == Some(p) &&
                        forall c :: 0 <= c < r.value ==> CardId(hrefs[c]) != Some(p)
    ensures r.None? ==> forall c :: 0 <= c < n ==> CardId(hrefs[c]) != Some(p)
  {
    if n == 0 then None
    else
      var found := FirstCard(hrefs, p, n - 1);
      if found.Some? then found else if CardId(hrefs[n - 1]) == Some(p) then Some(n - 1) else None
  }

  /** The keys of `m` in the order their performers were first queried. */
  function KeyOrder(pids: seq<string>, m: StashMap, n: nat): (r: seq<string>)
    requires n <= |pids|
    ensures forall p :: p in r <==> p in m && p in pids[..n]
    ensures forall i, j :: 0 <= i < j < |r| ==> r[i] != r[j]
  {
    if n == 0 then []
    else
      var prev := KeyOrder(pids, m, n - 1);
      var p := pids[n - 1];
      assert pids[..n] == pids[..n - 1] + [p];
      prev + (if p in m && p !in prev then [p] else [])
  }

  /** Every key of the identity map is enumerated exactly once. */
  lemma KeyOrderEnumerates(pids: seq<string>, reply: Response<seq<StashIdEntry>>)
    ensures IsEnumeration(KeyOrder(pids, StashMapOf(pids, reply), |pids|), StashMapOf(pids, reply))
  {
    var m := StashMapOf(pids, reply);
    assert pids[..|pids|] == pids;
    forall p | p in m
      ensures p in pids
    {
      StashMapShape(pids, reply, p);
    }
  }

  /** Some performer of the identity map has a stash id: `stashIds.length > 0`. */
  predicate AnyStashIds(m: StashMap) {
    exists p :: p in m && m[p] != map[]
  }

  /** The iteration for performer `p` gets past both `continue`s and marks `p`. */
  predicate Reaches(m: StashMap, p: string) {
    p in m && m[p] != map[]
  }

  /** The performers marked by the first `k` iterations of the card loop. */
  function Marked(pids: seq<string>, m: StashMap, k: nat): (r: set<string>)
    requires k <= |pids|
    ensures forall p :: p in r <==> p in pids[..k] && Reaches(m, p)
  {
    if k == 0 then {}
    else
      assert pids[..k] == pids[..k - 1] + [pids[k - 1]];
      Marked(pids, m, k - 1) + (if Reaches(m, pids[k - 1]) then {pids[k - 1]} else {})
  }

  /**
   * The icons added by the first `k` iterations, by card index: a performer with new
   * releases gets one on its first card, unless that card has one already.
   */
  function IconsAfter(hrefs: seq<Option<string>>, pids: seq<string>, m: StashMap, idx: Index,
                      cutoff: Option<int>, hasIcon: set<nat>, k: nat): map<nat, Groups>
    requires k <= |pids|
  {
    if k == 0 then map[]
    else IconStep(IconsAfter(hrefs, pids, m, idx, cutoff, hasIcon, k - 1), hrefs, pids[k - 1], m, idx, cutoff, hasIcon)
  }

  /** The icon the iteration for performer `p` adds, if any. */
  function IconStep(icons: map<nat, Groups>, hrefs: seq<Option<string>>, p: string, m: StashMap, idx: Index,
                    cutoff: Option<int>, hasIcon: set<nat>): map<nat, Groups>
  {
    if !Reaches(m, p) then icons
    else
      var shown := NewReleases(idx, m[p].Values, cutoff);
      var card := FirstCard(hrefs, p, |hrefs|);
      if shown != [] && card.Some? && card.value !in hasIcon && card.value !in icons
      then icons[card.value := shown] else icons
  }

  /** What one call of `processPerformerCards` does. */
  datatype Run = Run(queried: seq<string>, requests: nat, icons: map<nat, Groups>, marked: set<string>)

  /**
   * The outcome of one call, given the registry, the date range, the processed set, the
   * cards' link targets, the cards that already carry an icon, the clock and the replies.
   */
  function RunOf(boxes: seq<StashBox>, range: Option<int>, processed: set<string>,
                 hrefs: seq<Option<string>>, hasIcon: set<nat>, now: int,
                 idReply: Response<seq<StashIdEntry>>, sceneReplies: seq<Response<seq<Scene>>>): Run
  {
    var pids := PendingIds(hrefs, processed, |hrefs|);
    if pids == [] then Run(pids, 0, map[], {})
    else
      var m := StashMapOf(pids, idReply);
      if !AnyStashIds(m) then Run(pids, 1, map[], {})
      else
        var order := KeyOrder(pids, m, |pids|);
        var idx := IndexOf(boxes, m, order, sceneReplies, |boxes|);
        Run(pids, 1 + RequestsOf(boxes, m, order, |boxes|),
            IconsAfter(hrefs, pids, m, idx, Cutoff(now, range), hasIcon, |pids|),
            Marked(pids, m, |pids|))
  }

  class NewReleaseTracker {
    /** `config.stashBoxes`: the external stash-boxes, ThePornDB excluded. */
    var stashBoxes: seq<StashBox>
    /** `config.defaultDateRange`, in days; `None` is `NaN`. */
    var defaultDateRange: Option<int>
    /** The `newReleaseDateRange` entry of `localStorage`. */
    var storedDateRange: Option<string>
    /** `processedPerformers`. */
    var processed: set<string>

    constructor(stored: Option<string>)
      ensures stashBoxes == [] && processed == {}
      ensures storedDateRange == stored && defaultDateRange == InitialDateRange(stored)
    {
      stashBoxes := [];
      storedDateRange := stored;
      defaultDateRange := InitialDateRange(stored);
      processed := {};
    }

    /**
     * `getAllStashBoxes`: `reply` is `None` when the query failed or the configuration has no
     * `stashBoxes` field (missing or `null`); an empty list is truthy and is assigned.
     */
    method LoadStashBoxes(reply: Option<seq<StashBox>>)
      modifies this
      ensures stashBoxes == (if reply.None? then old(stashBoxes) else WithoutTpdb(reply.value))
      ensures defaultDateRange == old(defaultDateRange) && storedDateRange == old(storedDateRange)
      ensures processed == old(processed)
    {
      if reply.None? {
        return;
      }
      stashBoxes := WithoutTpdb(reply.value);
    }

    /**
     * The save button of the date-range modal: a value that does not parse to at least one
     * day is refused and nothing changes; otherwise it is stored, becomes the range, and the
     * processed set is cleared. Like `OnLocationChange`'s `rescan`, `accepted` means the
     * button then starts a new run at once (`ProcessPerformerCards`), in which every
     * performer on the page is pending again.
     */
    method SaveDateRange(input: string) returns (accepted: bool)
      modifies this
      ensures accepted <==> ValidDateRange(input)
      ensures accepted ==> defaultDateRange == ParseInt(input) && processed == {} &&
                           storedDateRange == Some(DecimalString(ParseInt(input).value))
      ensures !accepted ==> defaultDateRange == old(defaultDateRange) && processed == old(processed) &&
                            storedDateRange == old(storedDateRange)
      ensures stashBoxes == old(stashBoxes)
    {
      var newRange := ParseInt(input);
      if newRange.None? || newRange.value < 1 {
        return false;
      }
      storedDateRange := Some(DecimalString(newRange.value));
      defaultDateRange := newRange;
      processed := {};
      return true;
    }

    /** The `stash:location` listener: `rescan` when the new path is under `/performers`. */
    method OnLocationChange(path: string) returns (rescan: bool)
      modifies this
      ensures rescan <==> StartsWith(path, "/performers")
      ensures processed == (if rescan then {} else old(processed))
      ensures stashBoxes == old(stashBoxes) && defaultDateRange == old(defaultDateRange)
      ensures storedDateRange == old(storedDateRange)
    {
      rescan := StartsWith(path, "/performers");
      if rescan {
        processed := {};
      }
    }

    /** `performerIds`: the loop over the cards. */
    method CollectPendingIds(hrefs: seq<Option<string>>) returns (pids: seq<string>)
      ensures pids == PendingIds(hrefs, processed, |hrefs|)
    {
      pids := [];
      for c := 0 to |hrefs|
        invariant pids == PendingIds(hrefs, processed, c)
      {
        var id := CardId(hrefs[c]);
        if id.Some? && id.value !in processed {
          pids := pids + [id.value];
        }
      }
    }

    /**
     * One iteration of the loop over `performerIds`: skip a performer without stash ids,
     * otherwise aggregate, filter and, if something is left, put an icon on the performer's
     * first card unless it has one; `reached` says that the performer is to be marked.
     */
    method VisitPerformer(hrefs: seq<Option<string>>, hasIcon: set<nat>, pid: string, m: StashMap,
                          idx: Index, cutoff: Option<int>, icons: map<nat, Groups>)
      returns (icons': map<nat, Groups>, reached: bool)
      requires DistinctKeys(idx)
      ensures icons' == IconStep(icons, hrefs, pid, m, idx, cutoff, hasIcon)
      ensures reached == Reaches(m, pid)
    {
      icons' := icons;
      if pid !in m {
        return icons', false;
      }
      var stashMap := m[pid];
      if |stashMap| == 0 {
        return icons', false;
      }
      var agg := AggregateScenes(idx, stashMap.Values);
      AggregatedDistinct(idx, stashMap.Values, |idx|);
      var filtered := FilterByDate(agg, cutoff);
      if |filtered| > 0 {
        var card := FirstCard(hrefs, pid, |hrefs|);
        if card.Some? && card.value !in hasIcon && card.value !in icons' {
          icons' := icons'[card.value := filtered];
        }
      }
      return icons', true;
    }

    /** `for (const performerId of performerIds)`: icons are added and performers marked. */
    method ScanPerformers(hrefs: seq<Option<string>>, hasIcon: set<nat>, pids: seq<string>, m: StashMap,
                          idx: Index, cutoff: Option<int>)
      returns (icons: map<nat, Groups>)
      requires DistinctKeys(idx)
      modifies this
      ensures icons == IconsAfter(hrefs, pids, m, idx, cutoff, hasIcon, |pids|)
      ensures processed == old(processed) + Marked(pids, m, |pids|)
      ensures stashBoxes == old(stashBoxes) && defaultDateRange == old(defaultDateRange)
      ensures storedDateRange == old(storedDateRange)
    {
      icons := map[];
      for k := 0 to |pids|
        invariant processed == old(processed) + Marked(pids, m, k)
        invariant icons == IconsAfter(hrefs, pids, m, idx, cutoff, hasIcon, k)
        invariant stashBoxes == old(stashBoxes) && defaultDateRange == old(defaultDateRange)
        invariant storedDateRange == old(storedDateRange)
      {
        var reached;
        icons, reached := VisitPerformer(hrefs, hasIcon, pids[k], m, idx, cutoff, icons);
        if reached {
          processed := processed + {pids[k]};
        }
      }
    }

    /**
     * `processPerformerCards`: `hrefs[c]` is the link target of card `c`, `hasIcon` the cards
     * that already carry an icon, `now` the clock, `idReply` the answer to the identity
     * query and `sceneReplies[k]` the answer of box `k`.
     */
    method ProcessPerformerCards(hrefs: seq<Option<string>>, hasIcon: set<nat>, now: int,
                                 idReply: Response<seq<StashIdEntry>>,
                                 sceneReplies: seq<Response<seq<Scene>>>)
      returns (run: Run)
      modifies this
      ensures run == RunOf(stashBoxes, defaultDateRange, old(processed), hrefs, hasIcon, now, idReply, sceneReplies)
      ensures processed == old(processed) + run.marked
      ensures stashBoxes == old(stashBoxes) && defaultDateRange == old(defaultDateRange)
      ensures storedDateRange == old(storedDateRange)
    {
      if |hrefs| == 0 {
        return Run([], 0, map[], {});
      }
      var pids := CollectPendingIds(hrefs);
      if |pids| == 0 {
        return Run(pids, 0, map[], {});
      }
      var m, idRequests := GetPerformerStashIds(pids, idReply);
      if !(exists p | p in m :: m[p] != map[]) {
        return Run(pids, idRequests, map[], {});
      }
      var order := KeyOrder(pids, m, |pids|);
      var idx, requests := GetNewReleasesForStashIds(stashBoxes, m, order, sceneReplies);
      IndexWellFormed(stashBoxes, m, order, sceneReplies, |stashBoxes|);
      var icons := ScanPerformers(hrefs, hasIcon, pids, m, idx, Cutoff(now, defaultDateRange));
      run := Run(pids, idRequests + requests, icons, Marked(pids, m, |pids|));
    }
  }

  // ---------------------------------------------------------------- properties of a run

  /** A saved range is what the next start-up reads back. */
  lemma SavedRangeReloads(input: string)
    requires ValidDateRange(input)
    ensures InitialDateRange(Some(DecimalString(ParseInt(input).value))) == ParseInt(input)
  {
    ParseDecimalString(ParseInt(input).value, []);
    assert DecimalString(ParseInt(input).value) + [] == DecimalString(ParseInt(input).value);
  }

  /** Nothing stored, or an empty entry, gives the default of seven days. */
  lemma DefaultRange()
    ensures InitialDateRange(None) == Some(7) && InitialDateRange(Some("")) == Some(7)
  {
  }

  /**
   * A run queries exactly the performers shown on a card that are not processed yet: an
   * already processed performer is never queried again.
   */
  lemma RunQueries(boxes: seq<StashBox>, range: Option<int>, processed: set<string>,
                   hrefs: seq<Option<string>>, hasIcon: set<nat>, now: int,
                   idReply: Response<seq<StashIdEntry>>, sceneReplies: seq<Response<seq<Scene>>>, p: string)
    ensures var run := RunOf(boxes, range, processed, hrefs, hasIcon, now, idReply, sceneReplies);
            p in run.queried <==> p !in processed && exists c :: 0 <= c < |hrefs| && CardId(hrefs[c]) == Some(p)
  {
    PendingIdsMembership(hrefs, processed, |hrefs|, p);
  }

  /**
   * A run marks exactly the queried performers that have a stash id at another provider than
   * ThePornDB; the others stay unmarked and are queried again by the next run.
   */
  lemma RunMarks(boxes: seq<StashBox>, range: Option<int>, processed: set<string>,
                 hrefs: seq<Option<string>>, hasIcon: set<nat>, now: int,
                 idReply: Response<seq<StashIdEntry>>, sceneReplies: seq<Response<seq<Scene>>>, p: string)
    ensures var run := RunOf(boxes, range, processed, hrefs, hasIcon, now, idReply, sceneReplies);
            p in run.marked <==> p in run.queried && p in StashMapOf(run.queried, idReply)
  {
    var pids := PendingIds(hrefs, processed, |hrefs|);
    if pids != [] {
      var m := StashMapOf(pids, idReply);
      StashMapShape(pids, idReply, p);
      assert pids[..|pids|] == pids;
    }
  }

  /** A second run over the same cards queries only what the first one left unmarked. */
  lemma SecondRun(boxes: seq<StashBox>, range: Option<int>, processed: set<string>,
                  hrefs: seq<Option<string>>, hasIcon: set<nat>, now: int,
                  idReply: Response<seq<StashIdEntry>>, sceneReplies: seq<Response<seq<Scene>>>,
                  hasIcon2: set<nat>, now2: int,
                  idReply2: Response<seq<StashIdEntry>>, sceneReplies2: seq<Response<seq<Scene>>>, p: string)
    ensures var run := RunOf(boxes, range, processed, hrefs, hasIcon, now, idReply, sceneReplies);
            var run2 := RunOf(boxes, range, processed + run.marked, hrefs, hasIcon2, now2, idReply2, sceneReplies2);
            p in run2.queried <==> p in run.queried && p !in run.marked
  {
    var run := RunOf(boxes, range, processed, hrefs, hasIcon, now, idReply, sceneReplies);
    var run2 := RunOf(boxes, range, processed + run.marked, hrefs, hasIcon2, now2, idReply2, sceneReplies2);
    RunQueried(boxes, range, processed, hrefs, hasIcon, now, idReply, sceneReplies);
    RunQueried(boxes, range, processed + run.marked, hrefs, hasIcon2, now2, idReply2, sceneReplies2);
    PendingAfterMarking(hrefs, processed, run.marked, p);
  }

  /** Every run queries the pending performers, whatever the replies. */
  lemma RunQueried(boxes: seq<StashBox>, range: Option<int>, processed: set<string>,
                   hrefs: seq<Option<string>>, hasIcon: set<nat>, now: int,
                   idReply: Response<seq<StashIdEntry>>, sceneReplies: seq<Response<seq<Scene>>>)
    ensures RunOf(boxes, range, processed, hrefs, hasIcon, now, idReply, sceneReplies).queried ==
            PendingIds(hrefs, processed, |hrefs|)
  {
  }

  /** Marking more performers removes exactly those from the pending list. */
  lemma PendingAfterMarking(hrefs: seq<Option<string>>, processed: set<string>, marked: set<string>, p: string)
    ensures p in PendingIds(hrefs, processed + marked, |hrefs|) <==>
            p in PendingIds(hrefs, processed, |hrefs|) && p !in marked
  {
    PendingIdsMembership(hrefs, processed, |hrefs|, p);
    PendingIdsMembership(hrefs, processed + marked, |hrefs|, p);
  }

  /** A card gets an icon only if it had none, and it is the first card of a performer with new releases. */
  lemma {:induction false} IconsSound(hrefs: seq<Option<string>>, pids: seq<string>, m: StashMap, idx: Index,
                                      cutoff: Option<int>, hasIcon: set<nat>, k: nat, c: nat)
    requires k <= |pids|
    requires c in IconsAfter(hrefs, pids, m, idx, cutoff, hasIcon, k)
    ensures c !in hasIcon
    ensures exists i :: 0 <= i < k && Reaches(m, pids[i]) && FirstCard(hrefs, pids[i], |hrefs|) == Some(c) &&
                        IconsAfter(hrefs, pids, m, idx, cutoff, hasIcon, k)[c] == NewReleases(idx, m[pids[i]].Values, cutoff) &&
                        NewReleases(idx, m[pids[i]].Values, cutoff) != []
  {
    var icons := IconsAfter(hrefs, pids, m, idx, cutoff, hasIcon, k - 1);
    var p := pids[k - 1];
    if c in icons {
      IconsSound(hrefs, pids, m, idx, cutoff, hasIcon, k - 1, c);
      assert IconsAfter(hrefs, pids, m, idx, cutoff, hasIcon, k)[c] == icons[c];
    } else {
      assert Reaches(m, p) && FirstCard(hrefs, p, |hrefs|) == Some(c);
    }
  }

  /** One iteration only adds icons, and adds the one of a performer with new releases. */
  lemma IconsStep(hrefs: seq<Option<string>>, pids: seq<string>, m: StashMap, idx: Index,
                  cutoff: Option<int>, hasIcon: set<nat>, k: nat)
    requires 0 < k <= |pids|
    ensures IconsAfter(hrefs, pids, m, idx, cutoff, hasIcon, k - 1).Keys <=
            IconsAfter(hrefs, pids, m, idx, cutoff, hasIcon, k).Keys
    ensures var p := pids[k - 1];
            var card := FirstCard(hrefs, p, |hrefs|);
            Reaches(m, p) && NewReleases(idx, m[p].Values, cutoff) != [] && card.Some? && card.value !in hasIcon ==>
              card.value in IconsAfter(hrefs, pids, m, idx, cutoff, hasIcon, k)
  {
  }

  /** The first card of every processed performer with new releases carries an icon, unless it had one. */
  lemma {:induction false} IconsComplete(hrefs: seq<Option<string>>, pids: seq<string>, m: StashMap, idx: Index,
                                         cutoff: Option<int>, hasIcon: set<nat>, k: nat, i: nat)
    requires i < k <= |pids|
    requires Reaches(m, pids[i]) && NewReleases(idx, m[pids[i]].Values, cutoff) != []
    requires FirstCard(hrefs, pids[i], |hrefs|).Some? && FirstCard(hrefs, pids[i], |hrefs|).value !in hasIcon
    ensures FirstCard(hrefs, pids[i], |hrefs|).value in IconsAfter(hrefs, pids, m, idx, cutoff, hasIcon, k)
  {
    IconsStep(hrefs, pids, m, idx, cutoff, hasIcon, k);
    if i < k - 1 {
      IconsComplete(hrefs, pids, m, idx, cutoff, hasIcon, k - 1, i);
    }
  }
}
