/**
 * The right-click plugin's "Missing Scenes" action (stashRightClickPerformers.js): fetch every
 * StashDB scene of the performer page by page, then keep the ones whose title is not among the
 * titles of the performer's local scenes.
 */
module MissingScenes {
  import opened Wrappers
  import opened Stash
  import opened ProviderConfig

  /** `per_page: 25` in the StashDB scene query. */
  const PerPage: nat := 25

  /** `new Set(localScenes.map(scene => scene.title))`. */
  function Titles(scenes: seq<Scene>): set<string> {
    set s <- scenes :: s.title
  }

  /** `compareScenes`: the remote scenes whose title equals no local title, in remote order. */
  function CompareScenes(local: seq<Scene>, remote: seq<Scene>): (r: seq<Scene>)
    ensures |r| <= |remote|
  {
    if remote == [] then []
    else
      var last := remote[|remote| - 1];
      CompareScenes(local, remote[..|remote| - 1]) + (if last.title in Titles(local) then [] else [last])
  }

  /** Exactly the remote scenes whose title no local scene has are reported missing. */
  lemma {:induction false} CompareScenesMembers(local: seq<Scene>, remote: seq<Scene>, s: Scene)
    ensures s in CompareScenes(local, remote) <==> s in remote && s.title !in Titles(local)
  {
    if remote != [] {
      var init := remote[..|remote| - 1];
      CompareScenesMembers(local, init, s);
      assert remote == init + [remote[|remote| - 1]];
    }
  }

  /** The comparison is a filter: it distributes over concatenation of the remote list. */
  lemma {:induction false} CompareScenesConcat(local: seq<Scene>, a: seq<Scene>, b: seq<Scene>)
    ensures CompareScenes(local, a + b) == CompareScenes(local, a) + CompareScenes(local, b)
    decreases |b|
  {
    if b == [] {
      assert a + b == a;
    } else {
      var b' := b[..|b| - 1];
      assert (a + b)[..|a + b| - 1] == a + b';
      assert (a + b)[|a + b| - 1] == b[|b| - 1];
      CompareScenesConcat(local, a, b');
    }
  }

  lemma LastSplit<T>(xs: seq<T>)
    requires xs != []
    ensures xs == xs[..|xs| - 1] + [xs[|xs| - 1]]
  {
  }

  /** A kept scene is kept as often as it occurs remotely: duplicates are preserved. */
  lemma {:induction false} CompareScenesKeepsDuplicates(local: seq<Scene>, remote: seq<Scene>, s: Scene)
    ensures multiset(CompareScenes(local, remote))[s] ==
            (if s.title in Titles(local) then 0 else multiset(remote)[s])
  {
    if remote != [] {
      var init := remote[..|remote| - 1];
      var last := remote[|remote| - 1];
      var kept := if last.title in Titles(local) then [] else [last];
      CompareScenesKeepsDuplicates(local, init, s);
      LastSplit(remote);
      assert multiset(remote) == multiset(init) + multiset{last};
      assert multiset(CompareScenes(local, remote)) == multiset(CompareScenes(local, init)) + multiset(kept);
    }
  }

  /** With no title in common, every remote scene is missing locally. */
  lemma {:induction false} CompareScenesDisjoint(local: seq<Scene>, remote: seq<Scene>)
    requires forall s :: s in remote ==> s.title !in Titles(local)
    ensures CompareScenes(local, remote) == remote
  {
    if remote != [] {
      var init := remote[..|remote| - 1];
      var last := remote[|remote| - 1];
      forall s | s in init ensures s.title !in Titles(local) {
        assert s in remote;
      }
      CompareScenesDisjoint(local, init);
      assert last in remote;
      assert CompareScenes(local, remote) == init + [last];
      assert remote == init + [last];
    }
  }

  /** One page of `queryScenes`: the scenes of that page and the total `count`. */
  datatype ScenePage = ScenePage(scenes: seq<Scene>, count: int)

  /**
   * What `fetchStashDBScenes` returns for page `p` (1-based): `replies[p - 1]`, where `None`
   * is the `null` it returns on a failed request; pages past the end of `replies` fail too.
   */
  function PageAt(replies: seq<Option<ScenePage>>, p: nat): (r: Option<ScenePage>)
    ensures r.Some? ==> 1 <= p <= |replies|
  {
    if 1 <= p <= |replies| then replies[p - 1] else None
  }

  /** The loop's exit test after a page was appended. */
  predicate Stops(collected: seq<Scene>, page: ScenePage) {
    |collected| >= page.count || |page.scenes| < PerPage
  }

  /** The outcome of the paging loop: all scenes collected after `pages` pages, or a `TypeError`. */
  datatype Paging = Collected(scenes: seq<Scene>, pages: nat) | Crashed(page: nat)

  /** The paging loop from page `page` on, with `acc` already collected. */
  function PagingFrom(replies: seq<Option<ScenePage>>, page: nat, acc: seq<Scene>): Paging
    requires page >= 1
    decreases |replies| + 1 - page
  {
    match PageAt(replies, page)
    case None => Crashed(page)
    case Some(result) =>
      var acc' := acc + result.scenes;
      if Stops(acc', result) then Collected(acc', page) else PagingFrom(replies, page + 1, acc')
  }

  /**
   * The `while (true)` loop as written: it reads `result.scenes` without checking `result`, so
   * a failed page stops it with a `TypeError`.
   */
  method FetchAllScenes(replies: seq<Option<ScenePage>>) returns (outcome: Paging)
    ensures outcome == PagingFrom(replies, 1, [])
  {
    var stashDBScenes: seq<Scene> := [];
    var page: nat := 1;
    while true
      invariant page >= 1
      invariant PagingFrom(replies, page, stashDBScenes) == PagingFrom(replies, 1, [])
      decreases |replies| + 1 - page
    {
      var result := PageAt(replies, page);
      if result.None? {
        return Crashed(page);
      }
      stashDBScenes := stashDBScenes + result.value.scenes;
      if |stashDBScenes| >= result.value.count || |result.value.scenes| < PerPage {
        return Collected(stashDBScenes, page);
      }
      page := page + 1;
    }
  }

  /** Pages `1..k` were all answered. */
  ghost predicate Answered(replies: seq<Option<ScenePage>>, k: nat) {
    forall p :: 1 <= p <= k ==> PageAt(replies, p).Some?
  }

  /** The scenes of pages `1..k`, in page order. */
  ghost function Concat(replies: seq<Option<ScenePage>>, k: nat): seq<Scene>
    requires Answered(replies, k)
  {
    if k == 0 then [] else Concat(replies, k - 1) + PageAt(replies, k).value.scenes
  }

  /** Pages `1..k` were answered and none of them ended the loop. */
  ghost predicate ContinuedThrough(replies: seq<Option<ScenePage>>, k: nat) {
    Answered(replies, k) &&
    forall j :: 1 <= j <= k ==> !Stops(Concat(replies, j), PageAt(replies, j).value)
  }

  lemma {:induction false} PagingFromOutcome(replies: seq<Option<ScenePage>>, page: nat)
    requires page >= 1 && ContinuedThrough(replies, page - 1)
    ensures var r := PagingFrom(replies, page, Concat(replies, page - 1));
            && (r.Collected? ==>
                  r.pages >= page && ContinuedThrough(replies, r.pages - 1) && Answered(replies, r.pages) &&
                  r.scenes == Concat(replies, r.pages) && Stops(r.scenes, PageAt(replies, r.pages).value))
            && (r.Crashed? ==>
                  r.page >= page && ContinuedThrough(replies, r.page - 1) && PageAt(replies, r.page).None?)
    decreases |replies| + 1 - page
  {
    if PageAt(replies, page).Some? {
      assert Answered(replies, page);
      var acc' := Concat(replies, page - 1) + PageAt(replies, page).value.scenes;
      assert acc' == Concat(replies, page);
      if !Stops(acc', PageAt(replies, page).value) {
        assert ContinuedThrough(replies, page);
        PagingFromOutcome(replies, page + 1);
      }
    }
  }

  /**
   * The paging loop's outcome: when it finishes after page `k`, pages `1..k` all answered, the
   * collected list is their scenes in page order, page `k` met the exit test and no earlier page
   * did; when it fails at page `k`, pages before `k` answered without meeting the exit test and
   * page `k` failed.
   */
  lemma PagingOutcome(replies: seq<Option<ScenePage>>)
    ensures var r := PagingFrom(replies, 1, []);
            && (r.Collected? ==>
                  r.pages >= 1 && ContinuedThrough(replies, r.pages - 1) && Answered(replies, r.pages) &&
                  r.scenes == Concat(replies, r.pages) && Stops(r.scenes, PageAt(replies, r.pages).value))
            && (r.Crashed? ==>
                  r.page >= 1 && ContinuedThrough(replies, r.page - 1) && PageAt(replies, r.page).None?)
  {
    assert ContinuedThrough(replies, 0);
    PagingFromOutcome(replies, 1);
  }

  /** Pages `1..k` all answered with full pages and the same total `count`. */
  ghost predicate FullPages(replies: seq<Option<ScenePage>>, k: nat, count: int) {
    forall p :: 1 <= p <= k ==> PageAt(replies, p).Some? && PageAt(replies, p).value.count == count
  }

  lemma {:induction false} PagingFromBounded(replies: seq<Option<ScenePage>>, count: int, page: nat, acc: seq<Scene>)
    requires 1 <= page <= (if count <= 0 then 1 else count / PerPage + 1)
    requires FullPages(replies, if count <= 0 then 1 else count / PerPage + 1, count)
    requires |acc| >= PerPage * (page - 1)
    ensures PagingFrom(replies, page, acc).Collected?
    ensures PagingFrom(replies, page, acc).pages <= (if count <= 0 then 1 else count / PerPage + 1)
    decreases |replies| + 1 - page
  {
    var result := PageAt(replies, page).value;
    var acc' := acc + result.scenes;
    if !Stops(acc', result) {
      assert |acc'| >= PerPage * page;
      PagingFromBounded(replies, count, page + 1, acc');
    }
  }

  /**
   * Termination for a fixed `count`: when every page up to `count / 25 + 1` answers with the
   * same `count`, the loop stops by that page at the latest.
   */
  lemma PagingBounded(replies: seq<Option<ScenePage>>, count: int)
    requires FullPages(replies, if count <= 0 then 1 else count / PerPage + 1, count)
    ensures PagingFrom(replies, 1, []).Collected?
    ensures PagingFrom(replies, 1, []).pages <= (if count <= 0 then 1 else count / PerPage + 1)
  {
    PagingFromBounded(replies, count, 1, []);
  }

  /** The end of a "Missing Scenes" click. */
  datatype Outcome =
    | NoStashDBId                      // "Failed to fetch performer StashDB ID"
    | ShowModal(missing: seq<Scene>)   // the missing-scenes modal, spinner hidden
    | DetailsFailed                    // "Failed to fetch performer details ...", spinner hidden
    | SlideshowError                   // uncaught in `showNextImage`: nothing is shown, no page fetched
    | TypeError(page: nat)             // uncaught: the loading spinner stays on screen

  /** `performerIDs && performerIDs.stashDBID`. */
  predicate HasStashDBId(ids: Option<PerformerIds>) {
    ids.Some? && ids.value.stashDBID.Some? && ids.value.stashDBID.value != ""
  }

  /** The click ends in an uncaught exception. */
  predicate Throws(o: Outcome) {
    o.SlideshowError? || o.TypeError?
  }

  /**
   * The spinner is not left on screen at the end of the click: either it is hidden again
   * or, after a slideshow error, it was never displayed.
   */
  predicate SpinnerHidden(o: Outcome) {
    !o.TypeError?
  }

  /**
   * `showLoadingSpinner(images)` starts the slideshow, whose first `showNextImage` reads
   * `images[0].url`; `None` is the exception an empty list raises, before the spinner is shown.
   */
  function FirstSlide(imageCount: nat): (slide: Option<nat>)
    ensures slide.Some? <==> imageCount > 0
    ensures slide.Some? ==> slide.value < imageCount
  {
    if imageCount == 0 then None else Some(0)
  }

  /**
   * The click handler as written. `imageCount` is the length of the list
   * `fetchPerformerImagesFromStashDB` returns (empty on failure), the local details come from
   * `fetchPerformerDetails` (`None` on failure) and the pages from `fetchStashDBScenes`; an
   * empty image list and a failed page are both dereferenced.
   */
  function MissingScenesAsWritten(ids: Option<PerformerIds>, local: Option<seq<Scene>>, imageCount: nat,
                                  replies: seq<Option<ScenePage>>): (o: Outcome)
    ensures Throws(o) <==> HasStashDBId(ids) && (imageCount == 0 || PagingFrom(replies, 1, []).Crashed?)
    ensures o.SlideshowError? <==> HasStashDBId(ids) && imageCount == 0
    ensures o.TypeError? <==> HasStashDBId(ids) && imageCount > 0 && PagingFrom(replies, 1, []).Crashed?
    ensures o.ShowModal? ==> local.Some?
  {
    if !HasStashDBId(ids) then NoStashDBId
    else if FirstSlide(imageCount).None? then SlideshowError
    else match PagingFrom(replies, 1, [])
      case Crashed(p) => TypeError(p)
      case Collected(remote, _) =>
        if local.Some? then ShowModal(CompareScenes(local.value, remote)) else DetailsFailed
  }

  /** A first page that fails leaves the loading spinner on screen. */
  lemma NullPageCrashes(stashId: string, local: seq<Scene>, imageCount: nat)
    requires stashId != "" && imageCount > 0
    ensures MissingScenesAsWritten(Some(PerformerIds(Some(stashId), None)), Some(local), imageCount, [None]) == TypeError(1)
    ensures !SpinnerHidden(MissingScenesAsWritten(Some(PerformerIds(Some(stashId), None)), Some(local), imageCount, [None]))
  {
  }

  /**
   * A performer without StashDB images (or whose image query failed) gets no modal, whatever
   * the local details and the scene pages would have been.
   */
  lemma NoImagesCrashes(ids: Option<PerformerIds>, local: Option<seq<Scene>>, replies: seq<Option<ScenePage>>)
    requires HasStashDBId(ids)
    ensures MissingScenesAsWritten(ids, local, 0, replies) == SlideshowError
    ensures forall n: nat :: n > 0 && PagingFrom(replies, 1, []).Collected? && local.Some? ==>
      MissingScenesAsWritten(ids, local, n, replies).ShowModal?
  {
  }

  /** The paging loop with the `null` check the failure branch after it expects. */
  function FetchAllScenesChecked(replies: seq<Option<ScenePage>>): Option<seq<Scene>> {
    match PagingFrom(replies, 1, [])
    case Crashed(_) => None
    case Collected(remote, _) => Some(remote)
  }

  /**
   * The click handler as evidently intended: with no image the spinner is shown without a
   * slideshow and the search goes on, and a failed page reaches the failure branch
   * (`localDetails && stashDBScenes`) instead of throwing. The image count then no longer
   * decides anything.
   */
  function MissingScenes(ids: Option<PerformerIds>, local: Option<seq<Scene>>, imageCount: nat,
                         replies: seq<Option<ScenePage>>): (o: Outcome)
    ensures !Throws(o) && SpinnerHidden(o)
    ensures o.ShowModal? <==> HasStashDBId(ids) && local.Some? && FetchAllScenesChecked(replies).Some?
    ensures o.ShowModal? ==> o.missing == CompareScenes(local.value, FetchAllScenesChecked(replies).value)
    ensures o.NoStashDBId? <==> !HasStashDBId(ids)
  {
    if !HasStashDBId(ids) then NoStashDBId
    else match FetchAllScenesChecked(replies)
      case None => DetailsFailed
      case Some(remote) =>
        if local.Some? then ShowModal(CompareScenes(local.value, remote)) else DetailsFailed
  }

  /**
   * When the performer has an image and every page needed answers, the corrected handler
   * behaves exactly as the original.
   */
  lemma MissingScenesAgrees(ids: Option<PerformerIds>, local: Option<seq<Scene>>, imageCount: nat,
                            replies: seq<Option<ScenePage>>)
    requires imageCount > 0 && PagingFrom(replies, 1, []).Collected?
    ensures MissingScenes(ids, local, imageCount, replies) == MissingScenesAsWritten(ids, local, imageCount, replies)
  {
  }
}
