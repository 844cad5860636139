/**
 * The per-performer part of `processPerformerCards` (stashNewPerformerScenes.js): the scenes
 * of the performer's stash ids are gathered from the remote index per endpoint, only the
 * scenes released after the cutoff are kept, and endpoints left without scenes are dropped.
 * Also the popout's scene-list normalisation and `generateSceneUrl`.
 */
module ReleaseFilter {
  import opened Wrappers
  import opened Text
  import opened Stash
  import opened JsObject
  import opened RemoteIndex
  import ProviderConfig

  /** endpoint -> scenes: `performerStashScenesMap` and `filteredStashScenesMap`. */
  type Groups = Obj<seq<Scene>>

  // ---------------------------------------------------------------- aggregation

  /** Some stash id among the first `n` of group `g` is one of the performer's ids. */
  predicate AnyMatch(g: Group, ids: set<string>, n: nat)
    requires n <= |g|
  {
    exists j :: 0 <= j < n && g[j].key in ids
  }

  /** The scenes of the matching stash ids among the first `n` of `g`, in order. */
  function Matched(g: Group, ids: set<string>, n: nat): seq<Scene>
    requires n <= |g|
  {
    if n == 0 then [] else Matched(g, ids, n - 1) + (if g[n - 1].key in ids then g[n - 1].value else [])
  }

  /** The entry endpoint `e` gets from its group, if any of the group's ids matches. */
  function MatchEntry(e: string, g: Group, ids: set<string>, n: nat): Groups
    requires n <= |g|
  {
    if AnyMatch(g, ids, n) then [Entry(e, Matched(g, ids, n))] else []
  }

  /** The performer's aggregation over the first `n` endpoints of the index, in index order. */
  function Aggregated(idx: Index, ids: set<string>, n: nat): Groups
    requires n <= |idx|
  {
    if n == 0 then [] else Aggregated(idx, ids, n - 1) + MatchEntry(idx[n - 1].key, idx[n - 1].value, ids, |idx[n - 1].value|)
  }

  /**
   * `Object.entries(stashScenesMap).forEach(... Object.entries(stashData).forEach(...))`:
   * for every stash id that is one of the performer's ids, its scenes are pushed onto the
   * array of the endpoint, which is created on first use.
   */
  method AggregateScenes(idx: Index, ids: set<string>) returns (agg: Groups)
    requires DistinctKeys(idx)
    ensures agg == Aggregated(idx, ids, |idx|)
  {
    agg := [];
    for i := 0 to |idx|
      invariant agg == Aggregated(idx, ids, i)
    {
      FreshEndpoint(idx, ids, i);
      agg := PushMatches(agg, idx[i].key, idx[i].value, ids);
    }
  }

  /**
   * The inner `forEach` over one endpoint's group: the scenes of every matching stash id are
   * pushed onto the endpoint's array, which is created on the first match.
   */
  method PushMatches(before: Groups, e: string, g: Group, ids: set<string>) returns (agg: Groups)
    requires e !in Keys(before)
    ensures agg == before + MatchEntry(e, g, ids, |g|)
  {
    agg := before;
    assert MatchEntry(e, g, ids, 0) == [];
    for j := 0 to |g|
      invariant agg == before + MatchEntry(e, g, ids, j)
    {
      if g[j].key in ids {
        PushStep(agg, before, e, g, ids, j);
        if Get(agg, e).None? {
          agg := Put(agg, e, []);
        }
        agg := Put(agg, e, Get(agg, e).value + g[j].value);
      } else {
        SkipStep(e, g, ids, j);
      }
    }
  }

  /** One matching stash id: create the endpoint's array if missing, then push its scenes. */
  lemma PushStep(agg: Groups, before: Groups, e: string, g: Group, ids: set<string>, j: nat)
    requires j < |g| && g[j].key in ids && e !in Keys(before)
    requires agg == before + MatchEntry(e, g, ids, j)
    ensures Get(agg, e).None? ==> Put(Put(agg, e, []), e, [] + g[j].value) == before + MatchEntry(e, g, ids, j + 1)
    ensures Get(agg, e).Some? ==> Put(agg, e, Get(agg, e).value + g[j].value) == before + MatchEntry(e, g, ids, j + 1)
  {
    if AnyMatch(g, ids, j) {
      PushExisting(before, e, g, ids, j);
    } else {
      PushFirst(before, e, g, ids, j);
    }
  }

  /** A stash id that is not the performer's changes nothing. */
  lemma SkipStep(e: string, g: Group, ids: set<string>, j: nat)
    requires j < |g| && g[j].key !in ids
    ensures MatchEntry(e, g, ids, j + 1) == MatchEntry(e, g, ids, j)
  {
    assert AnyMatch(g, ids, j + 1) == AnyMatch(g, ids, j);
    assert Matched(g, ids, j + 1) == Matched(g, ids, j) + [] == Matched(g, ids, j);
  }

  lemma {:induction false} MatchedNone(g: Group, ids: set<string>, n: nat)
    requires n <= |g| && !AnyMatch(g, ids, n)
    ensures Matched(g, ids, n) == []
  {
    if n > 0 {
      MatchedNone(g, ids, n - 1);
    }
  }

  /** Pushing onto the endpoint's array once it exists. */
  lemma PushExisting(before: Groups, e: string, g: Group, ids: set<string>, j: nat)
    requires j < |g| && g[j].key in ids && e !in Keys(before) && AnyMatch(g, ids, j)
    ensures Get(before + MatchEntry(e, g, ids, j), e) == Some(Matched(g, ids, j))
    ensures Put(before + MatchEntry(e, g, ids, j), e, Matched(g, ids, j) + g[j].value) ==
            before + MatchEntry(e, g, ids, j + 1)
  {
    assert AnyMatch(g, ids, j + 1);
    assert MatchEntry(e, g, ids, j) == [Entry(e, Matched(g, ids, j))];
    PutLast(before, e, Matched(g, ids, j), Matched(g, ids, j) + g[j].value);
  }

  /** The first matching stash id creates the endpoint's array, then pushes onto it. */
  lemma PushFirst(before: Groups, e: string, g: Group, ids: set<string>, j: nat)
    requires j < |g| && g[j].key in ids && e !in Keys(before) && !AnyMatch(g, ids, j)
    ensures before + MatchEntry(e, g, ids, j) == before
    ensures Get(before, e) == None
    ensures Put(before, e, []) == before + [Entry(e, [])]
    ensures Get(before + [Entry(e, [])], e) == Some([])
    ensures Put(before + [Entry(e, [])], e, [] + g[j].value) == before + MatchEntry(e, g, ids, j + 1)
  {
    assert AnyMatch(g, ids, j + 1);
    MatchedNone(g, ids, j);
    assert MatchEntry(e, g, ids, j) == [];
    GetKeys(before, e);
    PutNew(before, e, []);
    PutLast(before, e, [], [] + g[j].value);
  }

  lemma MatchEntryShape(e: string, g: Group, ids: set<string>, n: nat)
    requires n <= |g|
    ensures MatchEntry(e, g, ids, n) == [] || MatchEntry(e, g, ids, n) == [Entry(e, Matched(g, ids, n))]
  {
  }

  /** Every endpoint of the aggregation is an endpoint of the index. */
  lemma {:induction false} AggregatedKeys(idx: Index, ids: set<string>, n: nat, e: string) returns (i: nat)
    requires n <= |idx|
    requires e in Keys(Aggregated(idx, ids, n))
    ensures i < n && idx[i].key == e
  {
    AggregatedKeyStep(idx, ids, n, e);
    if e == idx[n - 1].key {
      i := n - 1;
    } else {
      i := AggregatedKeys(idx, ids, n - 1, e);
    }
  }

  lemma AggregatedKeyStep(idx: Index, ids: set<string>, n: nat, e: string)
    requires n <= |idx|
    requires e in Keys(Aggregated(idx, ids, n))
    ensures n > 0 && (e == idx[n - 1].key || e in Keys(Aggregated(idx, ids, n - 1)))
  {
    if n == 0 {
      return;
    }
    var prev := Aggregated(idx, ids, n - 1);
    var g := idx[n - 1].value;
    var tail := MatchEntry(idx[n - 1].key, g, ids, |g|);
    assert Aggregated(idx, ids, n) == prev + tail;
    KeyInConcat(prev, tail, e);
    MatchEntryShape(idx[n - 1].key, g, ids, |g|);
    KeysOfSingle(Entry(idx[n - 1].key, Matched(g, ids, |g|)));
    assert Keys<seq<Scene>>([]) == [];
  }

  lemma FreshEndpoint(idx: Index, ids: set<string>, i: nat)
    requires DistinctKeys(idx) && i < |idx|
    ensures idx[i].key !in Keys(Aggregated(idx, ids, i))
  {
    if idx[i].key in Keys(Aggregated(idx, ids, i)) {
      var i' := AggregatedKeys(idx, ids, i, idx[i].key);
      DistinctKeysAt(idx, i', i);
    }
  }

  /** The aggregation is a JavaScript object: its endpoints are distinct. */
  lemma {:induction false} AggregatedDistinct(idx: Index, ids: set<string>, n: nat)
    requires DistinctKeys(idx) && n <= |idx|
    ensures DistinctKeys(Aggregated(idx, ids, n))
  {
    if n > 0 {
      var prev := Aggregated(idx, ids, n - 1);
      var g := idx[n - 1].value;
      AggregatedDistinct(idx, ids, n - 1);
      if AnyMatch(g, ids, |g|) {
        FreshEndpoint(idx, ids, n - 1);
        PutNew(prev, idx[n - 1].key, Matched(g, ids, |g|));
        PutDistinct(prev, idx[n - 1].key, Matched(g, ids, |g|));
      } else {
        assert Aggregated(idx, ids, n) == prev + [] == prev;
      }
    }
  }

  /** A scene is gathered from a group exactly when some matching stash id holds it. */
  lemma {:induction false} MatchedMembership(g: Group, ids: set<string>, n: nat, x: Scene)
    requires n <= |g|
    ensures x in Matched(g, ids, n) <==> exists j :: 0 <= j < n && g[j].key in ids && x in g[j].value
  {
    if n > 0 {
      MatchedMembership(g, ids, n - 1, x);
    }
  }

  // ---------------------------------------------------------------- recency

  const MsPerDay: int := 86400000

  /**
   * `cutoffDate.setDate(cutoffDate.getDate() - config.defaultDateRange)`: `range` days before
   * `now`; a range that is `NaN` (`None`) makes the date invalid (`None`).
   */
  function Cutoff(now: int, range: Option<int>): (c: Option<int>)
    ensures c.Some? <==> range.Some?
    ensures range.Some? && range.value >= 1 ==> c.value < now
  {
    match range
    case None => None
    case Some(d) => Some(now - d * MsPerDay)
  }

  /** `new Date(scene.release_date) > cutoffDate`: false when either date is invalid. */
  predicate IsRecent(s: Scene, cutoff: Option<int>) {
    cutoff.Some? && s.releaseDate.Some? && s.releaseDate.value > cutoff.value
  }

  /**
   * A scene whose `release_date` is `null` dates from the epoch, so it passes the date filter
   * exactly when the range reaches back before 1 January 1970, that is, spans more than the
   * `now` milliseconds since the epoch (99999 days does so at any date before 2243).
   */
  lemma NullDatedScene(id: string, title: string, parse: string -> Option<int>, now: int, range: int,
                       scenes: seq<Scene>)
    requires Scene(id, title, ReleaseDate(NullDate, parse)) in scenes
    ensures Scene(id, title, ReleaseDate(NullDate, parse)) in FilterRecent(scenes, Cutoff(now, Some(range))) <==>
            now < range * MsPerDay
  {
    FilterRecentMembers(scenes, Cutoff(now, Some(range)), Scene(id, title, ReleaseDate(NullDate, parse)));
  }

  /** An absent `release_date` is an Invalid Date: such a scene never passes the filter. */
  lemma MissingDateNeverRecent(id: string, title: string, parse: string -> Option<int>,
                               cutoff: Option<int>, scenes: seq<Scene>)
    ensures Scene(id, title, ReleaseDate(NoDate, parse)) !in FilterRecent(scenes, cutoff)
  {
  }

  /** `scenes.filter(...)` with the recency test. */
  function FilterRecent(scenes: seq<Scene>, cutoff: Option<int>): (r: seq<Scene>)
    ensures |r| <= |scenes|
  {
    if scenes == [] then []
    else
      var last := scenes[|scenes| - 1];
      FilterRecent(scenes[..|scenes| - 1], cutoff) + (if IsRecent(last, cutoff) then [last] else [])
  }

  /** The filter keeps exactly the recent scenes. */
  lemma {:induction false} FilterRecentMembers(scenes: seq<Scene>, cutoff: Option<int>, x: Scene)
    ensures x in FilterRecent(scenes, cutoff) <==> x in scenes && IsRecent(x, cutoff)
  {
    if scenes != [] {
      var init := scenes[..|scenes| - 1];
      FilterRecentMembers(init, cutoff, x);
      assert scenes == init + [scenes[|scenes| - 1]];
    }
  }

  lemma {:induction false} FilterConcat(a: seq<Scene>, b: seq<Scene>, cutoff: Option<int>)
    ensures FilterRecent(a + b, cutoff) == FilterRecent(a, cutoff) + FilterRecent(b, cutoff)
  {
    if b == [] {
      assert a + b == a;
    } else {
      var b', last := b[..|b| - 1], b[|b| - 1];
      var tail := if IsRecent(last, cutoff) then [last] else [];
      assert (a + b)[..|a + b| - 1] == a + b';
      assert (a + b)[|a + b| - 1] == last;
      FilterConcat(a, b', cutoff);
      calc {
        FilterRecent(a + b, cutoff);
        FilterRecent(a + b', cutoff) + tail;
        FilterRecent(a, cutoff) + FilterRecent(b', cutoff) + tail;
        FilterRecent(a, cutoff) + (FilterRecent(b', cutoff) + tail);
      }
    }
  }

  /** Filtering with a cutoff and then a later one is filtering with the later one. */
  lemma {:induction false} FilterNarrow(scenes: seq<Scene>, c1: int, c2: int)
    requires c1 <= c2
    ensures FilterRecent(FilterRecent(scenes, Some(c1)), Some(c2)) == FilterRecent(scenes, Some(c2))
  {
    if scenes != [] {
      var s' := scenes[..|scenes| - 1];
      var last := scenes[|scenes| - 1];
      FilterNarrow(s', c1, c2);
      FilterConcat(FilterRecent(s', Some(c1)), if IsRecent(last, Some(c1)) then [last] else [], Some(c2));
    }
  }

  /** The filter is idempotent. */
  lemma FilterIdempotent(scenes: seq<Scene>, cutoff: Option<int>)
    ensures FilterRecent(FilterRecent(scenes, cutoff), cutoff) == FilterRecent(scenes, cutoff)
  {
    if cutoff.Some? {
      FilterNarrow(scenes, cutoff.value, cutoff.value);
    } else {
      FilterInvalid(scenes);
    }
  }

  /** With an invalid cutoff date nothing is recent. */
  lemma {:induction false} FilterInvalid(scenes: seq<Scene>)
    ensures FilterRecent(scenes, None) == []
  {
    if scenes != [] {
      FilterInvalid(scenes[..|scenes| - 1]);
    }
  }

  /** A scene that is new for a range of `d1` days is new for every longer range. */
  lemma WiderRangeKeepsMore(scenes: seq<Scene>, now: int, d1: int, d2: int)
    requires d1 <= d2
    ensures FilterRecent(FilterRecent(scenes, Cutoff(now, Some(d2))), Cutoff(now, Some(d1))) ==
            FilterRecent(scenes, Cutoff(now, Some(d1)))
  {
    var c1, c2 := now - d2 * MsPerDay, now - d1 * MsPerDay;
    assert d2 * MsPerDay == d1 * MsPerDay + (d2 - d1) * MsPerDay;
    assert c1 <= c2;
    assert Cutoff(now, Some(d2)) == Some(c1) && Cutoff(now, Some(d1)) == Some(c2);
    FilterNarrow(scenes, c1, c2);
  }

  /** The groups that keep at least one recent scene, among the first `n`, with only those scenes. */
  function Surviving(agg: Groups, cutoff: Option<int>, n: nat): Groups
    requires n <= |agg|
  {
    if n == 0 then []
    else
      var f := FilterRecent(agg[n - 1].value, cutoff);
      Surviving(agg, cutoff, n - 1) + (if f != [] then [Entry(agg[n - 1].key, f)] else [])
  }

  /** `Object.entries(performerStashScenesMap).forEach(...)` building `filteredStashScenesMap`. */
  method FilterByDate(agg: Groups, cutoff: Option<int>) returns (r: Groups)
    requires DistinctKeys(agg)
    ensures r == Surviving(agg, cutoff, |agg|)
  {
    r := [];
    for i := 0 to |agg|
      invariant r == Surviving(agg, cutoff, i)
    {
      var filtered := FilterRecent(agg[i].value, cutoff);
      if |filtered| > 0 {
        SurvivingFresh(agg, cutoff, i);
        PutNew(r, agg[i].key, filtered);
        r := Put(r, agg[i].key, filtered);
      }
    }
  }

  /** Every endpoint that survives the filter was an endpoint of the aggregation. */
  lemma {:induction false} SurvivingKeys(agg: Groups, cutoff: Option<int>, n: nat, e: string) returns (i: nat)
    requires n <= |agg|
    requires e in Keys(Surviving(agg, cutoff, n))
    ensures i < n && agg[i].key == e
  {
    if n == 0 {
      assert false;
    }
    var prev := Surviving(agg, cutoff, n - 1);
    var f := FilterRecent(agg[n - 1].value, cutoff);
    var tail := if f != [] then [Entry(agg[n - 1].key, f)] else [];
    assert Surviving(agg, cutoff, n) == prev + tail;
    KeyInConcat(prev, tail, e);
    if e in Keys(prev) {
      i := SurvivingKeys(agg, cutoff, n - 1, e);
    } else {
      assert tail == [Entry(agg[n - 1].key, f)];
      i := n - 1;
    }
  }

  lemma SurvivingFresh(agg: Groups, cutoff: Option<int>, i: nat)
    requires DistinctKeys(agg) && i < |agg|
    ensures agg[i].key !in Keys(Surviving(agg, cutoff, i))
  {
    if agg[i].key in Keys(Surviving(agg, cutoff, i)) {
      var i' := SurvivingKeys(agg, cutoff, i, agg[i].key);
      DistinctKeysAt(agg, i', i);
    }
  }

  /** Every surviving group is non-empty and holds only recent scenes. */
  lemma {:induction false} SurvivingGroups(agg: Groups, cutoff: Option<int>, n: nat)
    requires n <= |agg|
    ensures forall k :: 0 <= k < |Surviving(agg, cutoff, n)| ==>
              Surviving(agg, cutoff, n)[k].value != [] &&
              forall x :: x in Surviving(agg, cutoff, n)[k].value ==> IsRecent(x, cutoff)
  {
    if n > 0 {
      SurvivingGroups(agg, cutoff, n - 1);
      var prev := Surviving(agg, cutoff, n - 1);
      var f := FilterRecent(agg[n - 1].value, cutoff);
      var r := Surviving(agg, cutoff, n);
      assert r == prev + (if f != [] then [Entry(agg[n - 1].key, f)] else []);
      forall k | 0 <= k < |r|
        ensures r[k].value != [] && forall x :: x in r[k].value ==> IsRecent(x, cutoff)
      {
        if k < |prev| {
          assert r[k] == prev[k];
        } else {
          assert r[k].value == f;
          forall x | x in f ensures IsRecent(x, cutoff) {
            FilterRecentMembers(agg[n - 1].value, cutoff, x);
          }
        }
      }
    }
  }

  /** Some group among the entries of `o` holds scene `x`. */
  ghost predicate InSome(o: Groups, x: Scene) {
    exists k :: 0 <= k < |o| && x in o[k].value
  }

  lemma InSomeAppend(a: Groups, b: Groups, x: Scene)
    ensures InSome(a + b, x) <==> InSome(a, x) || InSome(b, x)
  {
    if InSome(a + b, x) {
      var k :| 0 <= k < |a + b| && x in (a + b)[k].value;
      if k >= |a| {
        assert b[k - |a|] == (a + b)[k];
      }
    }
    if InSome(a, x) {
      var k :| 0 <= k < |a| && x in a[k].value;
      assert (a + b)[k] == a[k];
    }
    if InSome(b, x) {
      var k :| 0 <= k < |b| && x in b[k].value;
      assert (a + b)[|a| + k] == b[k];
    }
  }

  lemma {:induction false} SurvivingScenes(agg: Groups, cutoff: Option<int>, n: nat, x: Scene)
    requires n <= |agg|
    ensures InSome(Surviving(agg, cutoff, n), x) <==> IsRecent(x, cutoff) && InSome(agg[..n], x)
  {
    if n > 0 {
      SurvivingScenes(agg, cutoff, n - 1, x);
      var f := FilterRecent(agg[n - 1].value, cutoff);
      FilterRecentMembers(agg[n - 1].value, cutoff, x);
      InSomeAppend(Surviving(agg, cutoff, n - 1), if f != [] then [Entry(agg[n - 1].key, f)] else [], x);
      assert agg[..n] == agg[..n - 1] + [agg[n - 1]];
      InSomeAppend(agg[..n - 1], [agg[n - 1]], x);
      if f != [] && x in f {
        assert [Entry(agg[n - 1].key, f)][0].value == f;
      }
    }
  }

  /** Some matching stash id among the first `n` endpoints of the index holds scene `x`. */
  ghost predicate MatchedIn(idx: Index, ids: set<string>, n: nat, x: Scene)
    requires n <= |idx|
  {
    exists i, j :: 0 <= i < n && 0 <= j < |idx[i].value| && idx[i].value[j].key in ids && x in idx[i].value[j].value
  }

  lemma {:induction false} AggregatedScenes(idx: Index, ids: set<string>, n: nat, x: Scene)
    requires n <= |idx|
    ensures InSome(Aggregated(idx, ids, n), x) <==> MatchedIn(idx, ids, n, x)
  {
    if n > 0 {
      var g := idx[n - 1].value;
      AggregatedScenes(idx, ids, n - 1, x);
      InSomeAppend(Aggregated(idx, ids, n - 1), MatchEntry(idx[n - 1].key, g, ids, |g|), x);
      MatchedMembership(g, ids, |g|, x);
      if MatchedIn(idx, ids, n, x) && !MatchedIn(idx, ids, n - 1, x) {
        var i, j :| 0 <= i < n && 0 <= j < |idx[i].value| && idx[i].value[j].key in ids && x in idx[i].value[j].value;
        assert i == n - 1;
        assert MatchEntry(idx[n - 1].key, g, ids, |g|)[0].value == Matched(g, ids, |g|);
      }
      if InSome(MatchEntry(idx[n - 1].key, g, ids, |g|), x) {
        var j :| 0 <= j < |g| && g[j].key in ids && x in g[j].value;
        assert MatchedIn(idx, ids, n, x) by {
          assert idx[n - 1].value[j].key in ids && x in idx[n - 1].value[j].value;
        }
      }
    }
  }

  /** What the badge of a performer with stash ids `ids` lists: `filteredStashScenesMap`. */
  function NewReleases(idx: Index, ids: set<string>, cutoff: Option<int>): Groups {
    var agg := Aggregated(idx, ids, |idx|);
    Surviving(agg, cutoff, |agg|)
  }

  /**
   * The badge lists exactly the recent scenes held by one of the performer's stash ids, at
   * whatever endpoint the id was found.
   */
  lemma NewReleaseScenes(idx: Index, ids: set<string>, cutoff: Option<int>, x: Scene)
    ensures InSome(NewReleases(idx, ids, cutoff), x) <==> IsRecent(x, cutoff) && MatchedIn(idx, ids, |idx|, x)
  {
    var agg := Aggregated(idx, ids, |idx|);
    SurvivingScenes(agg, cutoff, |agg|, x);
    assert agg[..|agg|] == agg;
    AggregatedScenes(idx, ids, |idx|, x);
  }

  /** An icon is added exactly when some matching stash id holds a recent scene. */
  lemma IconShown(idx: Index, ids: set<string>, cutoff: Option<int>)
    ensures NewReleases(idx, ids, cutoff) != [] <==> exists x :: IsRecent(x, cutoff) && MatchedIn(idx, ids, |idx|, x)
  {
    var r := NewReleases(idx, ids, cutoff);
    var agg := Aggregated(idx, ids, |idx|);
    if r != [] {
      SurvivingGroups(agg, cutoff, |agg|);
      var x := r[0].value[0];
      NewReleaseScenes(idx, ids, cutoff, x);
    }
    if exists x :: IsRecent(x, cutoff) && MatchedIn(idx, ids, |idx|, x) {
      var x :| IsRecent(x, cutoff) && MatchedIn(idx, ids, |idx|, x);
      NewReleaseScenes(idx, ids, cutoff, x);
    }
  }

  // ---------------------------------------------------------------- popout

  /** The JavaScript values the popout can meet where it expects scenes. */
  datatype JsValue = JsNull | JsPrimitive | JsArray(items: seq<JsValue>) | JsSceneObject(scene: Scene)

  /** `scene && typeof scene === 'object'`: arrays are objects too. */
  predicate IsObject(v: JsValue) {
    v.JsArray? || v.JsSceneObject?
  }

  /** The elements `scenes.forEach` renders: the objects, in order. */
  function KeepObjects(items: seq<JsValue>): (r: seq<JsValue>)
    ensures |r| <= |items|
  {
    if items == [] then []
    else
      var last := items[|items| - 1];
      KeepObjects(items[..|items| - 1]) + (if IsObject(last) then [last] else [])
  }

  /** Exactly the objects among the items are kept. */
  lemma {:induction false} KeepObjectsMembers(items: seq<JsValue>)
    ensures forall x :: x in KeepObjects(items) <==> x in items && IsObject(x)
  {
    if items != [] {
      var init := items[..|items| - 1];
      KeepObjectsMembers(init);
      assert items == init + [items[|items| - 1]];
    }
  }

  /**
   * The scene-list normalisation of `createScenePreviewPopout`: an array is rendered with its
   * non-object elements skipped, another object is wrapped as a one-element list, anything
   * else is skipped.
   */
  function RenderedScenes(v: JsValue): (r: seq<JsValue>)
    ensures forall x :: x in r ==> IsObject(x)
    ensures !IsObject(v) ==> r == []
    ensures v.JsSceneObject? ==> r == [v]
    ensures v.JsArray? ==> forall x :: x in r <==> x in v.items && IsObject(x)
  {
    match v
    case JsArray(items) => KeepObjectsMembers(items); KeepObjects(items)
    case JsSceneObject(_) => [v]
    case _ => []
  }

  lemma {:induction false} KeepObjectsAll(items: seq<JsValue>)
    requires forall x :: x in items ==> IsObject(x)
    ensures KeepObjects(items) == items
  {
    if items != [] {
      var init := items[..|items| - 1];
      var last := items[|items| - 1];
      forall x | x in init ensures IsObject(x) {
        assert x in items;
      }
      KeepObjectsAll(init);
      assert IsObject(last) by { assert last in items; }
      assert items == init + [last];
    }
  }

  /** Normalising the rendered list again changes nothing. */
  lemma RenderedIdempotent(v: JsValue)
    ensures RenderedScenes(JsArray(RenderedScenes(v))) == RenderedScenes(v)
  {
    KeepObjectsAll(RenderedScenes(v));
  }

  function SceneObjects(scenes: seq<Scene>): (r: seq<JsValue>)
    ensures |r| == |scenes| && forall i :: 0 <= i < |r| ==> r[i] == JsSceneObject(scenes[i])
  {
    if scenes == [] then [] else SceneObjects(scenes[..|scenes| - 1]) + [JsSceneObject(scenes[|scenes| - 1])]
  }

  /** `Object.entries(stashData).forEach(([_, scenes]) => ...)`: every entry normalised, in order. */
  function RenderedEntries(entries: seq<JsValue>): seq<JsValue> {
    if entries == [] then [] else RenderedEntries(entries[..|entries| - 1]) + RenderedScenes(entries[|entries| - 1])
  }

  /**
   * The popout receives `filteredStashScenesMap`, whose values are arrays of scenes: each of
   * their entries is a single scene object, which is wrapped, so every scene is shown once
   * and in order.
   */
  lemma {:induction false} PopoutShowsEachScene(scenes: seq<Scene>)
    ensures RenderedEntries(SceneObjects(scenes)) == SceneObjects(scenes)
  {
    if scenes != [] {
      var init := scenes[..|scenes| - 1];
      assert SceneObjects(scenes)[..|scenes| - 1] == SceneObjects(init);
      PopoutShowsEachScene(init);
    }
  }

  // ---------------------------------------------------------------- scene links

  const PmvStashSite: string := "https://pmvstash.org"
  const FansDBSite: string := "https://fansdb.cc"
  const StashDBSite: string := "https://stashdb.org"

  /** The site a scene of `endpoint` is linked to: `pmvstash` is tested before `fansdb`. */
  function SceneSite(endpoint: string): (site: string)
    ensures site == PmvStashSite <==> Contains(endpoint, "pmvstash")
    ensures site == FansDBSite <==> !Contains(endpoint, "pmvstash") && Contains(endpoint, "fansdb")
    ensures site == StashDBSite <==> !Contains(endpoint, "pmvstash") && !Contains(endpoint, "fansdb")
  {
    if Contains(endpoint, "pmvstash") then PmvStashSite
    else if Contains(endpoint, "fansdb") then FansDBSite
    else StashDBSite
  }

  /** `generateSceneUrl(endpoint, stashId)`. */
  function SceneUrl(endpoint: string, id: string): (r: string)
    ensures |r| >= |id| + 8 && r[|r| - |id| - 8..] == "/scenes/" + id
    ensures r[..|r| - |id| - 8] == SceneSite(endpoint)
  {
    SceneSite(endpoint) + "/scenes/" + id
  }

  /** Different scenes of one endpoint get different links. */
  lemma SceneUrlInjective(endpoint: string, a: string, b: string)
    requires SceneUrl(endpoint, a) == SceneUrl(endpoint, b)
    ensures a == b
  {
    var r := SceneUrl(endpoint, a);
    assert |a| == |b|;
    assert r[|r| - |a| - 8..][8..] == a;
  }

  /**
   * Scenes of a box the right-click configuration recognises as StashDB or as FansDB (either
   * domain) link to that provider's own site.
   */
  lemma ProviderSites(p: ProviderConfig.Provider, endpoint: string)
    requires p != ProviderConfig.ThePornDB && ProviderConfig.IsProvider(p, endpoint)
    ensures SceneSite(endpoint) == (if p == ProviderConfig.FansDB then FansDBSite else StashDBSite)
  {
    if p == ProviderConfig.FansDB {
      FansDBDomainsSite(endpoint);
    } else {
      assert endpoint == StashDBEndpoint;
      NotContained(endpoint, "pmvstash", 2);
      NotContained(endpoint, "fansdb", 0);
    }
  }

  lemma FansDBDomainsSite(endpoint: string)
    requires endpoint == FansDBEndpoint || endpoint == OldFansDBEndpoint
    ensures SceneSite(endpoint) == FansDBSite
  {
    NotContained(endpoint, "pmvstash", 2);
    var word := endpoint[8..14];
    forall k | 0 <= k < 6 ensures word[k] == "fansdb"[k] {
      assert word[k] == endpoint[8 + k];
    }
    assert OccursAt(endpoint, "fansdb", 8);
  }

  /** A text lacking one character of a pattern does not contain the pattern. */
  lemma NotContained(s: string, pattern: string, n: nat)
    requires n < |pattern| && pattern[n] !in s
    ensures !Contains(s, pattern)
  {
    forall i: nat | i <= |s|
      ensures !OccursAt(s, pattern, i)
    {
      if i + |pattern| <= |s| {
        assert s[i..i + |pattern|][n] == s[i + n];
      }
    }
  }
}
