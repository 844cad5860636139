/**
 * `getNewReleasesForStashIDs` (stashNewPerformerScenes.js): for every configured stash-box
 * with an API key, one batched query for the scenes of all stash ids collected for its
 * endpoint, folded into `{ endpoint: { stash_id: scenes } }`. A box whose query fails is
 * skipped and the loop goes on with the next one.
 */
module RemoteIndex {
  import opened Wrappers
  import opened Stash
  import opened JsObject
  import opened IdentityMap

  /** stash id -> scenes, for one endpoint. */
  type Group = Obj<seq<Scene>>

  /** endpoint -> group. */
  type Index = Obj<Group>

  /**
   * `order` is the order in which `Object.values(performerStashMap)` visits the performers:
   * each key of the map exactly once.
   */
  ghost predicate IsEnumeration(order: seq<string>, m: StashMap) {
    && (forall p :: p in order <==> p in m)
    && (forall i, j :: 0 <= i < j < |order| ==> order[i] != order[j])
  }

  /** The stash ids pushed for endpoint `e` by the first `n` performers: `if (stashObj[endpoint])`. */
  function CollectIds(m: StashMap, order: seq<string>, e: string, n: nat): seq<string>
    requires n <= |order|
  {
    if n == 0 then []
    else
      var p := order[n - 1];
      CollectIds(m, order, e, n - 1) + (if p in m && e in m[p] && m[p][e] != "" then [m[p][e]] else [])
  }

  function StashIdsFor(m: StashMap, order: seq<string>, e: string): seq<string> {
    CollectIds(m, order, e, |order|)
  }

  /** `stashScenesMap[endpoint]`, or a fresh `{}` when it is missing. */
  function GroupOf(idx: Index, e: string): Group {
    Get(idx, e).GetOr([])
  }

  /** The first `n` assignments `group[stashIds[j]] = scenes_j`. */
  function FillGroup(g: Group, ids: seq<string>, rows: seq<Option<seq<Scene>>>, n: nat): Group
    requires n <= |ids|
  {
    if n == 0 then g else Put(FillGroup(g, ids, rows, n - 1), ids[n - 1], RowOr(rows, n - 1))
  }

  /** A box adds to the index only if it has a key, some stash ids and an answer. */
  predicate Contributes(box: StashBox, ids: seq<string>, reply: Response<seq<Scene>>) {
    HasApiKey(box) && ids != [] && reply.Answered?
  }

  function BoxStep(idx: Index, box: StashBox, ids: seq<string>, reply: Response<seq<Scene>>): Index {
    if !Contributes(box, ids, reply) then idx
    else Put(idx, box.endpoint, FillGroup(GroupOf(idx, box.endpoint), ids, reply.rows, |ids|))
  }

  /** The reply to the query of box `k`; a box without one counts as failed. */
  function ReplyAt(replies: seq<Response<seq<Scene>>>, k: nat): Response<seq<Scene>> {
    if k < |replies| then replies[k] else Failed
  }

  /** The index after the loop has handled the first `n` boxes. */
  function IndexOf(boxes: seq<StashBox>, m: StashMap, order: seq<string>,
                   replies: seq<Response<seq<Scene>>>, n: nat): Index
    requires n <= |boxes|
  {
    if n == 0 then []
    else
      var box := boxes[n - 1];
      BoxStep(IndexOf(boxes, m, order, replies, n - 1), box,
              StashIdsFor(m, order, box.endpoint), ReplyAt(replies, n - 1))
  }

  /** The queries issued for the first `n` boxes: one per box with a key and some stash ids. */
  function RequestsOf(boxes: seq<StashBox>, m: StashMap, order: seq<string>, n: nat): (r: nat)
    requires n <= |boxes|
    ensures r <= n
    ensures (forall k :: 0 <= k < n ==> !HasApiKey(boxes[k])) ==> r == 0
  {
    if n == 0 then 0
    else
      var box := boxes[n - 1];
      RequestsOf(boxes, m, order, n - 1) +
        (if HasApiKey(box) && StashIdsFor(m, order, box.endpoint) != [] then 1 else 0)
  }

  /**
   * The loop of `getNewReleasesForStashIDs` over `config.stashBoxes`. `replies[k]` is what the
   * query of box `k` returns, if it is issued.
   */
  method GetNewReleasesForStashIds(boxes: seq<StashBox>, m: StashMap, order: seq<string>,
                                   replies: seq<Response<seq<Scene>>>)
    returns (idx: Index, requests: nat)
    ensures idx == IndexOf(boxes, m, order, replies, |boxes|)
    ensures requests == RequestsOf(boxes, m, order, |boxes|)
  {
    idx, requests := [], 0;
    for k := 0 to |boxes|
      invariant idx == IndexOf(boxes, m, order, replies, k)
      invariant requests == RequestsOf(boxes, m, order, k)
    {
      var box := boxes[k];
      if !HasApiKey(box) {
        continue;
      }
      var ids := CollectStashIds(m, order, box.endpoint);
      if |ids| == 0 {
        continue;
      }
      requests := requests + 1;
      var reply := ReplyAt(replies, k);
      if reply.Failed? {
        continue;
      }
      idx := StoreScenes(idx, box.endpoint, ids, reply.rows);
    }
  }

  /** `Object.values(performerStashMap).forEach(...)` collecting the ids for one endpoint. */
  method CollectStashIds(m: StashMap, order: seq<string>, e: string) returns (ids: seq<string>)
    ensures ids == StashIdsFor(m, order, e)
  {
    ids := [];
    for q := 0 to |order|
      invariant ids == CollectIds(m, order, e, q)
    {
      var p := order[q];
      if p in m && e in m[p] && m[p][e] != "" {
        ids := ids + [m[p][e]];
      }
    }
  }

  /** `aliases.forEach(...)`: each stash id gets its alias's scenes, or `[]`. */
  method StoreScenes(idx: Index, e: string, ids: seq<string>, rows: seq<Option<seq<Scene>>>)
    returns (r: Index)
    requires ids != []
    ensures r == Put(idx, e, FillGroup(GroupOf(idx, e), ids, rows, |ids|))
  {
    r := idx;
    for j := 0 to |ids|
      invariant j == 0 ==> r == idx
      invariant j > 0 ==> r == Put(idx, e, FillGroup(GroupOf(idx, e), ids, rows, j))
    {
      var g := GroupOf(r, e);
      r := Put(r, e, Put(g, ids[j], RowOr(rows, j)));
      if j > 0 {
        PutTwice(idx, e, FillGroup(GroupOf(idx, e), ids, rows, j),
                 FillGroup(GroupOf(idx, e), ids, rows, j + 1));
      }
    }
  }

  /** With `order` an enumeration, the ids collected for `e` are the non-empty ones at `e`. */
  lemma {:induction false} CollectIdsMembership(m: StashMap, order: seq<string>, e: string, n: nat, s: string)
    requires n <= |order|
    ensures s in CollectIds(m, order, e, n) <==>
            s != "" && exists q :: 0 <= q < n && order[q] in m && e in m[order[q]] && m[order[q]][e] == s
  {
    if n > 0 {
      CollectIdsMembership(m, order, e, n - 1, s);
    }
  }

  lemma StashIdsForMembership(m: StashMap, order: seq<string>, e: string, s: string)
    requires IsEnumeration(order, m)
    ensures s in StashIdsFor(m, order, e) <==>
            s != "" && exists p :: p in m && e in m[p] && m[p][e] == s
  {
    CollectIdsMembership(m, order, e, |order|, s);
    if s != "" && exists p :: p in m && e in m[p] && m[p][e] == s {
      var p :| p in m && e in m[p] && m[p][e] == s;
      var q :| 0 <= q < |order| && order[q] == p;
    }
  }

  /** Filling a group keeps its keys and adds the stored ids. */
  lemma {:induction false} FillGroupKeys(g: Group, ids: seq<string>, rows: seq<Option<seq<Scene>>>, n: nat, s: string)
    requires n <= |ids|
    ensures s in Keys(FillGroup(g, ids, rows, n)) <==> s in Keys(g) || s in ids[..n]
  {
    if n > 0 {
      FillGroupKeys(g, ids, rows, n - 1, s);
      PutKeys(FillGroup(g, ids, rows, n - 1), ids[n - 1], RowOr(rows, n - 1));
      assert ids[..n] == ids[..n - 1] + [ids[n - 1]];
    }
  }

  /** A value in a filled group was there before or is the row of an alias with that id. */
  lemma {:induction false} FillGroupValues(g: Group, ids: seq<string>, rows: seq<Option<seq<Scene>>>, n: nat,
                                           s: string, v: seq<Scene>)
    requires n <= |ids|
    requires Get(FillGroup(g, ids, rows, n), s) == Some(v)
    ensures Get(g, s) == Some(v) || exists j :: 0 <= j < n && ids[j] == s && v == RowOr(rows, j)
  {
    if n > 0 && ids[n - 1] != s {
      PutOther(FillGroup(g, ids, rows, n - 1), ids[n - 1], RowOr(rows, n - 1), s);
      FillGroupValues(g, ids, rows, n - 1, s, v);
    }
  }

  /** Every group of the index has distinct stash ids, and the index distinct endpoints. */
  ghost predicate WellFormed(idx: Index) {
    DistinctKeys(idx) && forall e :: DistinctKeys(GroupOf(idx, e))
  }

  lemma {:induction false} FillGroupDistinct(g: Group, ids: seq<string>, rows: seq<Option<seq<Scene>>>, n: nat)
    requires n <= |ids| && DistinctKeys(g)
    ensures DistinctKeys(FillGroup(g, ids, rows, n))
  {
    if n > 0 {
      FillGroupDistinct(g, ids, rows, n - 1);
      PutDistinct(FillGroup(g, ids, rows, n - 1), ids[n - 1], RowOr(rows, n - 1));
    }
  }

  lemma {:induction false} IndexWellFormed(boxes: seq<StashBox>, m: StashMap, order: seq<string>,
                                           replies: seq<Response<seq<Scene>>>, n: nat)
    requires n <= |boxes|
    ensures WellFormed(IndexOf(boxes, m, order, replies, n))
  {
    if n > 0 {
      var prev := IndexOf(boxes, m, order, replies, n - 1);
      IndexWellFormed(boxes, m, order, replies, n - 1);
      var box := boxes[n - 1];
      var ids := StashIdsFor(m, order, box.endpoint);
      var reply := ReplyAt(replies, n - 1);
      if Contributes(box, ids, reply) {
        var g := FillGroup(GroupOf(prev, box.endpoint), ids, reply.rows, |ids|);
        FillGroupDistinct(GroupOf(prev, box.endpoint), ids, reply.rows, |ids|);
        PutDistinct(prev, box.endpoint, g);
        forall e ensures DistinctKeys(GroupOf(Put(prev, box.endpoint, g), e)) {
          if e != box.endpoint {
            PutOther(prev, box.endpoint, g, e);
            assert DistinctKeys(GroupOf(prev, e));
          } else {
            assert GroupOf(Put(prev, box.endpoint, g), e) == g;
          }
        }
      }
    }
  }

  /** Some box of endpoint `e` among the first `n` had a key, some stash ids and an answer. */
  ghost predicate Contributed(boxes: seq<StashBox>, m: StashMap, order: seq<string>,
                              replies: seq<Response<seq<Scene>>>, n: nat, e: string)
    requires n <= |boxes|
  {
    exists k :: 0 <= k < n && boxes[k].endpoint == e &&
                Contributes(boxes[k], StashIdsFor(m, order, e), ReplyAt(replies, k))
  }

  /** Box `k` stored `v` for the alias at position `j` of the ids collected for `e`. */
  ghost predicate StoredBy(boxes: seq<StashBox>, m: StashMap, order: seq<string>,
                           replies: seq<Response<seq<Scene>>>, k: nat, j: nat, e: string, s: string,
                           v: seq<Scene>)
  {
    && k < |boxes| && boxes[k].endpoint == e
    && Contributes(boxes[k], StashIdsFor(m, order, e), ReplyAt(replies, k))
    && j < |StashIdsFor(m, order, e)| && StashIdsFor(m, order, e)[j] == s
    && v == RowOr(ReplyAt(replies, k).rows, j)
  }

  /** One step of the box loop touches only the group of its own endpoint. */
  lemma GroupAfterStep(idx: Index, box: StashBox, ids: seq<string>, reply: Response<seq<Scene>>, e: string)
    ensures GroupOf(BoxStep(idx, box, ids, reply), e) ==
            if Contributes(box, ids, reply) && box.endpoint == e
            then FillGroup(GroupOf(idx, e), ids, reply.rows, |ids|) else GroupOf(idx, e)
  {
    if Contributes(box, ids, reply) && box.endpoint != e {
      PutOther(idx, box.endpoint, FillGroup(GroupOf(idx, box.endpoint), ids, reply.rows, |ids|), e);
    }
  }

  /**
   * An endpoint is in the index exactly when some box of that endpoint had a key, some
   * stash ids and an answer: boxes without a key or ids, and boxes whose query failed, add
   * nothing, and the other boxes are still processed.
   */
  lemma {:induction false} IndexEndpoints(boxes: seq<StashBox>, m: StashMap, order: seq<string>,
                                          replies: seq<Response<seq<Scene>>>, n: nat, e: string)
    requires n <= |boxes|
    ensures e in Keys(IndexOf(boxes, m, order, replies, n)) <==> Contributed(boxes, m, order, replies, n, e)
  {
    if n > 0 {
      IndexEndpoints(boxes, m, order, replies, n - 1, e);
      var prev := IndexOf(boxes, m, order, replies, n - 1);
      var box := boxes[n - 1];
      var ids := StashIdsFor(m, order, box.endpoint);
      var reply := ReplyAt(replies, n - 1);
      if Contributes(box, ids, reply) {
        PutKeys(prev, box.endpoint, FillGroup(GroupOf(prev, box.endpoint), ids, reply.rows, |ids|));
      }
      if Contributed(boxes, m, order, replies, n, e) && !Contributed(boxes, m, order, replies, n - 1, e) {
        assert boxes[n - 1].endpoint == e;
      }
    }
  }

  /** The group of endpoint `e` after the first `n` boxes. */
  function GroupAfter(boxes: seq<StashBox>, m: StashMap, order: seq<string>,
                      replies: seq<Response<seq<Scene>>>, n: nat, e: string): Group
    requires n <= |boxes|
  {
    if n == 0 then []
    else
      var g := GroupAfter(boxes, m, order, replies, n - 1, e);
      var ids := StashIdsFor(m, order, e);
      var reply := ReplyAt(replies, n - 1);
      if boxes[n - 1].endpoint == e && Contributes(boxes[n - 1], ids, reply)
      then FillGroup(g, ids, reply.rows, |ids|) else g
  }

  lemma {:induction false} GroupOfIndex(boxes: seq<StashBox>, m: StashMap, order: seq<string>,
                                        replies: seq<Response<seq<Scene>>>, n: nat, e: string)
    requires n <= |boxes|
    ensures GroupOf(IndexOf(boxes, m, order, replies, n), e) == GroupAfter(boxes, m, order, replies, n, e)
  {
    if n > 0 {
      GroupOfIndex(boxes, m, order, replies, n - 1, e);
      var box := boxes[n - 1];
      GroupAfterStep(IndexOf(boxes, m, order, replies, n - 1), box,
                     StashIdsFor(m, order, box.endpoint), ReplyAt(replies, n - 1), e);
    }
  }

  lemma {:induction false} GroupAfterKeys(boxes: seq<StashBox>, m: StashMap, order: seq<string>,
                                          replies: seq<Response<seq<Scene>>>, n: nat, e: string, s: string)
    requires n <= |boxes|
    ensures s in Keys(GroupAfter(boxes, m, order, replies, n, e)) <==>
            s in StashIdsFor(m, order, e) && Contributed(boxes, m, order, replies, n, e)
  {
    if n > 0 {
      var ids := StashIdsFor(m, order, e);
      var g := GroupAfter(boxes, m, order, replies, n - 1, e);
      GroupAfterKeys(boxes, m, order, replies, n - 1, e, s);
      if boxes[n - 1].endpoint == e && Contributes(boxes[n - 1], ids, ReplyAt(replies, n - 1)) {
        FillGroupKeys(g, ids, ReplyAt(replies, n - 1).rows, |ids|, s);
        assert ids[..|ids|] == ids;
        assert Contributed(boxes, m, order, replies, n, e);
      } else if Contributed(boxes, m, order, replies, n, e) {
        var k :| 0 <= k < n && boxes[k].endpoint == e &&
                 Contributes(boxes[k], StashIdsFor(m, order, e), ReplyAt(replies, k));
        assert Contributed(boxes, m, order, replies, n - 1, e);
      }
    }
  }

  /**
   * A stash id has an entry under an endpoint exactly when it was collected for that
   * endpoint and some box of that endpoint contributed.
   */
  lemma IndexStashIds(boxes: seq<StashBox>, m: StashMap, order: seq<string>,
                      replies: seq<Response<seq<Scene>>>, n: nat, e: string, s: string)
    requires n <= |boxes|
    ensures s in Keys(GroupOf(IndexOf(boxes, m, order, replies, n), e)) <==>
            s in StashIdsFor(m, order, e) && Contributed(boxes, m, order, replies, n, e)
  {
    GroupOfIndex(boxes, m, order, replies, n, e);
    GroupAfterKeys(boxes, m, order, replies, n, e, s);
  }

  lemma {:induction false} GroupAfterScenes(boxes: seq<StashBox>, m: StashMap, order: seq<string>,
                                            replies: seq<Response<seq<Scene>>>, n: nat,
                                            e: string, s: string, v: seq<Scene>)
      returns (k: nat, j: nat)
    requires n <= |boxes|
    requires Get(GroupAfter(boxes, m, order, replies, n, e), s) == Some(v)
    ensures k < n && StoredBy(boxes, m, order, replies, k, j, e, s, v)
  {
    if n == 0 {
      assert false;
    } else {
      var ids := StashIdsFor(m, order, e);
      var reply := ReplyAt(replies, n - 1);
      var g := GroupAfter(boxes, m, order, replies, n - 1, e);
      if boxes[n - 1].endpoint == e && Contributes(boxes[n - 1], ids, reply) {
        FillGroupValues(g, ids, reply.rows, |ids|, s, v);
        if Get(g, s) == Some(v) {
          k, j := GroupAfterScenes(boxes, m, order, replies, n - 1, e, s, v);
        } else {
          k := n - 1;
          j :| 0 <= j < |ids| && ids[j] == s && v == RowOr(reply.rows, j);
        }
      } else {
        k, j := GroupAfterScenes(boxes, m, order, replies, n - 1, e, s, v);
      }
    }
  }

  /**
   * The scenes stored for a stash id are the row returned for one of its aliases (or `[]`),
   * by a box of that endpoint that contributed.
   */
  lemma IndexScenes(boxes: seq<StashBox>, m: StashMap, order: seq<string>,
                    replies: seq<Response<seq<Scene>>>, n: nat, e: string, s: string, v: seq<Scene>)
      returns (k: nat, j: nat)
    requires n <= |boxes|
    requires Get(GroupOf(IndexOf(boxes, m, order, replies, n), e), s) == Some(v)
    ensures k < n && StoredBy(boxes, m, order, replies, k, j, e, s, v)
  {
    GroupOfIndex(boxes, m, order, replies, n, e);
    k, j := GroupAfterScenes(boxes, m, order, replies, n, e, s, v);
  }
}
