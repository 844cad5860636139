/**
 * Tag handling in the right-click plugin (stashRightClickPerformers.js): the duplicate-free
 * union `Array.from(new Set([...a, ...b]))` of tag ids, used both when applying tags and when
 * adding them to a performer, and the selection of the ten most recently updated tags.
 */
module Tags {
  import opened Wrappers
  import opened JsObject

  /**
   * `Array.from(new Set(s))`: each element once, at the place of its first occurrence. Defined
   * from the back: the last element is appended unless it occurred earlier.
   */
  function Dedup(s: seq<string>): (r: seq<string>)
    ensures forall x :: x in r <==> x in s
    ensures forall i, j :: 0 <= i < j < |r| ==> r[i] != r[j]
    ensures |r| <= |s|
  {
    if s == [] then []
    else
      var d := Dedup(s[..|s| - 1]);
      var last := s[|s| - 1];
      if last in d then d else d + [last]
  }

  /** `new Set([...a, ...b])`, as an array. */
  function TagUnion(a: seq<string>, b: seq<string>): seq<string> {
    Dedup(a + b)
  }

  /** Extending the input only appends to the result. */
  lemma {:induction false} DedupPrefix(a: seq<string>, b: seq<string>)
    ensures Dedup(a) <= Dedup(a + b)
    decreases |b|
  {
    if b != [] {
      var b' := b[..|b| - 1];
      assert (a + b)[..|a + b| - 1] == a + b';
      DedupPrefix(a, b');
    } else {
      assert a + b == a;
    }
  }

  /** A list that has no duplicates is its own `Set`. */
  lemma {:induction false} DedupDistinct(s: seq<string>)
    requires forall i, j :: 0 <= i < j < |s| ==> s[i] != s[j]
    ensures Dedup(s) == s
  {
    if s != [] {
      var init := s[..|s| - 1];
      DedupDistinct(init);
      assert s[|s| - 1] !in init;
      assert s == init + [s[|s| - 1]];
    }
  }

  /** The position of the first occurrence of `x`. */
  function FirstIndex(s: seq<string>, x: string): (i: nat)
    requires x in s
    ensures i < |s| && s[i] == x && x !in s[..i]
  {
    if s[0] == x then 0 else 1 + FirstIndex(s[1..], x)
  }

  lemma {:induction false} FirstIndexAppend(s: seq<string>, y: string, x: string)
    requires x in s
    ensures FirstIndex(s + [y], x) == FirstIndex(s, x)
  {
    if s[0] != x {
      assert (s + [y])[1..] == s[1..] + [y];
      FirstIndexAppend(s[1..], y, x);
    }
  }

  /** Each element is kept at its first occurrence: the result lists them in that order. */
  lemma {:induction false} DedupFirstOccurrence(s: seq<string>)
    ensures forall i, j :: 0 <= i < j < |Dedup(s)| ==>
              FirstIndex(s, Dedup(s)[i]) < FirstIndex(s, Dedup(s)[j])
  {
    if s != [] {
      var init := s[..|s| - 1];
      var last := s[|s| - 1];
      var d := Dedup(init);
      DedupFirstOccurrence(init);
      assert s == init + [last];
      forall x | x in init ensures FirstIndex(s, x) == FirstIndex(init, x) && FirstIndex(s, x) < |init| {
        FirstIndexAppend(init, last, x);
      }
      if last !in d {
        assert FirstIndex(s, last) == |init| by {
          assert last !in init;
          assert s[..|init|] == init;
        }
      }
    }
  }

  /**
   * The tag union: every existing and every new id, none twice; a duplicate-free existing list
   * comes first unchanged, followed by the new ids it did not hold.
   */
  lemma TagUnionContents(existing: seq<string>, newIds: seq<string>)
    ensures forall x :: x in TagUnion(existing, newIds) <==> x in existing || x in newIds
    ensures forall i, j :: 0 <= i < j < |TagUnion(existing, newIds)| ==>
              TagUnion(existing, newIds)[i] != TagUnion(existing, newIds)[j]
    ensures Dedup(existing) <= TagUnion(existing, newIds)
    ensures (forall i, j :: 0 <= i < j < |existing| ==> existing[i] != existing[j]) ==>
              existing <= TagUnion(existing, newIds)
  {
    DedupPrefix(existing, newIds);
    if forall i, j :: 0 <= i < j < |existing| ==> existing[i] != existing[j] {
      DedupDistinct(existing);
    }
  }

  /** What clicking "Apply" does with the selected table rows and recent tags. */
  datatype ApplyAction = Submit(tagIds: seq<string>) | AskForSelection

  /** The apply handler: the union is submitted when it is not empty. */
  function ApplyTags(selectedIds: seq<string>, selectedRecent: seq<string>): (a: ApplyAction)
    ensures a.Submit? <==> selectedIds + selectedRecent != []
    ensures a.Submit? ==> a.tagIds == TagUnion(selectedIds, selectedRecent)
  {
    var combined := TagUnion(selectedIds, selectedRecent);
    assert selectedIds + selectedRecent != [] ==> (selectedIds + selectedRecent)[0] in combined;
    if |combined| > 0 then Submit(combined) else AskForSelection
  }

  /** `addTagsToPerformer`: the performer's existing tag ids with the new ones added. */
  function AddTagsToPerformer(existing: seq<string>, newIds: seq<string>): seq<string> {
    TagUnion(existing, newIds)
  }

  /** Adding tags never removes one and never repeats one. */
  lemma AddTagsKeepsExisting(existing: seq<string>, newIds: seq<string>, x: string)
    requires x in existing || x in newIds
    ensures x in AddTagsToPerformer(existing, newIds)
    ensures multiset(AddTagsToPerformer(existing, newIds))[x] == 1
  {
    var r := AddTagsToPerformer(existing, newIds);
    assert x in r;
    var i :| 0 <= i < |r| && r[i] == x;
    assert r == r[..i] + [x] + r[i + 1..];
    assert x !in r[..i] && x !in r[i + 1..];
  }

  /** A tag as the recent-tags query returns it; `updated_at` abstracted to an integer time. */
  datatype Tag = Tag(id: string, name: string, updatedAt: int)

  /** `performers.flatMap(performer => performer.tags)`. */
  function Flatten(tagLists: seq<seq<Tag>>): seq<Tag> {
    if tagLists == [] then [] else tagLists[0] + Flatten(tagLists[1..])
  }

  /** The ids of a list of tags, in order. */
  function Ids(tags: seq<Tag>): (r: seq<string>)
    ensures |r| == |tags| && forall i :: 0 <= i < |tags| ==> r[i] == tags[i].id
  {
    if tags == [] then [] else Ids(tags[..|tags| - 1]) + [tags[|tags| - 1].id]
  }

  /** The tag at `i` is the first one with its id. */
  ghost predicate FirstOfItsId(tags: seq<Tag>, i: nat) {
    i < |tags| && forall j :: 0 <= j < i ==> tags[j].id != tags[i].id
  }

  /** Reference definition: the tags whose id did not occur earlier, in list order. */
  function FirstTags(tags: seq<Tag>): seq<Tag> {
    if tags == [] then []
    else
      var init := tags[..|tags| - 1];
      var tag := tags[|tags| - 1];
      if tag.id in Ids(init) then FirstTags(init) else FirstTags(init) + [tag]
  }

  /** The ids of the first tags are the duplicate-free ids. */
  lemma {:induction false} FirstTagsIds(tags: seq<Tag>)
    ensures Ids(FirstTags(tags)) == Dedup(Ids(tags))
  {
    if tags != [] {
      var init := tags[..|tags| - 1];
      var tag := tags[|tags| - 1];
      FirstTagsIds(init);
      assert Ids(tags) == Ids(init) + [tag.id];
      assert Ids(tags)[..|tags| - 1] == Ids(init);
      if tag.id !in Ids(init) {
        assert Ids(FirstTags(init) + [tag]) == Ids(FirstTags(init)) + [tag.id];
      }
    }
  }

  /** The tag is the first of its id somewhere in the list. */
  ghost predicate IsFirstTag(tags: seq<Tag>, t: Tag) {
    exists i: nat :: FirstOfItsId(tags, i) && tags[i] == t
  }

  /** No two tags share an id. */
  ghost predicate DistinctIds(tags: seq<Tag>) {
    forall i, j :: 0 <= i < j < |tags| ==> tags[i].id != tags[j].id
  }

  /** The first tags have distinct ids. */
  lemma FirstTagsDistinct(tags: seq<Tag>)
    ensures DistinctIds(FirstTags(tags))
  {
    var r := FirstTags(tags);
    FirstTagsIds(tags);
    forall i, j | 0 <= i < j < |r| ensures r[i].id != r[j].id {
      assert Ids(r)[i] == r[i].id && Ids(r)[j] == r[j].id;
    }
  }

  /** The first tags are exactly the tags that are the first of their id. */
  lemma {:induction false} FirstTagsMembers(tags: seq<Tag>)
    ensures forall t :: t in FirstTags(tags) <==> IsFirstTag(tags, t)
  {
    if tags != [] {
      var init := tags[..|tags| - 1];
      var tag := tags[|tags| - 1];
      FirstTagsMembers(init);
      var first := FirstOfItsId(tags, |init|);
      assert first <==> tag.id !in Ids(init) by {
        if tag.id in Ids(init) {
          var j :| 0 <= j < |init| && Ids(init)[j] == tag.id;
          assert tags[j].id == tag.id;
        } else {
          forall j | 0 <= j < |init| ensures tags[j].id != tag.id {
            assert Ids(init)[j] == init[j].id;
          }
        }
      }
      forall t ensures t in FirstTags(tags) <==> IsFirstTag(tags, t) {
        if t in FirstTags(tags) {
          if t in FirstTags(init) {
            var i: nat :| FirstOfItsId(init, i) && init[i] == t;
            FirstOfItsIdInit(tags, i);
          } else {
            assert first && t == tag;
            assert FirstOfItsId(tags, |init|) && tags[|init|] == t;
          }
        }
        if IsFirstTag(tags, t) {
          var i: nat :| FirstOfItsId(tags, i) && tags[i] == t;
          if i < |init| {
            FirstOfItsIdInit(tags, i);
            assert FirstOfItsId(init, i) && init[i] == t;
          } else {
            assert i == |init| && first;
          }
        }
      }
    }
  }

  /** Dropping the last tag changes no earlier tag's status. */
  lemma FirstOfItsIdInit(tags: seq<Tag>, i: nat)
    requires i < |tags| - 1
    ensures FirstOfItsId(tags, i) <==> FirstOfItsId(tags[..|tags| - 1], i)
    ensures tags[i] == tags[..|tags| - 1][i]
  {
  }

  /** `uniqueTags` after the tags of `tags` were visited: a tag is stored under its id unless one is. */
  function ByFirstId(tags: seq<Tag>): Obj<Tag> {
    if tags == [] then []
    else
      var u := ByFirstId(tags[..|tags| - 1]);
      var tag := tags[|tags| - 1];
      if Get(u, tag.id).None? then Put(u, tag.id, tag) else u
  }

  /**
   * The `uniqueTags` object holds each id once, in order of first occurrence, and
   * `Object.values` of it are the first tags of their ids.
   */
  lemma {:induction false} ByFirstIdIsFirstTags(tags: seq<Tag>)
    ensures Keys(ByFirstId(tags)) == Dedup(Ids(tags))
    ensures Values(ByFirstId(tags)) == FirstTags(tags)
  {
    if tags != [] {
      var init := tags[..|tags| - 1];
      var tag := tags[|tags| - 1];
      var u := ByFirstId(init);
      ByFirstIdIsFirstTags(init);
      GetKeys(u, tag.id);
      assert Ids(tags) == Ids(init) + [tag.id];
      assert Ids(tags)[..|tags| - 1] == Ids(init);
      if Get(u, tag.id).None? {
        PutNew(u, tag.id, tag);
        KeysAppend(u, Entry(tag.id, tag));
      }
    }
  }

  /**
   * The `forEach` over the flattened tags that fills `uniqueTags`; `!uniqueTags[tag.id]` holds
   * exactly when no tag is stored under the id, a stored tag object being truthy.
   */
  method UniqueTags(tags: seq<Tag>) returns (uniqueTags: Obj<Tag>)
    ensures uniqueTags == ByFirstId(tags)
  {
    uniqueTags := [];
    for i := 0 to |tags|
      invariant uniqueTags == ByFirstId(tags[..i])
    {
      var tag := tags[i];
      assert tags[..i + 1][..i] == tags[..i];
      if Get(uniqueTags, tag.id).None? {
        uniqueTags := Put(uniqueTags, tag.id, tag);
      }
    }
    assert tags[..|tags|] == tags;
  }

  /** Non-increasing `updated_at`. */
  ghost predicate SortedByDate(tags: seq<Tag>) {
    forall i, j :: 0 <= i < j < |tags| ==> tags[i].updatedAt >= tags[j].updatedAt
  }

  /** Inserts `t` after every tag updated no earlier than it. */
  function Insert(tags: seq<Tag>, t: Tag): (r: seq<Tag>)
    ensures multiset(r) == multiset(tags) + multiset{t}
  {
    if tags == [] then [t]
    else if tags[0].updatedAt >= t.updatedAt then
      assert tags == [tags[0]] + tags[1..];
      [tags[0]] + Insert(tags[1..], t)
    else
      [t] + tags
  }

  /** No tag in `tags` was updated after `d`. */
  ghost predicate AtMost(tags: seq<Tag>, d: int) {
    forall k :: 0 <= k < |tags| ==> tags[k].updatedAt <= d
  }

  lemma {:induction false} InsertAtMost(tags: seq<Tag>, t: Tag, d: int)
    requires AtMost(tags, d) && t.updatedAt <= d
    ensures AtMost(Insert(tags, t), d)
  {
    var r := Insert(tags, t);
    if tags != [] && tags[0].updatedAt >= t.updatedAt {
      var rest := Insert(tags[1..], t);
      assert AtMost(tags[1..], d) by {
        forall k | 0 <= k < |tags[1..]| ensures tags[1..][k].updatedAt <= d {
          assert tags[1..][k] == tags[k + 1];
        }
      }
      InsertAtMost(tags[1..], t, d);
      assert r == [tags[0]] + rest;
      forall k | 0 <= k < |r| ensures r[k].updatedAt <= d {
        if k > 0 {
          assert r[k] == rest[k - 1];
        }
      }
    } else if tags != [] {
      assert r == [t] + tags;
      forall k | 0 <= k < |r| ensures r[k].updatedAt <= d {
        if k > 0 {
          assert r[k] == tags[k - 1];
        }
      }
    }
  }

  lemma {:induction false} InsertSorted(tags: seq<Tag>, t: Tag)
    requires SortedByDate(tags)
    ensures SortedByDate(Insert(tags, t))
  {
    if tags != [] && tags[0].updatedAt >= t.updatedAt {
      var rest := Insert(tags[1..], t);
      var r := [tags[0]] + rest;
      var d := tags[0].updatedAt;
      assert SortedByDate(tags[1..]) && AtMost(tags[1..], d) by {
        forall k | 0 <= k < |tags[1..]| ensures tags[1..][k] == tags[k + 1] {
        }
      }
      InsertSorted(tags[1..], t);
      InsertAtMost(tags[1..], t, d);
      forall i, j | 0 <= i < j < |r| ensures r[i].updatedAt >= r[j].updatedAt {
        assert r[j] == rest[j - 1];
        if i > 0 {
          assert r[i] == rest[i - 1];
        }
      }
    } else if tags != [] {
      var r := [t] + tags;
      forall i, j | 0 <= i < j < |r| ensures r[i].updatedAt >= r[j].updatedAt {
        assert r[j] == tags[j - 1];
        if i > 0 {
          assert r[i] == tags[i - 1];
        }
      }
    }
  }

  /**
   * `.sort((a, b) => new Date(b.updated_at) - new Date(a.updated_at))`: the same tags, most
   * recently updated first (tags updated at the same time keep their order).
   */
  function SortByDate(tags: seq<Tag>): (r: seq<Tag>)
    ensures multiset(r) == multiset(tags)
    ensures SortedByDate(r)
  {
    if tags == [] then []
    else
      var init := tags[..|tags| - 1];
      assert tags == init + [tags[|tags| - 1]];
      InsertSorted(SortByDate(init), tags[|tags| - 1]);
      Insert(SortByDate(init), tags[|tags| - 1])
  }

  lemma {:induction false} InsertDistinct(tags: seq<Tag>, t: Tag)
    requires DistinctIds(tags) && forall y :: y in tags ==> y.id != t.id
    ensures DistinctIds(Insert(tags, t))
  {
    if tags != [] && tags[0].updatedAt >= t.updatedAt {
      var rest := Insert(tags[1..], t);
      InsertDistinct(tags[1..], t);
      forall y | y in rest ensures y.id != tags[0].id {
        assert y in multiset(rest);
        if y != t {
          var k :| 0 <= k < |tags[1..]| && tags[1..][k] == y;
          assert tags[k + 1] == y;
        }
      }
    }
  }

  /** Sorting keeps the ids distinct. */
  lemma {:induction false} SortDistinct(tags: seq<Tag>)
    requires DistinctIds(tags)
    ensures DistinctIds(SortByDate(tags))
  {
    if tags != [] {
      var init := tags[..|tags| - 1];
      var last := tags[|tags| - 1];
      SortDistinct(init);
      forall y | y in SortByDate(init) ensures y.id != last.id {
        assert y in multiset(SortByDate(init));
        var k :| 0 <= k < |init| && init[k] == y;
      }
      InsertDistinct(SortByDate(init), last);
    }
  }

  /** How many recent tags are offered. */
  const RecentTagCount: nat := 10

  /** `.slice(0, 10)`. */
  function TakeRecent(sorted: seq<Tag>): seq<Tag> {
    sorted[..if |sorted| < RecentTagCount then |sorted| else RecentTagCount]
  }

  /** A tag stored in `uniqueTags` sits under its own id and is the first tag of that id. */
  lemma {:induction false} ByFirstIdStored(tags: seq<Tag>, k: string)
    requires Get(ByFirstId(tags), k).Some?
    ensures Get(ByFirstId(tags), k).value.id == k
    ensures Get(ByFirstId(tags), k).value in FirstTags(tags)
  {
    if tags != [] {
      var init := tags[..|tags| - 1];
      var tag := tags[|tags| - 1];
      var u := ByFirstId(init);
      ByFirstIdIsFirstTags(init);
      GetKeys(u, tag.id);
      if Get(u, tag.id).Some? {
        ByFirstIdStored(init, k);
      } else if k != tag.id {
        PutOther(u, tag.id, tag, k);
        ByFirstIdStored(init, k);
      }
    }
  }

  /** Every first tag is stored in `uniqueTags` under its id. */
  lemma {:induction false} ByFirstIdFinds(tags: seq<Tag>, t: Tag)
    requires t in FirstTags(tags)
    ensures Get(ByFirstId(tags), t.id) == Some(t)
  {
    var init := tags[..|tags| - 1];
    var tag := tags[|tags| - 1];
    var u := ByFirstId(init);
    ByFirstIdIsFirstTags(init);
    GetKeys(u, tag.id);
    if t in FirstTags(init) {
      ByFirstIdFinds(init, t);
      if Get(u, tag.id).None? {
        PutOther(u, tag.id, tag, t.id);
      }
    }
  }

  /**
   * `order` visits every key of `o` exactly once: an order in which `Object.values(o)` may list
   * the values. JavaScript lists integer-like keys in ascending numeric order ahead of the
   * others, which keep their insertion order, so the order depends on what the ids look like.
   */
  ghost predicate IsKeyOrder(order: seq<string>, o: Obj<Tag>) {
    && (forall k :: k in order <==> k in Keys(o))
    && (forall i, j :: 0 <= i < j < |order| ==> order[i] != order[j])
  }

  /** `Object.values(o)` when the keys are visited in `order`. */
  function ValuesIn(o: Obj<Tag>, order: seq<string>): (r: seq<Tag>)
    requires forall k :: k in order ==> k in Keys(o)
    ensures |r| == |order|
    ensures forall i :: 0 <= i < |order| ==> Get(o, order[i]) == Some(r[i])
  {
    if order == [] then []
    else
      var k := order[|order| - 1];
      GetKeys(o, k);
      ValuesIn(o, order[..|order| - 1]) + [Get(o, k).value]
  }

  /** A list of distinct keys is as long as the set of its keys. */
  lemma {:induction false} DistinctCount(s: seq<string>)
    requires forall i, j :: 0 <= i < j < |s| ==> s[i] != s[j]
    ensures |set k | k in s| == |s|
  {
    if s != [] {
      var init := s[..|s| - 1];
      DistinctCount(init);
      forall j | 0 <= j < |init| ensures init[j] != s[|s| - 1] {
        assert init[j] == s[j];
      }
      assert (set k | k in s) == (set k | k in init) + {s[|s| - 1]};
    }
  }

  /**
   * Whatever the order the keys are visited in, `Object.values(uniqueTags)` lists the first
   * tags of their ids, each exactly once.
   */
  lemma ValuesInFirstTags(tags: seq<Tag>, order: seq<string>)
    requires IsKeyOrder(order, ByFirstId(tags))
    ensures var v := ValuesIn(ByFirstId(tags), order);
            && |v| == |FirstTags(tags)|
            && DistinctIds(v)
            && (forall t :: t in v <==> t in FirstTags(tags))
  {
    ValuesInStored(tags, order);
    ValuesInComplete(tags, order);
    KeyOrderLength(tags, order);
  }

  /** Each listed value is a first tag, under its own id; so the ids follow `order`. */
  lemma ValuesInStored(tags: seq<Tag>, order: seq<string>)
    requires IsKeyOrder(order, ByFirstId(tags))
    ensures var v := ValuesIn(ByFirstId(tags), order);
            DistinctIds(v) && forall t :: t in v ==> t in FirstTags(tags)
  {
    var v := ValuesIn(ByFirstId(tags), order);
    forall i | 0 <= i < |v| ensures v[i].id == order[i] && v[i] in FirstTags(tags) {
      ByFirstIdStored(tags, order[i]);
    }
  }

  /** Every first tag is listed. */
  lemma ValuesInComplete(tags: seq<Tag>, order: seq<string>)
    requires IsKeyOrder(order, ByFirstId(tags))
    ensures forall t :: t in FirstTags(tags) ==> t in ValuesIn(ByFirstId(tags), order)
  {
    var o := ByFirstId(tags);
    var v := ValuesIn(o, order);
    forall t | t in FirstTags(tags) ensures t in v {
      ByFirstIdFinds(tags, t);
      GetKeys(o, t.id);
      var i :| 0 <= i < |order| && order[i] == t.id;
      assert Get(o, order[i]) == Some(v[i]);
    }
  }

  /** An enumeration order has one key per first tag. */
  lemma KeyOrderLength(tags: seq<Tag>, order: seq<string>)
    requires IsKeyOrder(order, ByFirstId(tags))
    ensures |order| == |FirstTags(tags)|
  {
    var keys := Keys(ByFirstId(tags));
    ByFirstIdIsFirstTags(tags);
    FirstTagsIds(tags);
    assert |keys| == |FirstTags(tags)|;
    DistinctCount(order);
    DistinctCount(keys);
    assert (set k | k in order) == (set k | k in keys);
  }

  /** Visiting the ids in order of first occurrence lists the first tags in list order. */
  lemma FirstSeenOrder(tags: seq<Tag>)
    ensures IsKeyOrder(Ids(FirstTags(tags)), ByFirstId(tags))
    ensures ValuesIn(ByFirstId(tags), Ids(FirstTags(tags))) == FirstTags(tags)
  {
    ByFirstIdIsFirstTags(tags);
    FirstTagsIds(tags);
    var f := FirstTags(tags);
    var v := ValuesIn(ByFirstId(tags), Ids(f));
    forall i | 0 <= i < |f| ensures v[i] == f[i] {
      ByFirstIdFinds(tags, f[i]);
    }
  }

  /**
   * The recent tags offered for the performers' tag lists when `Object.values(uniqueTags)`
   * visits the ids in `order`: the first tags of their ids, sorted, the first ten.
   */
  function RecentTagsOf(performerTags: seq<seq<Tag>>, order: seq<string>): seq<Tag>
    requires IsKeyOrder(order, ByFirstId(Flatten(performerTags)))
  {
    TakeRecent(SortByDate(ValuesIn(ByFirstId(Flatten(performerTags)), order)))
  }

  /**
   * `fetchRecentTags`' selection, from the performers' tag lists to the tags shown; `order` is
   * the order in which the engine enumerates the keys of `uniqueTags`.
   */
  method RecentTags(performerTags: seq<seq<Tag>>, order: seq<string>) returns (recent: seq<Tag>)
    requires IsKeyOrder(order, ByFirstId(Flatten(performerTags)))
    ensures recent == RecentTagsOf(performerTags, order)
  {
    var uniqueTags := UniqueTags(Flatten(performerTags));
    var sortedTags := SortByDate(ValuesIn(uniqueTags, order));
    recent := sortedTags[..if |sortedTags| < RecentTagCount then |sortedTags| else RecentTagCount];
    assert recent == TakeRecent(sortedTags);
  }

  /** Sorting keeps the length, and the first ten are ten unless there are fewer. */
  lemma TakeRecentSize(u: seq<Tag>)
    ensures |TakeRecent(SortByDate(u))| == (if |u| < RecentTagCount then |u| else RecentTagCount)
  {
    var sorted := SortByDate(u);
    assert |multiset(sorted)| == |multiset(u)|;
  }

  /** The first ten of a sorted list are sorted, and distinct when the list is. */
  lemma TakeRecentSorted(u: seq<Tag>)
    ensures SortedByDate(TakeRecent(SortByDate(u)))
    ensures DistinctIds(u) ==> DistinctIds(TakeRecent(SortByDate(u)))
  {
    var sorted := SortByDate(u);
    if DistinctIds(u) {
      SortDistinct(u);
    }
    PrefixOrdered(sorted, |TakeRecent(sorted)|);
  }

  lemma PrefixOrdered(tags: seq<Tag>, m: nat)
    requires m <= |tags|
    ensures SortedByDate(tags) ==> SortedByDate(tags[..m])
    ensures DistinctIds(tags) ==> DistinctIds(tags[..m])
  {
  }

  /** The first ten are taken from the list. */
  lemma TakeRecentFrom(u: seq<Tag>)
    ensures forall t :: t in TakeRecent(SortByDate(u)) ==> t in u
  {
    var sorted := SortByDate(u);
    forall t | t in TakeRecent(sorted) ensures t in u {
      assert t in sorted;
      assert t in multiset(sorted);
    }
  }

  /** No tag left out of the first ten was updated later than one of them. */
  lemma TakeRecentIsMostRecent(u: seq<Tag>)
    ensures var r := TakeRecent(SortByDate(u));
            forall t, k :: t in u && t !in r && 0 <= k < |r| ==> r[k].updatedAt >= t.updatedAt
  {
    var sorted := SortByDate(u);
    forall t | t in u ensures t in sorted {
      assert t in multiset(u);
    }
    PrefixDominates(sorted, |TakeRecent(sorted)|);
  }

  lemma PrefixDominates(sorted: seq<Tag>, m: nat)
    requires SortedByDate(sorted) && m <= |sorted|
    ensures forall t, k :: t in sorted && t !in sorted[..m] && 0 <= k < m ==> sorted[k].updatedAt >= t.updatedAt
  {
    forall t, k | t in sorted && t !in sorted[..m] && 0 <= k < m ensures sorted[k].updatedAt >= t.updatedAt {
      var p :| 0 <= p < |sorted| && sorted[p] == t;
      assert p >= m;
    }
  }

  /**
   * The recent tags, whatever order the ids are enumerated in: at most ten (exactly ten when
   * there are that many), ids pairwise distinct, most recent first, each the first tag of its id
   * in the performers' lists; and no first tag left out was updated later than one shown.
   */
  lemma RecentTagsProperties(performerTags: seq<seq<Tag>>, order: seq<string>)
    requires IsKeyOrder(order, ByFirstId(Flatten(performerTags)))
    ensures var r := RecentTagsOf(performerTags, order);
            var flat := Flatten(performerTags);
            var u := FirstTags(flat);
            && |r| <= RecentTagCount
            && |r| == (if |u| < RecentTagCount then |u| else RecentTagCount)
            && DistinctIds(r)
            && SortedByDate(r)
            && (forall t :: t in r ==> IsFirstTag(flat, t))
            && (forall t, k :: t in u && t !in r && 0 <= k < |r| ==> r[k].updatedAt >= t.updatedAt)
  {
    var flat := Flatten(performerTags);
    var v := ValuesIn(ByFirstId(flat), order);
    ValuesInFirstTags(flat, order);
    FirstTagsMembers(flat);
    TakeRecentSize(v);
    TakeRecentSorted(v);
    TakeRecentFrom(v);
    TakeRecentIsMostRecent(v);
  }
}
