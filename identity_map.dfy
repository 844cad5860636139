/**
 * `getPerformerStashIDs` (stashNewPerformerScenes.js): one batched query for the stash ids
 * of many local performers, folded into `{ performerId: { endpoint: stash_id } }` without
 * ThePornDB.
 */
module IdentityMap {
  import opened Wrappers
  import opened Stash

  /** performer id -> endpoint -> stash id. */
  type StashMap = map<string, map<string, string>>

  /** One assignment `performerStashMap[performer][endpoint] = stashId` of the nested loop. */
  datatype Write = Write(performer: string, endpoint: string, stashId: string)

  /** The assignments caused by the first `n` stash ids of one alias: ThePornDB's are skipped. */
  function AliasWrites(performer: string, entries: seq<StashIdEntry>, n: nat): seq<Write>
    requires n <= |entries|
  {
    if n == 0 then []
    else
      var e := entries[n - 1];
      AliasWrites(performer, entries, n - 1) +
        (if e.endpoint == TpdbEndpoint then [] else [Write(performer, e.endpoint, e.stashId)])
  }

  /** The assignments of the first `n` aliases, in the order the loops perform them. */
  function Writes(ids: seq<string>, rows: seq<Option<seq<StashIdEntry>>>, n: nat): seq<Write>
    requires n <= |ids|
  {
    if n == 0 then []
    else
      var entries := RowOr(rows, n - 1);
      Writes(ids, rows, n - 1) + AliasWrites(ids[n - 1], entries, |entries|)
  }

  /** One assignment, creating the performer's inner object when it is missing. */
  function Record(m: StashMap, w: Write): StashMap {
    var inner := if w.performer in m then m[w.performer] else map[];
    m[w.performer := inner[w.endpoint := w.stashId]]
  }

  function Apply(ws: seq<Write>): StashMap {
    if ws == [] then map[] else Record(Apply(ws[..|ws| - 1]), ws[|ws| - 1])
  }

  /** The map `getPerformerStashIDs` resolves to: `{}` for no ids and for a failed query. */
  function StashMapOf(ids: seq<string>, reply: Response<seq<StashIdEntry>>): StashMap {
    if ids == [] then map[]
    else match reply
      case Failed => map[]
      case Answered(rows) => Apply(Writes(ids, rows, |ids|))
  }

  /**
   * The nested `forEach` of `getPerformerStashIDs`. `reply` is what the one batched query
   * returns; `requests` counts the queries issued: none for an empty list, else exactly one.
   */
  method GetPerformerStashIds(performerIds: seq<string>, reply: Response<seq<StashIdEntry>>)
    returns (stashMap: StashMap, requests: nat)
    ensures requests == (if performerIds == [] then 0 else 1)
    ensures performerIds == [] || reply.Failed? ==> stashMap == map[]
    ensures stashMap == StashMapOf(performerIds, reply)
  {
    if |performerIds| == 0 {
      return map[], 0;
    }
    requests := 1;
    if reply.Failed? {
      return map[], requests;
    }
    stashMap := AddAllAliases(performerIds, reply.rows);
  }

  /** The outer `aliases.forEach`: the stash ids of every alias, in alias order. */
  method AddAllAliases(performerIds: seq<string>, rows: seq<Option<seq<StashIdEntry>>>)
    returns (stashMap: StashMap)
    ensures stashMap == Apply(Writes(performerIds, rows, |performerIds|))
  {
    stashMap := map[];
    for i := 0 to |performerIds|
      invariant stashMap == Apply(Writes(performerIds, rows, i))
    {
      stashMap := AddAliasStashIds(stashMap, performerIds, rows, i);
    }
  }

  /**
   * The inner `stashIds.forEach` for alias `i`: every stash id of its row but ThePornDB's is
   * recorded under `performerIds[i]`.
   */
  method AddAliasStashIds(m: StashMap, performerIds: seq<string>, rows: seq<Option<seq<StashIdEntry>>>, i: nat)
    returns (r: StashMap)
    requires i < |performerIds| && m == Apply(Writes(performerIds, rows, i))
    ensures r == Apply(Writes(performerIds, rows, i + 1))
  {
    var performer := performerIds[i];
    var entries := RowOr(rows, i);
    ghost var ws := Writes(performerIds, rows, i);
    r := m;
    assert ws + AliasWrites(performer, entries, 0) == ws;
    for j := 0 to |entries|
      invariant r == Apply(ws + AliasWrites(performer, entries, j))
    {
      var e := entries[j];
      ghost var done := ws + AliasWrites(performer, entries, j);
      if e.endpoint == TpdbEndpoint {
        AliasWritesSnoc(ws, performer, entries, j);
        assert done + [] == done;
        continue;
      }
      ghost var w := Write(performer, e.endpoint, e.stashId);
      AliasWritesSnoc(ws, performer, entries, j);
      ApplySnoc(done, w);
      var inner := if performer in r then r[performer] else map[];
      r := r[performer := inner[e.endpoint := e.stashId]];
    }
    assert Writes(performerIds, rows, i + 1) == ws + AliasWrites(performer, entries, |entries|);
  }

  lemma AliasWritesSnoc(ws: seq<Write>, performer: string, entries: seq<StashIdEntry>, j: nat)
    requires j < |entries|
    ensures var e := entries[j];
            ws + AliasWrites(performer, entries, j + 1) ==
            (ws + AliasWrites(performer, entries, j)) +
              (if e.endpoint == TpdbEndpoint then [] else [Write(performer, e.endpoint, e.stashId)])
  {
  }

  lemma ApplySnoc(ws: seq<Write>, w: Write)
    ensures Apply(ws + [w]) == Record(Apply(ws), w)
  {
    assert (ws + [w])[..|ws|] == ws;
  }

  /** A performer is a key exactly when some assignment was for it. */
  lemma {:induction false} ApplyDomain(ws: seq<Write>, p: string)
    ensures p in Apply(ws) <==> exists k :: 0 <= k < |ws| && ws[k].performer == p
  {
    if ws != [] {
      var init := ws[..|ws| - 1];
      ApplyDomain(init, p);
      if p in Apply(init) {
        var k :| 0 <= k < |init| && init[k].performer == p;
        assert ws[k] == init[k];
      }
      if exists k :: 0 <= k < |ws| && ws[k].performer == p {
        var k :| 0 <= k < |ws| && ws[k].performer == p;
        if k < |init| { assert init[k] == ws[k]; }
      }
    }
  }

  /** An endpoint is under a performer exactly when some assignment was for that pair. */
  lemma {:induction false} ApplyEndpoints(ws: seq<Write>, p: string, e: string)
    ensures (p in Apply(ws) && e in Apply(ws)[p]) <==>
            exists k :: 0 <= k < |ws| && ws[k].performer == p && ws[k].endpoint == e
  {
    if ws != [] {
      var init := ws[..|ws| - 1];
      ApplyEndpoints(init, p, e);
      if p in Apply(init) && e in Apply(init)[p] {
        var k :| 0 <= k < |init| && init[k].performer == p && init[k].endpoint == e;
        assert ws[k] == init[k];
      }
      if exists k :: 0 <= k < |ws| && ws[k].performer == p && ws[k].endpoint == e {
        var k :| 0 <= k < |ws| && ws[k].performer == p && ws[k].endpoint == e;
        if k < |init| { assert init[k] == ws[k]; }
      }
    }
  }

  /** A later assignment to the same performer and endpoint overwrites an earlier one. */
  lemma {:induction false} ApplyLastWriteWins(ws: seq<Write>, k: nat)
    requires k < |ws|
    requires forall k' :: k < k' < |ws| ==>
               !(ws[k'].performer == ws[k].performer && ws[k'].endpoint == ws[k].endpoint)
    ensures ws[k].performer in Apply(ws) && ws[k].endpoint in Apply(ws)[ws[k].performer]
    ensures Apply(ws)[ws[k].performer][ws[k].endpoint] == ws[k].stashId
  {
    var init := ws[..|ws| - 1];
    if k < |init| {
      forall k' | k < k' < |init|
        ensures !(init[k'].performer == init[k].performer && init[k'].endpoint == init[k].endpoint)
      {
        assert init[k'] == ws[k'];
      }
      ApplyLastWriteWins(init, k);
    }
  }

  /** Stash id `(w.endpoint, w.stashId)` is among the first `n` entries of a reply row. */
  ghost predicate InRow(entries: seq<StashIdEntry>, n: nat, w: Write)
    requires n <= |entries|
  {
    exists j :: 0 <= j < n && entries[j] == StashIdEntry(w.endpoint, w.stashId)
  }

  /** One of the first `n` requested performers is `w.performer` and its row holds `w`'s stash id. */
  ghost predicate Backed(ids: seq<string>, rows: seq<Option<seq<StashIdEntry>>>, n: nat, w: Write)
    requires n <= |ids|
  {
    exists i :: 0 <= i < n && ids[i] == w.performer && InRow(RowOr(rows, i), |RowOr(rows, i)|, w)
  }

  lemma InRowStep(entries: seq<StashIdEntry>, n: nat, w: Write)
    requires 0 < n <= |entries|
    ensures InRow(entries, n, w) <==>
            InRow(entries, n - 1, w) || entries[n - 1] == StashIdEntry(w.endpoint, w.stashId)
  {
    if InRow(entries, n, w) {
      var j :| 0 <= j < n && entries[j] == StashIdEntry(w.endpoint, w.stashId);
      if j < n - 1 {
        assert InRow(entries, n - 1, w);
      }
    }
    if InRow(entries, n - 1, w) {
      var j :| 0 <= j < n - 1 && entries[j] == StashIdEntry(w.endpoint, w.stashId);
      assert InRow(entries, n, w);
    }
    if entries[n - 1] == StashIdEntry(w.endpoint, w.stashId) {
      assert InRow(entries, n, w);
    }
  }

  lemma BackedStep(ids: seq<string>, rows: seq<Option<seq<StashIdEntry>>>, n: nat, w: Write)
    requires 0 < n <= |ids|
    ensures var entries := RowOr(rows, n - 1);
            Backed(ids, rows, n, w) <==>
            Backed(ids, rows, n - 1, w) || (ids[n - 1] == w.performer && InRow(entries, |entries|, w))
  {
    var entries := RowOr(rows, n - 1);
    if Backed(ids, rows, n, w) {
      var i :| 0 <= i < n && ids[i] == w.performer && InRow(RowOr(rows, i), |RowOr(rows, i)|, w);
      if i < n - 1 {
        assert Backed(ids, rows, n - 1, w);
      }
    }
    if Backed(ids, rows, n - 1, w) {
      var i :| 0 <= i < n - 1 && ids[i] == w.performer && InRow(RowOr(rows, i), |RowOr(rows, i)|, w);
      assert Backed(ids, rows, n, w);
    }
    if ids[n - 1] == w.performer && InRow(entries, |entries|, w) {
      assert Backed(ids, rows, n, w);
    }
  }

  lemma {:induction false} AliasWritesShape(performer: string, entries: seq<StashIdEntry>, n: nat, w: Write)
    requires n <= |entries|
    ensures w in AliasWrites(performer, entries, n) <==>
            w.performer == performer && w.endpoint != TpdbEndpoint && InRow(entries, n, w)
  {
    if n > 0 {
      AliasWritesShape(performer, entries, n - 1, w);
      InRowStep(entries, n, w);
      var e := entries[n - 1];
      if w == Write(performer, e.endpoint, e.stashId) {
        assert e == StashIdEntry(w.endpoint, w.stashId);
      }
    }
  }

  /** Every assignment comes from one non-ThePornDB stash id of one requested performer. */
  lemma {:induction false} WritesShape(ids: seq<string>, rows: seq<Option<seq<StashIdEntry>>>, n: nat, w: Write)
    requires n <= |ids|
    ensures w in Writes(ids, rows, n) <==> w.endpoint != TpdbEndpoint && Backed(ids, rows, n, w)
  {
    if n > 0 {
      var entries := RowOr(rows, n - 1);
      WritesShape(ids, rows, n - 1, w);
      AliasWritesShape(ids[n - 1], entries, |entries|, w);
      BackedStep(ids, rows, n, w);
    }
  }

  /**
   * The shape of the map: only requested performers, only those with at least one
   * non-ThePornDB stash id, never ThePornDB's endpoint, and every value is a stash id the
   * performer really has at that endpoint.
   */
  lemma StashMapShape(ids: seq<string>, reply: Response<seq<StashIdEntry>>, p: string)
    ensures var m := StashMapOf(ids, reply);
            p in m ==> p in ids && m[p] != map[] && TpdbEndpoint !in m[p] &&
                       forall e :: e in m[p] ==> Backed(ids, reply.rows, |ids|, Write(p, e, m[p][e]))
  {
    var m := StashMapOf(ids, reply);
    if p in m {
      var ws := Writes(ids, reply.rows, |ids|);
      assert m == Apply(ws);
      ApplyDomain(ws, p);
      var k :| 0 <= k < |ws| && ws[k].performer == p;
      WritesShape(ids, reply.rows, |ids|, ws[k]);
      var i :| 0 <= i < |ids| && ids[i] == p && InRow(RowOr(reply.rows, i), |RowOr(reply.rows, i)|, ws[k]);
      ApplyEndpoints(ws, p, ws[k].endpoint);
      ApplyEndpoints(ws, p, TpdbEndpoint);
      if TpdbEndpoint in m[p] {
        var k' :| 0 <= k' < |ws| && ws[k'].performer == p && ws[k'].endpoint == TpdbEndpoint;
        WritesShape(ids, reply.rows, |ids|, ws[k']);
      }
      forall e | e in m[p] ensures Backed(ids, reply.rows, |ids|, Write(p, e, m[p][e])) {
        ApplyEndpoints(ws, p, e);
        var k1 :| 0 <= k1 < |ws| && ws[k1].performer == p && ws[k1].endpoint == e;
        var last := LastWriteFor(ws, p, e, k1);
        ApplyLastWriteWins(ws, last);
        assert ws[last] == Write(p, e, m[p][e]);
        WritesShape(ids, reply.rows, |ids|, ws[last]);
      }
    }
  }

  /** The last assignment to a performer and endpoint that has at least one. */
  lemma {:induction false} LastWriteFor(ws: seq<Write>, p: string, e: string, k: nat) returns (last: nat)
    requires k < |ws| && ws[k].performer == p && ws[k].endpoint == e
    ensures k <= last < |ws| && ws[last].performer == p && ws[last].endpoint == e
    ensures forall k' :: last < k' < |ws| ==> !(ws[k'].performer == p && ws[k'].endpoint == e)
    decreases |ws| - k
  {
    if exists k' :: k < k' < |ws| && ws[k'].performer == p && ws[k'].endpoint == e {
      var k' :| k < k' < |ws| && ws[k'].performer == p && ws[k'].endpoint == e;
      last := LastWriteFor(ws, p, e, k');
    } else {
      last := k;
    }
  }

  /** A reply row holds at least one stash id of another provider than ThePornDB. */
  ghost predicate HasOtherEndpoint(entries: seq<StashIdEntry>) {
    exists j :: 0 <= j < |entries| && entries[j].endpoint != TpdbEndpoint
  }

  /**
   * After a successful query, a requested performer is a key exactly when its reply row
   * holds at least one stash id of another provider than ThePornDB.
   */
  lemma StashMapMembership(ids: seq<string>, rows: seq<Option<seq<StashIdEntry>>>, p: string)
    requires ids != []
    ensures p in StashMapOf(ids, Answered(rows)) <==>
            exists i :: 0 <= i < |ids| && ids[i] == p && HasOtherEndpoint(RowOr(rows, i))
  {
    if p in StashMapOf(ids, Answered(rows)) {
      var i := KeyHasRow(ids, rows, p);
    }
    if exists i :: 0 <= i < |ids| && ids[i] == p && HasOtherEndpoint(RowOr(rows, i)) {
      var i :| 0 <= i < |ids| && ids[i] == p && HasOtherEndpoint(RowOr(rows, i));
      RowGivesKey(ids, rows, i);
    }
  }

  /** A key of the map was requested at some position whose row has a non-ThePornDB id. */
  lemma KeyHasRow(ids: seq<string>, rows: seq<Option<seq<StashIdEntry>>>, p: string) returns (i: nat)
    requires p in Apply(Writes(ids, rows, |ids|))
    ensures i < |ids| && ids[i] == p && HasOtherEndpoint(RowOr(rows, i))
  {
    var ws := Writes(ids, rows, |ids|);
    ApplyDomain(ws, p);
    var k :| 0 <= k < |ws| && ws[k].performer == p;
    var w := ws[k];
    WritesShape(ids, rows, |ids|, w);
    i :| 0 <= i < |ids| && ids[i] == p && InRow(RowOr(rows, i), |RowOr(rows, i)|, w);
    var j :| 0 <= j < |RowOr(rows, i)| && RowOr(rows, i)[j] == StashIdEntry(w.endpoint, w.stashId);
    assert HasOtherEndpoint(RowOr(rows, i));
  }

  /** A requested performer whose row has a non-ThePornDB id is a key of the map. */
  lemma RowGivesKey(ids: seq<string>, rows: seq<Option<seq<StashIdEntry>>>, i: nat)
    requires i < |ids| && HasOtherEndpoint(RowOr(rows, i))
    ensures ids[i] in Apply(Writes(ids, rows, |ids|))
  {
    var ws := Writes(ids, rows, |ids|);
    var j :| 0 <= j < |RowOr(rows, i)| && RowOr(rows, i)[j].endpoint != TpdbEndpoint;
    var entry := RowOr(rows, i)[j];
    var w := Write(ids[i], entry.endpoint, entry.stashId);
    assert InRow(RowOr(rows, i), |RowOr(rows, i)|, w);
    assert Backed(ids, rows, |ids|, w);
    WritesShape(ids, rows, |ids|, w);
    var k :| 0 <= k < |ws| && ws[k] == w;
    ApplyDomain(ws, ids[i]);
  }
}
