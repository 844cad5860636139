/**
 * A JavaScript object with string keys, as the plugins use `{}` for maps: entries are kept
 * in insertion order, assigning to an existing key replaces its value in place, and
 * assigning to a new key appends it. (Keys that look like array indices are enumerated
 * first by the JavaScript engine; the keys stored here are endpoints, stash ids and tag ids,
 * and the README says where that ordering matters.)
 */
module JsObject {
  import opened Wrappers

  datatype Entry<V> = Entry(key: string, value: V)

  type Obj<V> = seq<Entry<V>>

  /** `Object.keys(o)`. */
  function Keys<V>(o: Obj<V>): seq<string> {
    if o == [] then [] else [o[0].key] + Keys(o[1..])
  }

  /** `Object.values(o)`. */
  function Values<V>(o: Obj<V>): seq<V> {
    if o == [] then [] else [o[0].value] + Values(o[1..])
  }

  /** No key occurs twice, as in every JavaScript object. */
  ghost predicate DistinctKeys<V>(o: Obj<V>) {
    o == [] || (o[0].key !in Keys(o[1..]) && DistinctKeys(o[1..]))
  }

  /** `o[k]`, `None` standing for `undefined`. */
  function Get<V>(o: Obj<V>, k: string): Option<V> {
    if o == [] then None else if o[0].key == k then Some(o[0].value) else Get(o[1..], k)
  }

  /** A key is found exactly when it is one of the object's keys. */
  lemma {:induction false} GetKeys<V>(o: Obj<V>, k: string)
    ensures Get(o, k).Some? <==> k in Keys(o)
  {
    if o != [] && o[0].key != k {
      GetKeys(o[1..], k);
    }
  }

  /** `o[k] = v`: afterwards `o[k]` is `v`. */
  function Put<V>(o: Obj<V>, k: string, v: V): (r: Obj<V>)
    ensures Get(r, k) == Some(v)
  {
    if o == [] then [Entry(k, v)]
    else if o[0].key == k then [Entry(k, v)] + o[1..]
    else [o[0]] + Put(o[1..], k, v)
  }

  /** Writing one key leaves every other key's value alone. */
  lemma {:induction false} PutOther<V>(o: Obj<V>, k: string, v: V, k': string)
    requires k' != k
    ensures Get(Put(o, k, v), k') == Get(o, k')
  {
    if o != [] && o[0].key != k && o[0].key != k' {
      PutOther(o[1..], k, v, k');
    }
  }

  /** An existing key keeps its place; a new key is appended. */
  lemma {:induction false} PutKeys<V>(o: Obj<V>, k: string, v: V)
    ensures k in Keys(o) ==> Keys(Put(o, k, v)) == Keys(o)
    ensures k !in Keys(o) ==> Keys(Put(o, k, v)) == Keys(o) + [k]
  {
    if o != [] && o[0].key != k {
      PutKeys(o[1..], k, v);
    }
  }

  /** Writing keeps the keys distinct. */
  lemma {:induction false} PutDistinct<V>(o: Obj<V>, k: string, v: V)
    requires DistinctKeys(o)
    ensures DistinctKeys(Put(o, k, v))
  {
    if o != [] && o[0].key != k {
      PutDistinct(o[1..], k, v);
      PutKeys(o[1..], k, v);
    }
  }

  lemma {:induction false} KeysAt<V>(o: Obj<V>, i: nat)
    requires i < |o|
    ensures |Keys(o)| == |o| && Keys(o)[i] == o[i].key
  {
    if i > 0 { KeysAt(o[1..], i - 1); } else if |o| > 1 { KeysAt(o[1..], 0); }
  }

  lemma {:induction false} KeysAppend<V>(o: Obj<V>, e: Entry<V>)
    ensures Keys(o + [e]) == Keys(o) + [e.key]
    ensures Values(o + [e]) == Values(o) + [e.value]
  {
    if o != [] {
      assert (o + [e])[1..] == o[1..] + [e];
      KeysAppend(o[1..], e);
    }
  }

  lemma {:induction false} KeysConcat<V>(a: Obj<V>, b: Obj<V>)
    ensures Keys(a + b) == Keys(a) + Keys(b)
  {
    if a == [] {
      assert a + b == b;
    } else {
      assert (a + b)[1..] == a[1..] + b;
      KeysConcat(a[1..], b);
    }
  }

  lemma KeysOfSingle<V>(e: Entry<V>)
    ensures Keys([e]) == [e.key]
  {
    assert [e][1..] == [];
  }

  /** A key of a concatenation is a key of one of its parts. */
  lemma KeyInConcat<V>(a: Obj<V>, b: Obj<V>, k: string)
    requires k in Keys(a + b)
    ensures k in Keys(a) || k in Keys(b)
  {
    KeysConcat(a, b);
  }

  /** A key that is already present keeps its place and takes the value last written. */
  lemma {:induction false} PutTwice<V>(o: Obj<V>, k: string, v1: V, v2: V)
    ensures Put(Put(o, k, v1), k, v2) == Put(o, k, v2)
  {
    if o != [] && o[0].key != k {
      PutTwice(o[1..], k, v1, v2);
    }
  }

  /** In an object with distinct keys, the value found for a key is the value of its entry. */
  lemma {:induction false} GetEntry<V>(o: Obj<V>, i: nat)
    requires DistinctKeys(o) && i < |o|
    ensures Get(o, o[i].key) == Some(o[i].value)
  {
    if i > 0 {
      KeysAt(o[1..], i - 1);
      GetEntry(o[1..], i - 1);
    }
  }

  /** Writing a new key appends it. */
  lemma {:induction false} PutNew<V>(o: Obj<V>, k: string, v: V)
    requires k !in Keys(o)
    ensures Put(o, k, v) == o + [Entry(k, v)]
  {
    if o != [] {
      PutNew(o[1..], k, v);
      assert [o[0]] + (o[1..] + [Entry(k, v)]) == o + [Entry(k, v)];
    }
  }

  /** Writing the last key again replaces its value in place. */
  lemma {:induction false} PutLast<V>(o: Obj<V>, k: string, x: V, v: V)
    requires k !in Keys(o)
    ensures Get(o + [Entry(k, x)], k) == Some(x)
    ensures Put(o + [Entry(k, x)], k, v) == o + [Entry(k, v)]
  {
    PutNew(o, k, x);
    PutNew(o, k, v);
    PutTwice(o, k, x, v);
  }

  lemma {:induction false} DistinctKeysAt<V>(o: Obj<V>, i: nat, j: nat)
    requires DistinctKeys(o) && i < j < |o|
    ensures o[i].key != o[j].key
  {
    KeysAt(o[1..], j - 1);
    if i > 0 {
      DistinctKeysAt(o[1..], i - 1, j - 1);
    }
  }
}
