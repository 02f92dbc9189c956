/**
 * A parsed URL: the six components `urlparse` returns, with the query already
 * decoded by `parse_qs` into an ordered map from each key to its list of values
 * (a Python dict keeps its keys in insertion order).
 */
module Urls {
  import opened Wrappers

  type Query = seq<(string, seq<string>)>

  datatype Url = Url(scheme: string, netloc: string, path: string, params: string,
                     query: Query, fragment: string)

  function Keys(q: Query): (ks: seq<string>)
    ensures |ks| == |q| && forall i :: 0 <= i < |q| ==> ks[i] == q[i].0
  {
    if q == [] then [] else [q[0].0] + Keys(q[1..])
  }

  /** Position of the entry for `key`, if there is one. */
  function IndexOf(q: Query, key: string): (r: Option<nat>)
    ensures r.Some? ==> r.value < |q| && q[r.value].0 == key
                        && forall i :: 0 <= i < r.value ==> q[i].0 != key
    ensures r.None? ==> forall i :: 0 <= i < |q| ==> q[i].0 != key
  {
    if q == [] then None
    else if q[0].0 == key then Some(0)
    else match IndexOf(q[1..], key)
      case None => None
      case Some(i) => Some(i + 1)
  }

  /** The first entry whose key is `key` is the one `IndexOf` finds. */
  lemma IndexOfFirst(q: Query, key: string, i: nat)
    requires i < |q| && q[i].0 == key
    requires forall j :: 0 <= j < i ==> q[j].0 != key
    ensures IndexOf(q, key) == Some(i)
  {
  }

  /** `query.get(key)` */
  function Get(q: Query, key: string): Option<seq<string>> {
    match IndexOf(q, key)
    case None => None
    case Some(i) => Some(q[i].1)
  }

  /**
   * `query[key] = values`: an existing key keeps its place and gets the new
   * values; a new key is added at the end.
   */
  function Put(q: Query, key: string, values: seq<string>): (r: Query)
    ensures IndexOf(q, key).Some? ==>
              |r| == |q| && r[IndexOf(q, key).value] == (key, values)
              && forall i :: 0 <= i < |q| && i != IndexOf(q, key).value ==> r[i] == q[i]
    ensures IndexOf(q, key).None? ==> r == q + [(key, values)]
  {
    match IndexOf(q, key)
    case None => q + [(key, values)]
    case Some(i) => q[i := (key, values)]
  }

  /** After `query[key] = values`, `key` maps to `values` and every other key to what it did. */
  lemma GetPut(q: Query, key: string, values: seq<string>, other: string)
    ensures Get(Put(q, key, values), key) == Some(values)
    ensures other != key ==> Get(Put(q, key, values), other) == Get(q, other)
  {
    var r := Put(q, key, values);
    match IndexOf(q, key)
    case None =>
      IndexOfFirst(r, key, |q|);
      if other != key {
        match IndexOf(q, other)
        case None =>
          assert IndexOf(r, other).None?;
        case Some(j) =>
          IndexOfFirst(r, other, j);
      }
    case Some(i) =>
      assert IndexOf(r, key) == Some(i);
      if other != key {
        match IndexOf(q, other)
        case None =>
          assert IndexOf(r, other).None?;
        case Some(j) =>
          assert IndexOf(r, other) == Some(j);
      }
  }

  /** Overwriting an existing key keeps the keys and their order. */
  lemma PutKeepsKeys(q: Query, key: string, values: seq<string>)
    requires Get(q, key).Some?
    ensures Keys(Put(q, key, values)) == Keys(q)
  {
  }

  /**
   * A query as `parse_qs` returns it: a dict, so no key appears twice. `Query`
   * itself allows repeats; on such a query `Put` rewrites only the first entry.
   */
  predicate UniqueKeys(q: Query) {
    forall i, j :: 0 <= i < j < |q| ==> q[i].0 != q[j].0
  }

  /** In a dict every entry is the one `query.get` finds for its key. */
  lemma GetUnique(q: Query, i: nat)
    requires UniqueKeys(q) && i < |q|
    ensures Get(q, q[i].0) == Some(q[i].1)
  {
    IndexOfFirst(q, q[i].0, i);
  }

  /** Assigning to a dict keeps it a dict. */
  lemma PutUniqueKeys(q: Query, key: string, values: seq<string>)
    requires UniqueKeys(q)
    ensures UniqueKeys(Put(q, key, values))
  {
  }

  /** The second of two writes to the same key is the one that counts. */
  lemma PutPut(q: Query, key: string, first: seq<string>, second: seq<string>)
    ensures Put(Put(q, key, first), key, second) == Put(q, key, second)
  {
    var r := Put(q, key, first);
    match IndexOf(q, key)
    case None =>
      IndexOfFirst(r, key, |q|);
    case Some(i) =>
      IndexOfFirst(r, key, i);
  }
}
