/**
 * A Python dict with string keys as the ordered sequence of its fields: the
 * core iterates records in insertion order (`for field, value in
 * record.items()`), and assignment to a present key keeps its position.
 */
module Records {

  import opened Wrappers

  /** A value is a string or None. */
  datatype Field = Field(name: string, value: Option<string>)

  type Record = seq<Field>

  /** Index of the field named `k`, or -1. */
  function IndexOfKey(rec: Record, k: string): (i: int)
    ensures -1 <= i < |rec|
    ensures i >= 0 ==> rec[i].name == k && forall j :: 0 <= j < i ==> rec[j].name != k
    ensures i == -1 <==> forall j :: 0 <= j < |rec| ==> rec[j].name != k
  {
    if rec == [] then -1
    else if rec[0].name == k then 0
    else
      var j := IndexOfKey(rec[1..], k);
      if j == -1 then -1 else j + 1
  }

  /** `k in record`. */
  predicate Has(rec: Record, k: string) {
    IndexOfKey(rec, k) >= 0
  }

  /** `record.get(k)`: None both when absent and when the value is None. */
  function Get(rec: Record, k: string): Option<string> {
    var i := IndexOfKey(rec, k);
    if i >= 0 then rec[i].value else None
  }

  /** `record[k] = v`: replaces the value in place, or appends a new field. */
  function Set(rec: Record, k: string, v: Option<string>): (r: Record)
    ensures Has(r, k) && Get(r, k) == v
    ensures forall k' :: k' != k ==> Has(r, k') == Has(rec, k') && Get(r, k') == Get(rec, k')
    ensures Has(rec, k) ==> |r| == |rec|
    ensures !Has(rec, k) ==> r == rec + [Field(k, v)]
  {
    var i := IndexOfKey(rec, k);
    if i >= 0 then
      var r := rec[i := Field(k, v)];
      assert forall k' :: IndexOfKey(r, k') == IndexOfKey(rec, k') by {
        forall k' ensures IndexOfKey(r, k') == IndexOfKey(rec, k') {
          IndexOfKeyRename(rec, i, v, k');
        }
      }
      r
    else
      var r := rec + [Field(k, v)];
      assert forall k' :: IndexOfKey(r, k') == if k' == k then |rec| else IndexOfKey(rec, k') by {
        forall k' ensures IndexOfKey(r, k') == if k' == k then |rec| else IndexOfKey(rec, k') {
          IndexOfKeyAppend(rec, Field(k, v), k');
        }
      }
      r
  }

  /** Replacing a field's value by one under the same name moves no key. */
  lemma IndexOfKeyRename(rec: Record, i: int, v: Option<string>, k: string)
    requires 0 <= i < |rec|
    ensures IndexOfKey(rec[i := Field(rec[i].name, v)], k) == IndexOfKey(rec, k)
  {
    var r := rec[i := Field(rec[i].name, v)];
    assert forall j :: 0 <= j < |r| ==> r[j].name == rec[j].name;
    var a := IndexOfKey(r, k);
    var b := IndexOfKey(rec, k);
    if a >= 0 {
      assert rec[a].name == k;
    }
    if b >= 0 {
      assert r[b].name == k;
    }
  }

  /** A field added at the end is found only when no earlier field has its name. */
  lemma IndexOfKeyAppend(rec: Record, f: Field, k: string)
    ensures IndexOfKey(rec + [f], k) ==
      if IndexOfKey(rec, k) >= 0 then IndexOfKey(rec, k) else if f.name == k then |rec| else -1
  {
    var r := rec + [f];
    var i := IndexOfKey(rec, k);
    var i' := IndexOfKey(r, k);
    assert forall j :: 0 <= j < |rec| ==> r[j] == rec[j];
    assert r[|rec|] == f;
    if i >= 0 {
      assert r[i].name == k;
      assert i' >= 0 && i' <= i;
      assert i' == i;
    } else if f.name == k {
      assert i' >= 0;
    } else {
      assert forall j :: 0 <= j < |r| ==> r[j].name != k;
    }
  }

  /** Distinct keys, as in every Python dict. */
  predicate DistinctKeys(rec: Record) {
    forall i, j :: 0 <= i < j < |rec| ==> rec[i].name != rec[j].name
  }

  lemma SetKeepsDistinct(rec: Record, k: string, v: Option<string>)
    requires DistinctKeys(rec)
    ensures DistinctKeys(Set(rec, k, v))
  {
  }

  /** A dict display `{k1: v1, k2: v2, ...}`: the pairs assigned left to right. */
  function FromPairs(pairs: seq<(string, Option<string>)>): (r: Record)
    ensures DistinctKeys(r)
  {
    if pairs == [] then []
    else
      var prev := FromPairs(pairs[..|pairs| - 1]);
      var (k, v) := pairs[|pairs| - 1];
      SetKeepsDistinct(prev, k, v);
      Set(prev, k, v)
  }

  /** The value of the last pair whose key is `k`, if any. */
  function LastPair(pairs: seq<(string, Option<string>)>, k: string): Option<Option<string>> {
    if pairs == [] then None
    else if pairs[|pairs| - 1].0 == k then Some(pairs[|pairs| - 1].1)
    else LastPair(pairs[..|pairs| - 1], k)
  }

  /** A dict display holds exactly its keys, each with the value of its last pair. */
  lemma {:induction false} FromPairsGet(pairs: seq<(string, Option<string>)>, k: string)
    ensures Has(FromPairs(pairs), k) == LastPair(pairs, k).Some?
    ensures Get(FromPairs(pairs), k) == match LastPair(pairs, k) case Some(v) => v case None => None
  {
    if pairs != [] {
      FromPairsGet(pairs[..|pairs| - 1], k);
    }
  }

  /** The last pair with key `k` decides. */
  lemma {:induction false} LastPairAt(pairs: seq<(string, Option<string>)>, k: string, i: int)
    requires 0 <= i < |pairs| && pairs[i].0 == k
    requires forall j :: i < j < |pairs| ==> pairs[j].0 != k
    ensures LastPair(pairs, k) == Some(pairs[i].1)
  {
    if i < |pairs| - 1 {
      var pre := pairs[..|pairs| - 1];
      assert forall j :: i < j < |pre| ==> pre[j] == pairs[j];
      LastPairAt(pre, k, i);
    }
  }

  /** With distinct keys, a dict display maps each key to its own value. */
  lemma FromPairsDistinctGet(pairs: seq<(string, Option<string>)>, i: int)
    requires 0 <= i < |pairs|
    requires forall a, b :: 0 <= a < b < |pairs| ==> pairs[a].0 != pairs[b].0
    ensures Has(FromPairs(pairs), pairs[i].0) && Get(FromPairs(pairs), pairs[i].0) == pairs[i].1
  {
    FromPairsGet(pairs, pairs[i].0);
    LastPairAt(pairs, pairs[i].0, i);
  }

  /** A key no pair has is absent. */
  lemma {:induction false} LastPairNone(pairs: seq<(string, Option<string>)>, k: string)
    requires forall j :: 0 <= j < |pairs| ==> pairs[j].0 != k
    ensures LastPair(pairs, k) == None
  {
    if pairs != [] {
      LastPairNone(pairs[..|pairs| - 1], k);
    }
  }
}
