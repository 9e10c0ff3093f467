/**
 * A plain JavaScript object as its own enumerable properties in order:
 * a list of (name, value) pairs. Assigning an existing property keeps its
 * position, assigning a new one appends it, `delete` removes it.
 */
module JsObject {
  import opened Wrappers

  /** No property name occurs twice. */
  predicate DistinctKeys<V>(o: seq<(string, V)>) {
    o == [] || (Lookup(o[1..], o[0].0).None? && DistinctKeys(o[1..]))
  }

  /** `o[k]`, with `None` for `undefined`. */
  function Lookup<V>(o: seq<(string, V)>, k: string): (r: Option<V>)
    ensures r.None? <==> forall i :: 0 <= i < |o| ==> o[i].0 != k
    ensures r.Some? ==> exists i :: 0 <= i < |o| && o[i] == (k, r.value)
  {
    if o == [] then None
    else if o[0].0 == k then Some(o[0].1)
    else Lookup(o[1..], k)
  }

  /** `o[k] = v`. */
  function Put<V>(o: seq<(string, V)>, k: string, v: V): (r: seq<(string, V)>)
    ensures Lookup(r, k) == Some(v)
    ensures forall j :: j != k ==> Lookup(r, j) == Lookup(o, j)
    ensures Lookup(o, k).None? ==> r == o + [(k, v)]
    ensures Lookup(o, k).Some? ==> |r| == |o|
    ensures DistinctKeys(o) ==> DistinctKeys(r)
  {
    if o == [] then [(k, v)]
    else if o[0].0 == k then [(k, v)] + o[1..]
    else [o[0]] + Put(o[1..], k, v)
  }

  /** `delete o[k]`. */
  function Delete<V>(o: seq<(string, V)>, k: string): (r: seq<(string, V)>)
    ensures Lookup(r, k).None?
    ensures forall j :: j != k ==> Lookup(r, j) == Lookup(o, j)
    ensures Lookup(o, k).None? ==> r == o
    ensures DistinctKeys(o) ==> DistinctKeys(r)
    ensures |r| <= |o|
  {
    if o == [] then []
    else if o[0].0 == k then Delete(o[1..], k)
    else [o[0]] + Delete(o[1..], k)
  }

  /** A name is looked up in the first part before the second. */
  lemma {:induction false} LookupAppend<V>(a: seq<(string, V)>, b: seq<(string, V)>, k: string)
    ensures Lookup(a + b, k) == if Lookup(a, k).Some? then Lookup(a, k) else Lookup(b, k)
  {
    if a != [] {
      assert (a + b)[0] == a[0];
      assert (a + b)[1..] == a[1..] + b;
      LookupAppend(a[1..], b, k);
    } else {
      assert a + b == b;
    }
  }

  /** Two objects with distinct names and no name in common join into one with distinct names. */
  lemma {:induction false} DistinctAppend<V>(a: seq<(string, V)>, b: seq<(string, V)>)
    requires DistinctKeys(a) && DistinctKeys(b)
    requires forall k :: Lookup(a, k).Some? ==> Lookup(b, k).None?
    ensures DistinctKeys(a + b)
  {
    if a != [] {
      assert (a + b)[0] == a[0];
      assert (a + b)[1..] == a[1..] + b;
      forall k | Lookup(a[1..], k).Some? ensures Lookup(b, k).None? {
        assert Lookup(a, k).Some?;
      }
      DistinctAppend(a[1..], b);
      LookupAppend(a[1..], b, a[0].0);
    } else {
      assert a + b == b;
    }
  }
}
