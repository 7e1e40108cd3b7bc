/** Order-preserving selection and first-match search over table rows: the
    two shapes every `SELECT ... WHERE column == ?` of the store takes. */
module Sequences {
  import opened Wrappers

  /** The rows of `xs` whose `key` equals `k`, in their original order. */
  function Select<T, K(==)>(xs: seq<T>, key: T -> K, k: K): (r: seq<T>)
    ensures |r| <= |xs|
    ensures forall i :: 0 <= i < |r| ==> r[i] in xs && key(r[i]) == k
    decreases |xs|
  {
    if |xs| == 0 then []
    else
      var last := xs[|xs| - 1];
      assert xs == xs[..|xs| - 1] + [last];
      Select(xs[..|xs| - 1], key, k) + (if key(last) == k then [last] else [])
  }

  /** Every row of `xs` whose `key` equals `k` is selected. */
  lemma {:induction false} SelectComplete<T, K>(xs: seq<T>, key: T -> K, k: K)
    ensures forall i :: 0 <= i < |xs| && key(xs[i]) == k ==> xs[i] in Select(xs, key, k)
    decreases |xs|
  {
    if |xs| > 0 {
      var front := xs[..|xs| - 1];
      SelectComplete(front, key, k);
      forall i | 0 <= i < |xs| && key(xs[i]) == k ensures xs[i] in Select(xs, key, k) {
        if i < |xs| - 1 {
          assert xs[i] == front[i];
        }
      }
    }
  }

  /** Selection distributes over concatenation: rows keep insertion order. */
  lemma {:induction false} SelectAppend<T, K>(a: seq<T>, b: seq<T>, key: T -> K, k: K)
    ensures Select(a + b, key, k) == Select(a, key, k) + Select(b, key, k)
    decreases |b|
  {
    if |b| == 0 {
      assert a + b == a;
    } else {
      var b' := b[..|b| - 1];
      assert (a + b)[..|a + b| - 1] == a + b';
      assert (a + b)[|a + b| - 1] == b[|b| - 1];
      SelectAppend(a, b', key, k);
    }
  }

  /** Appending a row to a table appends it to the selection of its key, and
      to no other selection. */
  lemma SelectAppendOne<T, K>(xs: seq<T>, x: T, key: T -> K, k: K)
    ensures Select(xs + [x], key, k) == Select(xs, key, k) + (if key(x) == k then [x] else [])
  {
    assert (xs + [x])[..|xs|] == xs;
  }

  /** Selecting from a table whose keys never equal `k` yields nothing. */
  lemma {:induction false} SelectNone<T, K>(xs: seq<T>, key: T -> K, k: K)
    requires forall i :: 0 <= i < |xs| ==> key(xs[i]) != k
    ensures Select(xs, key, k) == []
    decreases |xs|
  {
    if |xs| > 0 {
      SelectNone(xs[..|xs| - 1], key, k);
    }
  }

  /** The index of the first row whose `key` equals `k`, if any. */
  function FirstWith<T, K(==)>(xs: seq<T>, key: T -> K, k: K): (r: Option<nat>)
    ensures r.None? <==> forall i :: 0 <= i < |xs| ==> key(xs[i]) != k
    ensures r.Some? ==> r.value < |xs| && key(xs[r.value]) == k
    ensures r.Some? ==> forall j :: 0 <= j < r.value ==> key(xs[j]) != k
    decreases |xs|
  {
    if |xs| == 0 then None
    else if key(xs[0]) == k then Some(0)
    else
      match FirstWith(xs[1..], key, k)
      case None => None
      case Some(i) => Some(i + 1)
  }

  /** The first row whose `key` equals `k`, if any. */
  function Lookup<T, K(==)>(xs: seq<T>, key: T -> K, k: K): (r: Option<T>)
    ensures r.None? <==> forall i :: 0 <= i < |xs| ==> key(xs[i]) != k
    ensures r.Some? ==> r.value in xs && key(r.value) == k
    ensures r.Some? ==> exists i :: 0 <= i < |xs| && xs[i] == r.value && key(xs[i]) == k
                                    && forall j :: 0 <= j < i ==> key(xs[j]) != k
  {
    match FirstWith(xs, key, k)
    case None => None
    case Some(i) => Some(xs[i])
  }

  /** In a table whose keys run 1, 2, 3, ... the row keyed `k` is at index k - 1. */
  lemma LookupConsecutive<T>(xs: seq<T>, key: T -> int, k: int)
    requires forall i :: 0 <= i < |xs| ==> key(xs[i]) == i + 1
    ensures Lookup(xs, key, k) == if 1 <= k <= |xs| then Some(xs[k - 1]) else None
  {
    var r := FirstWith(xs, key, k);
    if 1 <= k <= |xs| {
      assert key(xs[k - 1]) == k;
      assert r.Some?;
      assert r.value == k - 1;
    }
  }
}
