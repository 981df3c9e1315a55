/**
 The upsert-by-key pattern both stores follow: a sequence of entries, a key
 function, `Upsert` that replaces the first entry with the same key in place
 or appends at the end, and `UpsertAll` that upserts a list in order.
 */
module Keyed {
  import opened Wrappers

  /** Index of the first entry whose key is `k`. */
  function IndexOf<T, K(==)>(s: seq<T>, key: T -> K, k: K): (r: Option<nat>)
    ensures r.Some? ==> r.value < |s| && key(s[r.value]) == k
    ensures r.Some? ==> forall j :: 0 <= j < r.value ==> key(s[j]) != k
    ensures r.None? <==> forall j :: 0 <= j < |s| ==> key(s[j]) != k
  {
    if |s| == 0 then None
    else if key(s[0]) == k then Some(0)
    else match IndexOf(s[1..], key, k)
      case None => None
      case Some(i) => Some(i + 1)
  }

  /** The index of a key is pinned down by its first occurrence. */
  lemma IndexOfIs<T, K>(s: seq<T>, key: T -> K, k: K, i: nat)
    requires i < |s| && key(s[i]) == k
    requires forall j :: 0 <= j < i ==> key(s[j]) != k
    ensures IndexOf(s, key, k) == Some(i)
  {
    assert key(s[i]) == k;
  }

  /** The first entry whose key is `k`, if any. */
  function Lookup<T, K(==)>(s: seq<T>, key: T -> K, k: K): Option<T> {
    match IndexOf(s, key, k)
    case None => None
    case Some(i) => Some(s[i])
  }

  function KeySet<T, K>(s: seq<T>, key: T -> K): set<K> {
    set i | 0 <= i < |s| :: key(s[i])
  }

  ghost predicate UniqueKeys<T, K>(s: seq<T>, key: T -> K) {
    forall i, j :: 0 <= i < j < |s| ==> key(s[i]) != key(s[j])
  }

  /** The entries whose key is not `k`, in their order. */
  function Without<T, K(==)>(s: seq<T>, key: T -> K, k: K): seq<T> {
    if |s| == 0 then []
    else Without(s[..|s| - 1], key, k) + (if key(s[|s| - 1]) == k then [] else [s[|s| - 1]])
  }

  lemma {:induction false} WithoutAppend<T, K>(a: seq<T>, b: seq<T>, key: T -> K, k: K)
    ensures Without(a + b, key, k) == Without(a, key, k) + Without(b, key, k)
    decreases |b|
  {
    if |b| == 0 {
      assert a + b == a;
    } else {
      assert (a + b)[..|a + b| - 1] == a + b[..|b| - 1];
      WithoutAppend(a, b[..|b| - 1], key, k);
    }
  }

  lemma WithoutOverwrite<T, K>(s: seq<T>, i: nat, x: T, key: T -> K, k: K)
    requires i < |s| && key(s[i]) == k && key(x) == k
    ensures Without(s[i := x], key, k) == Without(s, key, k)
  {
    assert s == s[..i] + [s[i]] + s[i + 1..];
    assert s[i := x] == s[..i] + [x] + s[i + 1..];
    WithoutAppend(s[..i] + [s[i]], s[i + 1..], key, k);
    WithoutAppend(s[..i], [s[i]], key, k);
    WithoutAppend(s[..i] + [x], s[i + 1..], key, k);
    WithoutAppend(s[..i], [x], key, k);
    assert Without([s[i]], key, k) == [] by { assert [s[i]][..0] == []; }
    assert Without([x], key, k) == [] by { assert [x][..0] == []; }
  }

  /**
   Save-by-key: when an entry with `x`'s key exists, the first such entry is
   replaced in place and the length is unchanged; otherwise `x` is appended.
   Either way the first entry under `x`'s key is `x`, and the entries under
   every other key keep their values and their relative order.
   */
  function Upsert<T, K(==)>(s: seq<T>, key: T -> K, x: T): (r: seq<T>)
    ensures key(x) in KeySet(s, key) ==> |r| == |s|
    ensures key(x) in KeySet(s, key) ==>
      exists i :: 0 <= i < |s| && key(s[i]) == key(x) &&
        (forall j :: 0 <= j < i ==> key(s[j]) != key(x)) && r == s[i := x]
    ensures key(x) !in KeySet(s, key) ==> r == s + [x]
    ensures Lookup(r, key, key(x)) == Some(x)
    ensures Without(r, key, key(x)) == Without(s, key, key(x))
    ensures forall j :: 0 <= j < |s| && key(s[j]) != key(x) ==> j < |r| && r[j] == s[j]
    ensures KeySet(r, key) == KeySet(s, key) + {key(x)}
    ensures UniqueKeys(s, key) ==> UniqueKeys(r, key)
  {
    match IndexOf(s, key, key(x))
    case Some(i) =>
      WithoutOverwrite(s, i, x, key, key(x));
      var r := s[i := x];
      IndexOfIs(r, key, key(x), i);
      assert key(s[i]) == key(x) && (forall j :: 0 <= j < i ==> key(s[j]) != key(x)) && r == s[i := x];
      assert KeySet(r, key) == KeySet(s, key) by {
        forall k | k in KeySet(s, key) ensures k in KeySet(r, key) {
          var j :| 0 <= j < |s| && key(s[j]) == k;
          assert key(r[j]) == k;
        }
      }
      r
    case None =>
      assert key(x) !in KeySet(s, key);
      var r := s + [x];
      WithoutAppend(s, [x], key, key(x));
      assert Without([x], key, key(x)) == [] by { assert [x][..0] == []; }
      IndexOfIs(r, key, key(x), |s|);
      assert key(r[|s|]) == key(x);
      r
  }

  /** Upsert changes no key's lookup except `x`'s own, which now yields `x`: a map update. */
  lemma LookupUpsert<T, K>(s: seq<T>, key: T -> K, x: T, k: K)
    ensures Lookup(Upsert(s, key, x), key, k) == if k == key(x) then Some(x) else Lookup(s, key, k)
  {
    var r := Upsert(s, key, x);
    if k != key(x) {
      match IndexOf(s, key, k)
      case None =>
        forall j | 0 <= j < |r| ensures key(r[j]) != k {
          if j < |s| && key(s[j]) != key(x) {
            assert r[j] == s[j];
          }
        }
      case Some(i) =>
        assert r[i] == s[i];
        forall j | 0 <= j < i ensures key(r[j]) != k {
          if key(s[j]) != key(x) {
            assert r[j] == s[j];
          }
        }
        assert IndexOf(r, key, k) == Some(i);
    }
  }

  /** Upsert all of `xs`, in order, starting from `s`. */
  function UpsertAll<T, K(==)>(s: seq<T>, key: T -> K, xs: seq<T>): seq<T> {
    if |xs| == 0 then s
    else Upsert(UpsertAll(s, key, xs[..|xs| - 1]), key, xs[|xs| - 1])
  }

  /** The last element of `xs` whose key is `k`, if any. */
  function LastWithKey<T, K(==)>(xs: seq<T>, key: T -> K, k: K): Option<T> {
    if |xs| == 0 then None
    else if key(xs[|xs| - 1]) == k then Some(xs[|xs| - 1])
    else LastWithKey(xs[..|xs| - 1], key, k)
  }

  /** With unique keys, the last element with an element's key is that element. */
  lemma {:induction false} LastWithKeyUnique<T, K>(xs: seq<T>, key: T -> K, i: nat)
    requires UniqueKeys(xs, key) && i < |xs|
    ensures LastWithKey(xs, key, key(xs[i])) == Some(xs[i])
    decreases |xs|
  {
    if i < |xs| - 1 {
      LastWithKeyUnique(xs[..|xs| - 1], key, i);
    }
  }

  /** Upserting in order means the last element of `xs` with key `k` wins; untouched keys keep their lookups. */
  lemma {:induction false} LookupUpsertAll<T, K>(s: seq<T>, key: T -> K, xs: seq<T>, k: K)
    ensures Lookup(UpsertAll(s, key, xs), key, k) ==
      match LastWithKey(xs, key, k)
      case Some(x) => Some(x)
      case None => Lookup(s, key, k)
    decreases |xs|
  {
    if |xs| > 0 {
      LookupUpsertAll(s, key, xs[..|xs| - 1], k);
      LookupUpsert(UpsertAll(s, key, xs[..|xs| - 1]), key, xs[|xs| - 1], k);
    }
  }

  /** Upserting `a` then `b` is upserting `a + b`. */
  lemma {:induction false} UpsertAllAppend<T, K>(s: seq<T>, key: T -> K, a: seq<T>, b: seq<T>)
    ensures UpsertAll(s, key, a + b) == UpsertAll(UpsertAll(s, key, a), key, b)
    decreases |b|
  {
    if |b| == 0 {
      assert a + b == a;
    } else {
      assert (a + b)[..|a + b| - 1] == a + b[..|b| - 1];
      UpsertAllAppend(s, key, a, b[..|b| - 1]);
    }
  }

  lemma {:induction false} UpsertAllKeys<T, K>(s: seq<T>, key: T -> K, xs: seq<T>)
    ensures KeySet(UpsertAll(s, key, xs), key) == KeySet(s, key) + KeySet(xs, key)
    decreases |xs|
  {
    if |xs| > 0 {
      var p := xs[..|xs| - 1];
      UpsertAllKeys(s, key, p);
      assert KeySet(xs, key) == KeySet(p, key) + {key(xs[|xs| - 1])} by {
        forall k | k in KeySet(xs, key) ensures k in KeySet(p, key) + {key(xs[|xs| - 1])} {
          var j :| 0 <= j < |xs| && key(xs[j]) == k;
          if j < |xs| - 1 { assert key(p[j]) == k; }
        }
        forall k | k in KeySet(p, key) ensures k in KeySet(xs, key) {
          var j :| 0 <= j < |p| && key(p[j]) == k;
          assert key(xs[j]) == k;
        }
      }
    }
  }

  lemma {:induction false} UpsertAllUnique<T, K>(s: seq<T>, key: T -> K, xs: seq<T>)
    requires UniqueKeys(s, key)
    ensures UniqueKeys(UpsertAll(s, key, xs), key)
    decreases |xs|
  {
    if |xs| > 0 {
      UpsertAllUnique(s, key, xs[..|xs| - 1]);
    }
  }

  /** A sequence with unique keys has as many entries as keys. */
  lemma {:induction false} UniqueKeysCount<T, K>(s: seq<T>, key: T -> K)
    requires UniqueKeys(s, key)
    ensures |KeySet(s, key)| == |s|
    decreases |s|
  {
    if |s| > 0 {
      var p := s[..|s| - 1];
      UniqueKeysCount(p, key);
      assert KeySet(s, key) == KeySet(p, key) + {key(s[|s| - 1])} by {
        forall k | k in KeySet(s, key) ensures k in KeySet(p, key) + {key(s[|s| - 1])} {
          var j :| 0 <= j < |s| && key(s[j]) == k;
          if j < |s| - 1 { assert key(p[j]) == k; }
        }
        forall k | k in KeySet(p, key) ensures k in KeySet(s, key) {
          var j :| 0 <= j < |p| && key(p[j]) == k;
          assert key(s[j]) == k;
        }
      }
      assert key(s[|s| - 1]) !in KeySet(p, key);
    }
  }

  /** Index of the first element of `xs` with key `k`, which must exist. */
  function FirstIndexOfKey<T, K(==)>(xs: seq<T>, key: T -> K, k: K): (i: nat)
    requires k in KeySet(xs, key)
    ensures i < |xs| && key(xs[i]) == k
  {
    IndexOf(xs, key, k).value
  }

  lemma FirstIndexOfKeyAppend<T, K>(xs: seq<T>, key: T -> K, y: T, k: K)
    requires k in KeySet(xs, key)
    ensures k in KeySet(xs + [y], key)
    ensures FirstIndexOfKey(xs + [y], key, k) == FirstIndexOfKey(xs, key, k)
  {
    var i := FirstIndexOfKey(xs, key, k);
    assert key((xs + [y])[i]) == k;
    IndexOfIs(xs + [y], key, k, i);
  }

  /** Entries are listed in the order their keys first occur in `xs`. */
  ghost predicate OrderedByFirstOccurrence<T, K>(r: seq<T>, key: T -> K, xs: seq<T>) {
    forall i, j :: 0 <= i < j < |r| ==>
      key(r[i]) in KeySet(xs, key) && key(r[j]) in KeySet(xs, key) &&
      FirstIndexOfKey(xs, key, key(r[i])) < FirstIndexOfKey(xs, key, key(r[j]))
  }

  /**
   Upserting `xs` into an empty store keeps one entry per distinct key of
   `xs`, each the last element of `xs` with that key.
   */
  lemma UpsertAllFromEmpty<T, K>(xs: seq<T>, key: T -> K)
    ensures UniqueKeys(UpsertAll([], key, xs), key)
    ensures KeySet(UpsertAll([], key, xs), key) == KeySet(xs, key)
    ensures |UpsertAll([], key, xs)| == |KeySet(xs, key)|
    ensures forall i :: 0 <= i < |UpsertAll([], key, xs)| ==>
      LastWithKey(xs, key, key(UpsertAll([], key, xs)[i])) == Some(UpsertAll([], key, xs)[i])
  {
    var r := UpsertAll([], key, xs);
    UpsertAllUnique([], key, xs);
    UpsertAllKeys([], key, xs);
    assert KeySet([], key) == {};
    UniqueKeysCount(r, key);
    forall i | 0 <= i < |r|
      ensures LastWithKey(xs, key, key(r[i])) == Some(r[i])
    {
      LookupUpsertAll([], key, xs, key(r[i]));
      IndexOfIs(r, key, key(r[i]), i);
    }
  }

  /** One more upsert keeps the order of first occurrence, for the pair at positions `i < j`. */
  lemma OrderPair<T, K>(p: seq<T>, y: T, key: T -> K, q: seq<T>, i: nat, j: nat)
    requires OrderedByFirstOccurrence(q, key, p)
    requires KeySet(q, key) == KeySet(p, key)
    requires i < j < |Upsert(q, key, y)|
    ensures key(Upsert(q, key, y)[i]) in KeySet(p + [y], key)
    ensures key(Upsert(q, key, y)[j]) in KeySet(p + [y], key)
    ensures FirstIndexOfKey(p + [y], key, key(Upsert(q, key, y)[i])) < FirstIndexOfKey(p + [y], key, key(Upsert(q, key, y)[j]))
  {
    var r := Upsert(q, key, y);
    if key(y) in KeySet(q, key) {
      var m := IndexOf(q, key, key(y)).value;
      assert r == q[m := y];
      assert key(r[i]) == key(q[i]) && key(r[j]) == key(q[j]);
      assert key(q[i]) in KeySet(q, key) && key(q[j]) in KeySet(q, key);
      FirstIndexOfKeyAppend(p, key, y, key(q[i]));
      FirstIndexOfKeyAppend(p, key, y, key(q[j]));
    } else {
      assert r == q + [y];
      assert key(q[i]) in KeySet(q, key);
      FirstIndexOfKeyAppend(p, key, y, key(q[i]));
      if j < |q| {
        assert key(q[j]) in KeySet(q, key);
        FirstIndexOfKeyAppend(p, key, y, key(q[j]));
      } else {
        NewKeyComesLast(p, y, key);
      }
    }
  }

  lemma NewKeyComesLast<T, K>(p: seq<T>, y: T, key: T -> K)
    requires key(y) !in KeySet(p, key)
    ensures key(y) in KeySet(p + [y], key)
    ensures FirstIndexOfKey(p + [y], key, key(y)) == |p|
  {
    var xs := p + [y];
    assert key(xs[|p|]) == key(y);
    forall f | 0 <= f < |p| ensures key(xs[f]) != key(y) {
      assert key(p[f]) in KeySet(p, key);
    }
    IndexOfIs(xs, key, key(y), |p|);
  }

  /** One more upsert keeps the entries in order of first occurrence. */
  lemma OrderStep<T, K>(p: seq<T>, y: T, key: T -> K, q: seq<T>)
    requires OrderedByFirstOccurrence(q, key, p)
    requires KeySet(q, key) == KeySet(p, key)
    ensures OrderedByFirstOccurrence(Upsert(q, key, y), key, p + [y])
  {
    var r := Upsert(q, key, y);
    forall i, j | 0 <= i < j < |r|
      ensures key(r[i]) in KeySet(p + [y], key) && key(r[j]) in KeySet(p + [y], key)
      ensures FirstIndexOfKey(p + [y], key, key(r[i])) < FirstIndexOfKey(p + [y], key, key(r[j]))
    {
      OrderPair(p, y, key, q, i, j);
    }
  }

  /** Upserting `xs` into an empty store lists the keys in order of first occurrence in `xs`. */
  lemma {:induction false} UpsertAllFromEmptyOrder<T, K>(xs: seq<T>, key: T -> K)
    ensures OrderedByFirstOccurrence(UpsertAll([], key, xs), key, xs)
    decreases |xs|
  {
    if |xs| > 0 {
      var p := xs[..|xs| - 1];
      var y := xs[|xs| - 1];
      assert xs == p + [y];
      UpsertAllFromEmptyOrder(p, key);
      UpsertAllKeys([], key, p);
      assert KeySet([], key) == {};
      OrderStep(p, y, key, UpsertAll([], key, p));
    }
  }
}
