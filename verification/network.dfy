/**
 The rolling response-time averager: a FIFO of at most `maxN` values where
 adding to a full list drops the oldest value first. Only the integer sum
 and count behind the average are modelled.
 */
module Network {

  datatype Averager = Averager(vals: seq<int>, maxN: int)

  /** Capacity of the process-wide averager. */
  const GlobalMaxN := 50

  /** The process-wide averager as `init` creates it: one 0 already stored. */
  const Global := Averager([0], GlobalMaxN)

  /**
   AddVal on a full list removes the front element, which must then exist:
   with `maxN <= 0` and an empty list the list removal fails.
   */
  predicate CanAdd(a: Averager) {
    |a.vals| >= a.maxN ==> |a.vals| > 0
  }

  /**
   AddVal: `v` becomes the newest (last) value. A full list loses its oldest
   value and keeps the rest in order; otherwise the list grows by one with
   the earlier values untouched. A list within a positive cap stays within it.
   */
  function AddVal(a: Averager, v: int): (r: Averager)
    requires CanAdd(a)
    ensures r.maxN == a.maxN
    ensures |r.vals| > 0 && r.vals[|r.vals| - 1] == v
    ensures |a.vals| < a.maxN ==> |r.vals| == |a.vals| + 1 && r.vals[..|a.vals|] == a.vals
    ensures |a.vals| >= a.maxN ==> |r.vals| == |a.vals| && r.vals[..|a.vals| - 1] == a.vals[1..]
    ensures 1 <= a.maxN && |a.vals| <= a.maxN ==> |r.vals| <= a.maxN
  {
    var kept := if |a.vals| >= a.maxN then a.vals[1..] else a.vals;
    var r := Averager(kept + [v], a.maxN);
    assert r.vals[..|kept|] == kept;
    r
  }

  /**
   The averager after adding `vs` in order. Starting non-empty and within a
   positive cap, it stays non-empty and within the cap.
   */
  function AddAll(a: Averager, vs: seq<int>): (r: Averager)
    requires 1 <= a.maxN && 1 <= |a.vals| <= a.maxN
    ensures r.maxN == a.maxN
    ensures 1 <= |r.vals| <= a.maxN
  {
    if |vs| == 0 then a else AddVal(AddAll(a, vs[..|vs| - 1]), vs[|vs| - 1])
  }

  /** The last `n` elements of `s` (all of `s` when it is shorter). */
  function LastN(s: seq<int>, n: nat): seq<int> {
    if |s| <= n then s else s[|s| - n..]
  }

  /**
   The process-wide averager, after any values have been added to it, holds
   the most recent min(50, 1 + |vs|) of the 0 it was seeded with followed by
   `vs`: it is never empty, never over capacity, and keeps arrival order.
   */
  lemma {:induction false} GlobalWindow(vs: seq<int>)
    ensures AddAll(Global, vs).vals == LastN([0] + vs, GlobalMaxN)
    decreases |vs|
  {
    if |vs| > 0 {
      var p := vs[..|vs| - 1];
      GlobalWindow(p);
      var w := [0] + vs;
      assert [0] + p == w[..|w| - 1];
      var b := AddAll(Global, p);
      var r := AddAll(Global, vs);
      assert r == AddVal(b, vs[|vs| - 1]);
      if |w| - 1 < GlobalMaxN {
        assert r.vals == b.vals + [vs[|vs| - 1]];
      } else {
        assert b.vals == w[|w| - 1 - GlobalMaxN..|w| - 1];
        assert r.vals == b.vals[1..] + [vs[|vs| - 1]];
      }
    }
  }

  /** Sum of the values. */
  function Sum(s: seq<int>): int {
    if |s| == 0 then 0 else Sum(s[..|s| - 1]) + s[|s| - 1]
  }

  /**
   Average: walks the list from the front, adding each value, and returns
   the total with the number of values; the mean is `total / count`.
   */
  method Average(a: Averager) returns (total: int, count: nat)
    ensures count == |a.vals|
    ensures total == Sum(a.vals)
  {
    total := 0;
    count := |a.vals|;
    for i := 0 to |a.vals|
      invariant total == Sum(a.vals[..i])
    {
      assert a.vals[..i + 1][..i] == a.vals[..i];
      total := total + a.vals[i];
    }
    assert a.vals[..|a.vals|] == a.vals;
  }
}
