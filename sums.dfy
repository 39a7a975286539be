/** Weighted totals over a count map, as the bot's `for (kind, count) in map`
    accumulator loops compute them. A HashMap is visited in no fixed order, so
    the total is defined over a fixed enumeration `ks` of all kinds and the
    loops are proved against it whatever order they pick the keys in. */
module Sums {

  /** Whether `ks` lists each of its values once. */
  predicate Distinct<K(==)>(ks: seq<K>)
  {
    forall i, j :: 0 <= i < j < |ks| ==> ks[i] != ks[j]
  }

  /** The sum of w(k) * m[k] over the kinds k of `ks` that are in `done`
      and have an entry in m. */
  function Weighted<K(==)>(ks: seq<K>, m: map<K, nat>, done: set<K>, w: K -> int): int
  {
    if ks == [] then 0
    else
      var k := ks[|ks| - 1];
      Weighted(ks[..|ks| - 1], m, done, w) + (if k in done && k in m then w(k) * m[k] else 0)
  }

  /** Nothing visited yet: the total is zero. */
  lemma {:induction false} WeightedNone<K>(ks: seq<K>, m: map<K, nat>, w: K -> int)
    ensures Weighted(ks, m, {}, w) == 0
  {
    if ks != [] {
      WeightedNone(ks[..|ks| - 1], m, w);
    }
  }

  /** Visiting one more kind adds exactly its weighted count. */
  lemma {:induction false} WeightedAdd<K>(ks: seq<K>, m: map<K, nat>, done: set<K>, w: K -> int, k: K)
    requires Distinct(ks) && k in ks && k !in done && k in m
    ensures Weighted(ks, m, done + {k}, w) == Weighted(ks, m, done, w) + w(k) * m[k]
  {
    var init := ks[..|ks| - 1];
    var last := ks[|ks| - 1];
    assert Distinct(init);
    if last == k {
      assert k !in init by {
        forall i | 0 <= i < |init| ensures init[i] != k {
          assert ks[i] != ks[|ks| - 1];
        }
      }
      WeightedSame(init, m, done, w, k);
    } else {
      assert k in init by {
        var i :| 0 <= i < |ks| && ks[i] == k;
        assert i < |ks| - 1;
        assert init[i] == k;
      }
      WeightedAdd(init, m, done, w, k);
    }
  }

  /** Adding a kind that is not listed does not change the total. */
  lemma {:induction false} WeightedSame<K>(ks: seq<K>, m: map<K, nat>, done: set<K>, w: K -> int, k: K)
    requires k !in ks
    ensures Weighted(ks, m, done + {k}, w) == Weighted(ks, m, done, w)
  {
    if ks != [] {
      assert ks[|ks| - 1] != k;
      WeightedSame(ks[..|ks| - 1], m, done, w, k);
    }
  }

  /** With non-negative weights every visited kind adds something
      non-negative, so the total is never negative. */
  lemma {:induction false} WeightedNonNegative<K>(ks: seq<K>, m: map<K, nat>, done: set<K>, w: K -> int)
    requires forall k :: 0 <= w(k)
    ensures 0 <= Weighted(ks, m, done, w)
  {
    if ks != [] {
      WeightedNonNegative(ks[..|ks| - 1], m, done, w);
      var k := ks[|ks| - 1];
      if k in done && k in m {
        assert 0 <= w(k) * m[k];
      }
    }
  }

  /** With non-negative weights the total is at least the weighted count of
      any one visited kind. */
  lemma {:induction false} WeightedAtLeast<K>(ks: seq<K>, m: map<K, nat>, done: set<K>, w: K -> int, k: K)
    requires forall j :: 0 <= w(j)
    requires k in ks && k in done && k in m
    ensures w(k) * m[k] <= Weighted(ks, m, done, w)
  {
    var init := ks[..|ks| - 1];
    var last := ks[|ks| - 1];
    WeightedNonNegative(init, m, done, w);
    if last != k {
      assert k in init by {
        var i :| 0 <= i < |ks| && ks[i] == k;
        assert init[i] == k;
      }
      WeightedAtLeast(init, m, done, w, k);
      if last in done && last in m {
        assert 0 <= w(last) * m[last];
      }
    }
  }

  /** Setting kind k's count to v (and counting k as visited) replaces its
      old weighted count by the new one. */
  lemma {:induction false} WeightedSet<K>(ks: seq<K>, m: map<K, nat>, done: set<K>, w: K -> int, k: K, v: nat)
    requires Distinct(ks) && k in ks
    ensures Weighted(ks, m[k := v], done + {k}, w)
         == Weighted(ks, m, done, w) - (if k in done && k in m then w(k) * m[k] else 0) + w(k) * v
  {
    var init := ks[..|ks| - 1];
    var last := ks[|ks| - 1];
    assert Distinct(init);
    if last == k {
      assert k !in init by {
        forall i | 0 <= i < |init| ensures init[i] != k {
          assert ks[i] != ks[|ks| - 1];
        }
      }
      WeightedOther(init, m, done, w, k, v);
    } else {
      assert k in init by {
        var i :| 0 <= i < |ks| && ks[i] == k;
        assert i < |ks| - 1;
        assert init[i] == k;
      }
      WeightedSet(init, m, done, w, k, v);
    }
  }

  /** Changing the count of a kind that is not listed does not change the total. */
  lemma {:induction false} WeightedOther<K>(ks: seq<K>, m: map<K, nat>, done: set<K>, w: K -> int, k: K, v: nat)
    requires k !in ks
    ensures Weighted(ks, m[k := v], done + {k}, w) == Weighted(ks, m, done, w)
  {
    if ks != [] {
      assert ks[|ks| - 1] != k;
      WeightedOther(ks[..|ks| - 1], m, done, w, k, v);
    }
  }
}
