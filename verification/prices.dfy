/** Best-price arithmetic of OrderBook.java: Math.min/Math.max and the rescan over the level keys. */
module Prices {
  import opened Orders

  /** Math.min. */
  function Min(a: int, b: int): int {
    if a <= b then a else b
  }

  /** Math.max. */
  function Max(a: int, b: int): int {
    if a >= b then a else b
  }

  predicate IsMin(m: int, s: set<int>) {
    m in s && forall k :: k in s ==> m <= k
  }

  predicate IsMax(m: int, s: set<int>) {
    m in s && forall k :: k in s ==> k <= m
  }

  lemma EmptyOrInhabited(s: set<int>)
    ensures s == {} || exists m :: m in s
  {
    if forall m :: m !in s {
      assert s == {};
    }
  }

  lemma {:induction false} MinExists(s: set<int>)
    requires s != {}
    ensures exists m :: IsMin(m, s)
  {
    EmptyOrInhabited(s);
    var x :| x in s;
    var rest := s - {x};
    if rest == {} {
      assert s == {x};
      assert IsMin(x, s);
    } else {
      MinExists(rest);
      var m :| IsMin(m, rest);
      assert forall k :: k in s ==> k == x || k in rest;
      if x < m {
        assert IsMin(x, s);
      } else {
        assert IsMin(m, s);
      }
    }
  }

  lemma {:induction false} MaxExists(s: set<int>)
    requires s != {}
    ensures exists m :: IsMax(m, s)
  {
    EmptyOrInhabited(s);
    var x :| x in s;
    var rest := s - {x};
    if rest == {} {
      assert s == {x};
      assert IsMax(x, s);
    } else {
      MaxExists(rest);
      var m :| IsMax(m, rest);
      assert forall k :: k in s ==> k == x || k in rest;
      if x > m {
        assert IsMax(x, s);
      } else {
        assert IsMax(m, s);
      }
    }
  }

  /** The least element of a non-empty set of prices. */
  function MinOf(s: set<int>): (m: int)
    requires s != {}
    ensures IsMin(m, s)
  {
    MinExists(s);
    var m :| IsMin(m, s); m
  }

  /** The greatest element of a non-empty set of prices. */
  function MaxOf(s: set<int>): (m: int)
    requires s != {}
    ensures IsMax(m, s)
  {
    MaxExists(s);
    var m :| IsMax(m, s); m
  }

  /** One pass of `minPrice = Math.min(minPrice, key)` over an enumeration of the keys. */
  function FoldMin(ks: seq<int>, acc: int): int {
    if ks == [] then acc else FoldMin(ks[1..], Min(acc, ks[0]))
  }

  /** One pass of `maxPrice = Math.max(maxPrice, key)` over an enumeration of the keys. */
  function FoldMax(ks: seq<int>, acc: int): int {
    if ks == [] then acc else FoldMax(ks[1..], Max(acc, ks[0]))
  }

  lemma {:induction false} FoldMinBounds(ks: seq<int>, acc: int)
    ensures FoldMin(ks, acc) <= acc
    ensures forall i :: 0 <= i < |ks| ==> FoldMin(ks, acc) <= ks[i]
    ensures FoldMin(ks, acc) == acc || FoldMin(ks, acc) in ks
  {
    if ks != [] {
      FoldMinBounds(ks[1..], Min(acc, ks[0]));
      forall i | 0 < i < |ks|
        ensures FoldMin(ks, acc) <= ks[i]
      {
        assert ks[i] == ks[1..][i - 1];
      }
    }
  }

  lemma {:induction false} FoldMaxBounds(ks: seq<int>, acc: int)
    ensures FoldMax(ks, acc) >= acc
    ensures forall i :: 0 <= i < |ks| ==> FoldMax(ks, acc) >= ks[i]
    ensures FoldMax(ks, acc) == acc || FoldMax(ks, acc) in ks
  {
    if ks != [] {
      FoldMaxBounds(ks[1..], Max(acc, ks[0]));
      forall i | 0 < i < |ks|
        ensures FoldMax(ks, acc) >= ks[i]
      {
        assert ks[i] == ks[1..][i - 1];
      }
    }
  }

  /** minPrice after the sell-side rescan: Long.MAX_VALUE folded with Math.min over the keys. */
  function RescanMin(keys: set<int>): (r: int)
    ensures keys == {} ==> r == LONG_MAX
    ensures keys != {} && (forall k :: k in keys ==> k <= LONG_MAX) ==> IsMin(r, keys)
  {
    if keys == {} then LONG_MAX else Min(LONG_MAX, MinOf(keys))
  }

  /** maxPrice after the buy-side rescan: 0 folded with Math.max over the keys. */
  function RescanMax(keys: set<int>): (r: int)
    ensures keys == {} ==> r == 0
    ensures keys != {} && (forall k :: k in keys ==> k >= 0) ==> IsMax(r, keys)
  {
    if keys == {} then 0 else Max(0, MaxOf(keys))
  }

  /** The HashMap's key-set order is irrelevant: every enumeration of the keys folds to the rescan value. */
  lemma ForEachOrderIrrelevant(keys: set<int>, ks: seq<int>)
    requires forall k :: k in keys <==> k in ks
    ensures FoldMin(ks, LONG_MAX) == RescanMin(keys)
    ensures FoldMax(ks, 0) == RescanMax(keys)
  {
    FoldMinBounds(ks, LONG_MAX);
    FoldMaxBounds(ks, 0);
    if ks != [] {
      assert ks[0] in keys;
    }
    if keys != {} {
      var lo := MinOf(keys);
      var hi := MaxOf(keys);
      assert lo in ks && hi in ks;
    }
  }
}
