/** Finite sets of integer keys: extrema and the ascending enumeration used to
    list a store's rows in a fixed order. */
module IntSets {

  /** Some element of a non-empty set. */
  lemma Pick(ks: set<int>) returns (x: int)
    requires ks != {}
    ensures x in ks
  {
    if forall y :: y !in ks {
      assert false;
    }
    x :| x in ks;
  }

  /** Strictly ascending, so no key appears twice. */
  predicate Increasing(r: seq<int>) {
    forall i, j :: 0 <= i < j < |r| ==> r[i] < r[j]
  }

  lemma {:induction false} HasMinimum(ks: set<int>)
    requires ks != {}
    ensures exists m :: m in ks && forall k :: k in ks ==> m <= k
    decreases ks
  {
    var x := Pick(ks);
    if ks == {x} {
      assert forall k :: k in ks ==> x <= k;
    } else {
      var rest := ks - {x};
      HasMinimum(rest);
      var m :| m in rest && forall k :: k in rest ==> m <= k;
      var least := if x < m then x else m;
      forall k | k in ks
        ensures least <= k
      {
        if k != x {
          assert k in rest;
        }
      }
      assert least in ks;
    }
  }

  lemma {:induction false} HasMaximum(ks: set<int>)
    requires ks != {}
    ensures exists m :: m in ks && forall k :: k in ks ==> k <= m
    decreases ks
  {
    var x := Pick(ks);
    if ks == {x} {
      assert forall k :: k in ks ==> k <= x;
    } else {
      var rest := ks - {x};
      HasMaximum(rest);
      var m :| m in rest && forall k :: k in rest ==> k <= m;
      var greatest := if m < x then x else m;
      forall k | k in ks
        ensures k <= greatest
      {
        if k != x {
          assert k in rest;
        }
      }
      assert greatest in ks;
    }
  }

  /** The least key of a non-empty set. */
  function Min(ks: set<int>): (m: int)
    requires ks != {}
    ensures m in ks
    ensures forall k :: k in ks ==> m <= k
  {
    HasMinimum(ks);
    var m :| m in ks && forall k :: k in ks ==> m <= k;
    m
  }

  /** The greatest key of a non-empty set. */
  function Max(ks: set<int>): (m: int)
    requires ks != {}
    ensures m in ks
    ensures forall k :: k in ks ==> k <= m
  {
    HasMaximum(ks);
    var m :| m in ks && forall k :: k in ks ==> k <= m;
    m
  }

  /** Putting the least key in front of an ascending enumeration of the
      others enumerates the whole set in ascending order. */
  lemma PrependMin(ks: set<int>, m: int, rest: seq<int>)
    requires m in ks
    requires forall k :: k in ks ==> m <= k
    requires |rest| == |ks - {m}|
    requires forall k :: k in rest <==> k in ks - {m}
    requires Increasing(rest)
    ensures |[m] + rest| == |ks|
    ensures forall k :: k in [m] + rest <==> k in ks
    ensures Increasing([m] + rest)
  {
    var r := [m] + rest;
    forall i, j | 0 <= i < j < |r|
      ensures r[i] < r[j]
    {
      assert r[j] == rest[j - 1];
      assert rest[j - 1] in rest;
      if i > 0 {
        assert r[i] == rest[i - 1];
      }
    }
  }

  /** Every key of `ks` exactly once, in ascending order. */
  function Sorted(ks: set<int>): (r: seq<int>)
    ensures |r| == |ks|
    ensures forall k :: k in r <==> k in ks
    ensures Increasing(r)
    decreases ks
  {
    if ks == {} then []
    else
      var m := Min(ks);
      var rest := Sorted(ks - {m});
      PrependMin(ks, m, rest);
      [m] + rest
  }
}
