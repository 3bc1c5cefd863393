/**
 * Sums over finite sets of keys. SQL's SUM aggregate and the loops that total
 * a dictionary's values are both modelled by `SetSum`, which folds a term over
 * the keys in an unspecified order; `SetSumRemove` shows the order is irrelevant.
 */
module Sums {

  /** A non-empty set has a member; loops that take keys out of a set one at a time use it. */
  lemma MemberOf<K>(keys: set<K>) returns (k: K)
    requires keys != {}
    ensures k in keys
  {
    k :| k in keys;
  }

  ghost function SetSum<K>(keys: set<K>, f: K -> real): real
    decreases keys
  {
    if keys == {} then 0.0
    else
      var k :| k in keys;
      f(k) + SetSum(keys - {k}, f)
  }

  /** Any key may be taken out first: the fold does not depend on the order. */
  lemma {:induction false} SetSumRemove<K>(keys: set<K>, f: K -> real, k: K)
    requires k in keys
    ensures SetSum(keys, f) == f(k) + SetSum(keys - {k}, f)
    decreases keys
  {
    var j :| j in keys && SetSum(keys, f) == f(j) + SetSum(keys - {j}, f);
    if j != k {
      SetSumRemove(keys - {j}, f, k);
      SetSumRemove(keys - {k}, f, j);
      assert keys - {j} - {k} == keys - {k} - {j};
    }
  }

  /** Adding a key that is not yet present adds its term. */
  lemma SetSumInsert<K>(keys: set<K>, f: K -> real, k: K)
    requires k !in keys
    ensures SetSum(keys + {k}, f) == f(k) + SetSum(keys, f)
  {
    SetSumRemove(keys + {k}, f, k);
    assert keys + {k} - {k} == keys;
  }

  /** Two terms that agree on every key have the same sum. */
  lemma {:induction false} SetSumAgree<K>(keys: set<K>, f: K -> real, g: K -> real)
    requires forall k :: k in keys ==> f(k) == g(k)
    ensures SetSum(keys, f) == SetSum(keys, g)
    decreases keys
  {
    if keys != {} {
      var k := MemberOf(keys);
      SetSumRemove(keys, f, k);
      SetSumRemove(keys, g, k);
      SetSumAgree(keys - {k}, f, g);
    }
  }

  /** Terms that are zero on every key sum to zero. */
  lemma {:induction false} SetSumZero<K>(keys: set<K>, f: K -> real)
    requires forall k :: k in keys ==> f(k) == 0.0
    ensures SetSum(keys, f) == 0.0
    decreases keys
  {
    if keys != {} {
      var k := MemberOf(keys);
      SetSumRemove(keys, f, k);
      SetSumZero(keys - {k}, f);
    }
  }

  /** Changing the term of one key changes the sum by the same amount. */
  lemma SetSumUpdate<K>(keys: set<K>, f: K -> real, g: K -> real, k: K)
    requires k in keys
    requires forall j :: j in keys && j != k ==> f(j) == g(j)
    ensures SetSum(keys, g) == SetSum(keys, f) - f(k) + g(k)
  {
    SetSumRemove(keys, f, k);
    SetSumRemove(keys, g, k);
    SetSumAgree(keys - {k}, f, g);
  }

  /** A constant factor can be taken out of the sum. */
  lemma {:induction false} SetSumScale<K>(keys: set<K>, f: K -> real, g: K -> real, c: real)
    requires forall k :: k in keys ==> g(k) == c * f(k)
    ensures SetSum(keys, g) == c * SetSum(keys, f)
    decreases keys
  {
    if keys != {} {
      var k := MemberOf(keys);
      var restF, restG := SetSum(keys - {k}, f), SetSum(keys - {k}, g);
      assert SetSum(keys, f) == f(k) + restF by {
        SetSumRemove(keys, f, k);
      }
      assert SetSum(keys, g) == g(k) + restG by {
        SetSumRemove(keys, g, k);
      }
      assert restG == c * restF by {
        SetSumScale(keys - {k}, f, g, c);
      }
      ScaleStep(c, f(k), g(k), restF, restG);
    }
  }

  lemma ScaleStep(c: real, fk: real, gk: real, restF: real, restG: real)
    requires gk == c * fk && restG == c * restF
    ensures gk + restG == c * (fk + restF)
  {
  }
}
