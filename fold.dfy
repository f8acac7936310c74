/** Summing a value over the keys of a finite set, independent of the order
    in which the keys are visited: the model of `Object.keys(o).forEach`
    loops that accumulate a total. */
module Fold {

  ghost function SumOver<K>(keys: set<K>, f: K -> nat): nat
    decreases keys
  {
    if keys == {} then 0
    else
      var k :| k in keys;
      f(k) + SumOver(keys - {k}, f)
  }

  /** Any key may be taken out first: the sum does not depend on the order. */
  lemma {:induction false} SumOverRemove<K>(keys: set<K>, k: K, f: K -> nat)
    requires k in keys
    ensures SumOver(keys, f) == f(k) + SumOver(keys - {k}, f)
    decreases keys
  {
    var j :| j in keys && SumOver(keys, f) == f(j) + SumOver(keys - {j}, f);
    if j != k {
      SumOverRemove(keys - {j}, k, f);
      SumOverRemove(keys - {k}, j, f);
      assert keys - {j} - {k} == keys - {k} - {j};
    }
  }
}
