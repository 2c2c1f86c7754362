/** Finite sums over sets of keys. They give meaning to "the total stock of a product across
    warehouses" and "the signed sum of the stored movements' effects on one balance". */
module Sums {

  /** The sum of f over the finite set ks, taking the elements in an arbitrary order. */
  ghost function Sum<K>(ks: set<K>, f: K -> int): int
    decreases ks
  {
    if ks == {} then 0 else var k :| k in ks; f(k) + Sum(ks - {k}, f)
  }

  /** Any element can be split off first: the sum does not depend on the order. */
  lemma {:induction false} SumRemove<K>(ks: set<K>, f: K -> int, k: K)
    requires k in ks
    ensures Sum(ks, f) == f(k) + Sum(ks - {k}, f)
    decreases ks
  {
    var j :| j in ks && Sum(ks, f) == f(j) + Sum(ks - {j}, f);
    if j != k {
      SumRemove(ks - {j}, f, k);
      SumRemove(ks - {k}, f, j);
      assert ks - {j} - {k} == ks - {k} - {j};
    }
  }

  /** Functions that agree on ks have the same sum over ks. */
  lemma {:induction false} SumAgree<K>(ks: set<K>, f: K -> int, g: K -> int)
    requires forall k :: k in ks ==> f(k) == g(k)
    ensures Sum(ks, f) == Sum(ks, g)
    decreases ks
  {
    if ks != {} {
      var k :| k in ks;
      SumRemove(ks, f, k);
      SumRemove(ks, g, k);
      SumAgree(ks - {k}, f, g);
    }
  }

  /** Changing f at one element k of ks changes the sum by exactly the difference at k. */
  lemma SumChangeAt<K>(ks: set<K>, f: K -> int, g: K -> int, k: K)
    requires k in ks
    requires forall j :: j in ks && j != k ==> f(j) == g(j)
    ensures Sum(ks, g) == Sum(ks, f) - f(k) + g(k)
  {
    SumRemove(ks, f, k);
    SumRemove(ks, g, k);
    SumAgree(ks - {k}, f, g);
  }

  /** Adding an element on which f is zero leaves the sum unchanged. */
  lemma SumAddZero<K>(ks: set<K>, f: K -> int, k: K)
    requires f(k) == 0
    ensures Sum(ks + {k}, f) == Sum(ks, f)
  {
    if k !in ks {
      SumRemove(ks + {k}, f, k);
      assert ks + {k} - {k} == ks;
    } else {
      assert ks + {k} == ks;
    }
  }

  /** Adding a fresh element k adds f(k). */
  lemma SumAddFresh<K>(ks: set<K>, f: K -> int, k: K)
    requires k !in ks
    ensures Sum(ks + {k}, f) == Sum(ks, f) + f(k)
  {
    SumRemove(ks + {k}, f, k);
    assert ks + {k} - {k} == ks;
  }
}
