/** Counting elements of finite sets. */
module Sets {

  lemma SubsetCounts<T>(small: set<T>, large: set<T>)
    requires small <= large
    ensures |small| <= |large|
  {
    assert large == small + (large - small);
  }

  lemma AtMostOne<T>(s: set<T>)
    requires forall x, y :: x in s && y in s ==> x == y
    ensures |s| <= 1
  {
    if s != {} {
      var x :| x in s;
      assert s == {x};
    }
  }

  /** An injective map has as many values as keys. */
  lemma {:induction false} InjectionCounts<K, V>(f: map<K, V>)
    requires forall x, y :: x in f && y in f && f[x] == f[y] ==> x == y
    ensures |f.Values| == |f|
    decreases |f|
  {
    if f == map[] {
    } else {
      var x :| x in f;
      var rest := f - {x};
      InjectionCounts(rest);
      forall v ensures v in f.Values <==> v in rest.Values || v == f[x] {
        if v in f.Values {
          var y :| y in f && f[y] == v;
          assert y != x ==> y in rest;
        }
      }
      assert f.Values == rest.Values + {f[x]} && f[x] !in rest.Values;
    }
  }
}
