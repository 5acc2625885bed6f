/** Sums of reals over finite sets of keys. */
module Sums {

  ghost function Sum<K(!new)>(keys: set<K>, f: K -> real): real {
    if keys == {} then 0.0
    else
      var k :| k in keys;
      f(k) + Sum(keys - {k}, f)
  }

  /** Any key may be taken out first. */
  lemma {:induction false} SumExtract<K(!new)>(keys: set<K>, f: K -> real, k: K)
    requires k in keys
    ensures Sum(keys, f) == f(k) + Sum(keys - {k}, f)
    decreases |keys|
  {
    var j :| j in keys && Sum(keys, f) == f(j) + Sum(keys - {j}, f);
    if j != k {
      SumExtract(keys - {j}, f, k);
      SumExtract(keys - {k}, f, j);
      assert keys - {j} - {k} == keys - {k} - {j};
    }
  }

  lemma SumInsert<K(!new)>(keys: set<K>, f: K -> real, k: K)
    requires k !in keys
    ensures Sum(keys + {k}, f) == Sum(keys, f) + f(k)
  {
    SumExtract(keys + {k}, f, k);
    assert keys + {k} - {k} == keys;
  }

  lemma {:induction false} SumSame<K(!new)>(keys: set<K>, f: K -> real, g: K -> real)
    requires forall k :: k in keys ==> f(k) == g(k)
    ensures Sum(keys, f) == Sum(keys, g)
    decreases |keys|
  {
    if keys == {} {
    } else {
      var k :| k in keys;
      SumExtract(keys, f, k);
      SumExtract(keys, g, k);
      SumSame(keys - {k}, f, g);
    }
  }

  /** Changing the summand at one key changes the sum by the difference there. */
  lemma SumChange<K(!new)>(keys: set<K>, f: K -> real, g: K -> real, k: K)
    requires k in keys && forall j :: j in keys && j != k ==> f(j) == g(j)
    ensures Sum(keys, g) == Sum(keys, f) - f(k) + g(k)
  {
    SumExtract(keys, f, k);
    SumExtract(keys, g, k);
    SumSame(keys - {k}, f, g);
  }

  lemma {:induction false} SumPlus<K(!new)>(keys: set<K>, f: K -> real, g: K -> real, h: K -> real)
    requires forall k :: k in keys ==> h(k) == f(k) + g(k)
    ensures Sum(keys, h) == Sum(keys, f) + Sum(keys, g)
    decreases |keys|
  {
    if keys == {} {
    } else {
      var k :| k in keys;
      SumExtract(keys, f, k);
      SumExtract(keys, g, k);
      SumExtract(keys, h, k);
      SumPlus(keys - {k}, f, g, h);
    }
  }

  lemma {:induction false} SumNonnegative<K(!new)>(keys: set<K>, f: K -> real)
    requires forall k :: k in keys ==> f(k) >= 0.0
    ensures Sum(keys, f) >= 0.0
    decreases |keys|
  {
    if keys != {} {
      var k :| k in keys && Sum(keys, f) == f(k) + Sum(keys - {k}, f);
      SumNonnegative(keys - {k}, f);
    }
  }

  /** New keys that bring nothing leave a sum as it is. */
  lemma {:induction false} SumOfMore<K(!new)>(keys: set<K>, more: set<K>, f: K -> real, g: K -> real)
    requires forall k :: k in keys ==> g(k) == f(k)
    requires forall k :: k in more ==> k !in keys && g(k) == 0.0
    ensures Sum(keys + more, g) == Sum(keys, f)
    decreases |more|
  {
    if more == {} {
      assert keys + more == keys;
      SumSame(keys, f, g);
    } else {
      var k :| k in more;
      SumOfMore(keys, more - {k}, f, g);
      SumInsert(keys + (more - {k}), g, k);
      assert keys + (more - {k}) + {k} == keys + more;
    }
  }
}
