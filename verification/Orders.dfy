/** Least and greatest elements of finite sets in a total order. */
module Orders {
  ghost predicate Ordered<T(!new)>(less: (T, T) -> bool)
  {
    && (forall x :: !less(x, x))
    && (forall x, y, z :: less(x, y) && less(y, z) ==> less(x, z))
    && (forall x, y :: x == y || less(x, y) || less(y, x))
  }

  predicate IsLeast<T(==)>(less: (T, T) -> bool, s: set<T>, m: T)
  {
    m in s && forall x :: x in s ==> x == m || less(m, x)
  }

  predicate IsGreatest<T(==)>(less: (T, T) -> bool, s: set<T>, m: T)
  {
    m in s && forall x :: x in s ==> x == m || less(x, m)
  }

  lemma {:induction false} HasLeast<T(!new)>(less: (T, T) -> bool, s: set<T>)
    requires Ordered(less) && s != {}
    ensures exists m :: IsLeast(less, s, m)
  {
    var x :| x in s;
    if s == {x} {
      assert IsLeast(less, s, x);
    } else {
      HasLeast(less, s - {x});
      var m :| IsLeast(less, s - {x}, m);
      assert forall z :: z in s ==> z == x || z in s - {x};
      if less(x, m) {
        assert IsLeast(less, s, x);
      } else {
        assert less(m, x);
        assert IsLeast(less, s, m);
      }
    }
  }

  lemma HasGreatest<T(!new)>(less: (T, T) -> bool, s: set<T>)
    requires Ordered(less) && s != {}
    ensures exists m :: IsGreatest(less, s, m)
  {
    var flipped := (x, y) => less(y, x);
    HasLeast(flipped, s);
    var m :| IsLeast(flipped, s, m);
    assert IsGreatest(less, s, m);
  }
}
