/** Multiples of an element of an abelian group, the setting of the scalar multiplications. */
module Groups {
  import opened Bits

  /** The operations of a group, as values. */
  datatype Group<!T> = Group(zero: T, add: (T, T) -> T, neg: T -> T)

  ghost predicate Abelian<T(!new)>(g: Group<T>) {
    && (forall x, y :: g.add(x, y) == g.add(y, x))
    && (forall x, y, z :: g.add(x, g.add(y, z)) == g.add(g.add(x, y), z))
    && (forall x :: g.add(x, g.zero) == x)
    && (forall x :: g.add(x, g.neg(x)) == g.zero)
  }

  /** n x, for n of either sign. */
  function Times<T>(g: Group<T>, n: int, x: T): T
    decreases Abs(n), n < 0
  {
    if n == 0 then g.zero
    else if n > 0 then g.add(Times(g, n - 1, x), x)
    else g.neg(Times(g, -n, x))
  }

  lemma Swap<T(!new)>(g: Group<T>, a: T, b: T, c: T, d: T)
    requires Abelian(g)
    ensures g.add(g.add(a, b), g.add(c, d)) == g.add(g.add(a, c), g.add(b, d))
  {
    assert g.add(g.add(a, b), g.add(c, d)) == g.add(a, g.add(b, g.add(c, d)));
    assert g.add(b, g.add(c, d)) == g.add(g.add(b, c), d) == g.add(g.add(c, b), d) == g.add(c, g.add(b, d));
    assert g.add(a, g.add(c, g.add(b, d))) == g.add(g.add(a, c), g.add(b, d));
  }

  lemma AddAssociates<T(!new)>(g: Group<T>, x: T, y: T, z: T)
    requires Abelian(g)
    ensures g.add(g.add(x, y), z) == g.add(x, g.add(y, z)) && g.add(x, g.zero) == x
  {
  }

  lemma NegUnique<T(!new)>(g: Group<T>, x: T, y: T)
    requires Abelian(g) && g.add(x, y) == g.zero
    ensures y == g.neg(x)
  {
    assert g.add(g.add(g.neg(x), x), y) == g.add(g.neg(x), g.add(x, y));
    assert g.add(g.neg(x), x) == g.zero;
    assert g.add(g.zero, y) == g.add(y, g.zero);
  }

  lemma TimesSuccessor<T(!new)>(g: Group<T>, n: int, x: T)
    requires Abelian(g)
    ensures Times(g, n + 1, x) == g.add(Times(g, n, x), x)
  {
    if n < 0 {
      var u := Times(g, -n - 1, x);
      assert Times(g, -n, x) == g.add(u, x);
      var v := g.neg(g.add(u, x));
      assert g.add(u, g.add(x, v)) == g.add(g.add(u, x), v) == g.zero;
      NegUnique(g, u, g.add(x, v));
      assert g.add(v, x) == g.add(x, v);
      if n == -1 {
        NegUnique(g, g.zero, g.zero);
      }
    }
  }

  /** (m + n) x = m x + n x */
  lemma {:induction false} TimesAdd<T(!new)>(g: Group<T>, m: int, n: int, x: T)
    requires Abelian(g)
    ensures Times(g, m + n, x) == g.add(Times(g, m, x), Times(g, n, x))
    decreases Abs(n)
  {
    hide Abelian;
    var u, v := Times(g, m, x), Times(g, n, x);
    AddAssociates(g, u, v, x);
    if n > 0 {
      TimesAdd(g, m, n - 1, x);
      TimesSuccessor(g, m + n - 1, x);
      AddAssociates(g, u, Times(g, n - 1, x), x);
    } else if n < 0 {
      TimesAdd(g, m, n + 1, x);
      TimesSuccessor(g, m + n, x);
      TimesSuccessor(g, n, x);
      Cancel(g, Times(g, m + n, x), g.add(u, v), x);
    }
  }

  lemma Cancel<T(!new)>(g: Group<T>, a: T, b: T, x: T)
    requires Abelian(g) && g.add(a, x) == g.add(b, x)
    ensures a == b
  {
    assert g.add(g.add(a, x), g.neg(x)) == g.add(a, g.add(x, g.neg(x))) == a;
    assert g.add(g.add(b, x), g.neg(x)) == g.add(b, g.add(x, g.neg(x))) == b;
  }

  lemma TimesNeg<T(!new)>(g: Group<T>, n: int, x: T)
    requires Abelian(g)
    ensures Times(g, -n, x) == g.neg(Times(g, n, x))
  {
    TimesAdd(g, n, -n, x);
    NegUnique(g, Times(g, n, x), Times(g, -n, x));
  }

  /** m (n x) = (m n) x */
  lemma {:induction false} TimesTimes<T(!new)>(g: Group<T>, m: nat, n: int, x: T)
    requires Abelian(g)
    ensures Times(g, m, Times(g, n, x)) == Times(g, m * n, x)
  {
    hide Abelian;
    if m > 0 {
      var k := (m - 1) * n;
      assert m * n == k + n;
      TimesTimes(g, m - 1, n, x);
      TimesAdd(g, k, n, x);
    }
  }
}
