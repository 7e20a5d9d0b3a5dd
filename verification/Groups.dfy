/** An arbitrary commutative group, given by its operations, and integer multiples in it. */
module Groups {

  datatype Group<!G> = Group(zero: G, add: (G, G) -> G, neg: G -> G)

  ghost predicate AssocAt<G>(g: Group<G>, a: G, b: G, c: G) {
    g.add(g.add(a, b), c) == g.add(a, g.add(b, c))
  }

  ghost predicate CommAt<G>(g: Group<G>, a: G, b: G) {
    g.add(a, b) == g.add(b, a)
  }

  ghost predicate UnitAt<G>(g: Group<G>, a: G) {
    g.add(a, g.zero) == a && g.add(a, g.neg(a)) == g.zero
  }

  ghost predicate IsAbelian<G(!new)>(g: Group<G>) {
    && (forall a, b, c :: AssocAt(g, a, b, c))
    && (forall a, b :: CommAt(g, a, b))
    && (forall a :: UnitAt(g, a))
  }

  /** `n` copies of `p` added up: the scalar multiple [n]p, with no reduction of `n`. */
  ghost function Times<G>(g: Group<G>, n: nat, p: G): G {
    if n == 0 then g.zero else g.add(p, Times(g, n - 1, p))
  }

  lemma Assoc<G(!new)>(g: Group<G>, a: G, b: G, c: G)
    requires IsAbelian(g)
    ensures g.add(g.add(a, b), c) == g.add(a, g.add(b, c))
  {
    assert AssocAt(g, a, b, c);
  }

  lemma Comm<G(!new)>(g: Group<G>, a: G, b: G)
    requires IsAbelian(g)
    ensures g.add(a, b) == g.add(b, a)
  {
    assert CommAt(g, a, b);
  }

  lemma Zero<G(!new)>(g: Group<G>, a: G)
    requires IsAbelian(g)
    ensures g.add(a, g.zero) == a && g.add(g.zero, a) == a && g.add(a, g.neg(a)) == g.zero
  {
    assert UnitAt(g, a);
    Comm(g, a, g.zero);
  }

  lemma {:induction false} TimesAdd<G(!new)>(g: Group<G>, m: nat, n: nat, p: G)
    requires IsAbelian(g)
    ensures Times(g, m + n, p) == g.add(Times(g, m, p), Times(g, n, p))
  {
    if m == 0 {
      Zero(g, Times(g, n, p));
    } else {
      TimesAdd(g, m - 1, n, p);
      Assoc(g, p, Times(g, m - 1, p), Times(g, n, p));
    }
  }

  lemma {:induction false} TimesMul<G(!new)>(g: Group<G>, m: nat, n: nat, p: G)
    requires IsAbelian(g)
    ensures Times(g, m * n, p) == Times(g, m, Times(g, n, p))
  {
    if m == 0 {
      assert m * n == 0;
    } else {
      TimesMul(g, m - 1, n, p);
      assert m * n == n + (m - 1) * n;
      TimesAdd(g, n, (m - 1) * n, p);
    }
  }

  lemma {:induction false} TimesDistributes<G(!new)>(g: Group<G>, n: nat, p: G, q: G)
    requires IsAbelian(g)
    ensures Times(g, n, g.add(p, q)) == g.add(Times(g, n, p), Times(g, n, q))
  {
    if n == 0 {
      Zero(g, g.zero);
    } else {
      TimesDistributes(g, n - 1, p, q);
      Swap4(g, p, q, Times(g, n - 1, p), Times(g, n - 1, q));
    }
  }

  lemma Swap4<G(!new)>(g: Group<G>, a: G, b: G, c: G, d: G)
    requires IsAbelian(g)
    ensures g.add(g.add(a, b), g.add(c, d)) == g.add(g.add(a, c), g.add(b, d))
  {
    calc {
      g.add(g.add(a, b), g.add(c, d));
      { Assoc(g, a, b, g.add(c, d)); }
      g.add(a, g.add(b, g.add(c, d)));
      { Assoc(g, b, c, d); Comm(g, b, c); Assoc(g, c, b, d); }
      g.add(a, g.add(c, g.add(b, d)));
      { Assoc(g, a, c, g.add(b, d)); }
      g.add(g.add(a, c), g.add(b, d));
    }
  }

  /** Adding a mask and taking it off again. */
  lemma AddThenSubtract<G(!new)>(g: Group<G>, a: G, b: G)
    requires IsAbelian(g)
    ensures g.add(g.add(a, b), g.neg(b)) == a
  {
    Assoc(g, a, b, g.neg(b));
    Zero(g, b);
    Zero(g, a);
  }

  lemma {:induction false} TimesZero<G(!new)>(g: Group<G>, n: nat)
    requires IsAbelian(g)
    ensures Times(g, n, g.zero) == g.zero
  {
    if n > 0 {
      TimesZero(g, n - 1);
      Zero(g, g.zero);
    }
  }

  lemma Cancel<G(!new)>(g: Group<G>, a: G, b: G, c: G)
    requires IsAbelian(g)
    ensures g.add(a, b) == g.add(a, c) <==> b == c
  {
    Comm(g, a, b);
    Comm(g, a, c);
    AddThenSubtract(g, b, a);
    AddThenSubtract(g, c, a);
  }

  /** Putting on `b` where `c` is taken off again is seen after `n`-fold addition exactly when [n]b and [n]c differ. */
  lemma MaskSwapped<G(!new)>(g: Group<G>, n: nat, a: G, b: G, c: G)
    requires IsAbelian(g)
    ensures Times(g, n, g.add(g.add(a, b), g.neg(c))) == Times(g, n, a) <==> Times(g, n, b) == Times(g, n, c)
  {
    var x := g.add(g.add(a, b), g.neg(c));
    assert g.add(x, c) == g.add(a, b) by {
      Assoc(g, g.add(a, b), g.neg(c), c);
      Comm(g, g.neg(c), c);
      Zero(g, c);
      Zero(g, g.add(a, b));
    }
    TimesDistributes(g, n, x, c);
    TimesDistributes(g, n, a, b);
    Cancel(g, Times(g, n, a), Times(g, n, b), Times(g, n, c));
    Comm(g, Times(g, n, x), Times(g, n, c));
    Comm(g, Times(g, n, a), Times(g, n, c));
    Cancel(g, Times(g, n, c), Times(g, n, x), Times(g, n, a));
  }
}
