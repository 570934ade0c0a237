/** Integer multiples in an abelian group given by its operations. */
module AbelianGroup {
  datatype Group<!T> = Group(mem: T -> bool, add: (T, T) -> T, zero: T, neg: T -> T)

  // The laws, one instance at a time: the proofs below name the instances they use.

  predicate Commutes<T(==)>(g: Group<T>, a: T, b: T) {
    g.mem(a) && g.mem(b) ==> g.mem(g.add(a, b)) && g.add(a, b) == g.add(b, a)
  }

  predicate Associates<T(==)>(g: Group<T>, a: T, b: T, c: T) {
    g.mem(a) && g.mem(b) && g.mem(c) ==> g.add(g.add(a, b), c) == g.add(a, g.add(b, c))
  }

  predicate Inverts<T(==)>(g: Group<T>, a: T) {
    g.mem(a) ==> g.add(a, g.zero) == a && g.mem(g.neg(a)) && g.add(a, g.neg(a)) == g.zero
  }

  ghost predicate Abelian<T(!new)>(g: Group<T>) {
    && g.mem(g.zero)
    && (forall a, b :: Commutes(g, a, b))
    && (forall a, b, c :: Associates(g, a, b, c))
    && (forall a :: Inverts(g, a))
  }

  lemma Add<T(!new)>(g: Group<T>, a: T, b: T)
    requires Abelian(g) && g.mem(a) && g.mem(b)
    ensures g.mem(g.add(a, b)) && g.add(a, b) == g.add(b, a)
  {
    assert Commutes(g, a, b);
  }

  lemma Assoc<T(!new)>(g: Group<T>, a: T, b: T, c: T)
    requires Abelian(g) && g.mem(a) && g.mem(b) && g.mem(c)
    ensures g.add(g.add(a, b), c) == g.add(a, g.add(b, c))
  {
    assert Associates(g, a, b, c);
  }

  lemma Zero<T(!new)>(g: Group<T>)
    requires Abelian(g)
    ensures g.mem(g.zero)
  {}

  lemma Neg<T(!new)>(g: Group<T>, a: T)
    requires Abelian(g) && g.mem(a)
    ensures g.add(a, g.zero) == a && g.mem(g.neg(a)) && g.add(a, g.neg(a)) == g.zero
  {
    assert Inverts(g, a);
  }

  /** `n` times `a`, for any integer `n`. */
  ghost function Times<T>(g: Group<T>, n: int, a: T): T
    decreases if n < 0 then -n else n
  {
    if n == 0 then g.zero
    else if n > 0 then g.add(Times(g, n - 1, a), a)
    else g.add(Times(g, n + 1, a), g.neg(a))
  }

  lemma {:induction false} TimesMem<T(!new)>(g: Group<T>, n: int, a: T)
    requires Abelian(g) && g.mem(a)
    ensures g.mem(Times(g, n, a))
    decreases if n < 0 then -n else n
  {
    hide Abelian;
    Zero(g);
    Neg(g, a);
    if n > 0 {
      TimesMem(g, n - 1, a);
      Add(g, Times(g, n - 1, a), a);
    } else if n < 0 {
      TimesMem(g, n + 1, a);
      Add(g, Times(g, n + 1, a), g.neg(a));
    }
  }

  lemma TimesSucc<T(!new)>(g: Group<T>, n: int, a: T)
    requires Abelian(g) && g.mem(a)
    ensures Times(g, n + 1, a) == g.add(Times(g, n, a), a)
  {
    hide Abelian;
    if n < 0 {
      TimesMem(g, n + 1, a);
      Neg(g, a);
      Add(g, g.neg(a), a);
      Assoc(g, Times(g, n + 1, a), g.neg(a), a);
      Neg(g, Times(g, n + 1, a));
    }
  }

  lemma TimesPred<T(!new)>(g: Group<T>, n: int, a: T)
    requires Abelian(g) && g.mem(a)
    ensures Times(g, n - 1, a) == g.add(Times(g, n, a), g.neg(a))
  {
    hide Abelian;
    if n > 0 {
      TimesMem(g, n - 1, a);
      Neg(g, a);
      Assoc(g, Times(g, n - 1, a), a, g.neg(a));
      Neg(g, Times(g, n - 1, a));
    }
  }

  lemma {:induction false} TimesAdd<T(!new)>(g: Group<T>, m: int, n: int, a: T)
    requires Abelian(g) && g.mem(a)
    ensures Times(g, m + n, a) == g.add(Times(g, m, a), Times(g, n, a))
    decreases if n < 0 then -n else n
  {
    hide Abelian;
    TimesMem(g, m, a);
    Neg(g, a);
    if n == 0 {
      Neg(g, Times(g, m, a));
    } else if n > 0 {
      TimesAdd(g, m, n - 1, a);
      TimesSucc(g, m + n - 1, a);
      TimesMem(g, n - 1, a);
      Assoc(g, Times(g, m, a), Times(g, n - 1, a), a);
    } else {
      TimesAdd(g, m, n + 1, a);
      TimesPred(g, m + n + 1, a);
      TimesMem(g, n + 1, a);
      Assoc(g, Times(g, m, a), Times(g, n + 1, a), g.neg(a));
    }
  }

  lemma NegUnique<T(!new)>(g: Group<T>, a: T, b: T)
    requires Abelian(g) && g.mem(a) && g.mem(b) && g.add(b, a) == g.zero
    ensures b == g.neg(a)
  {
    hide Abelian;
    Neg(g, a);
    Neg(g, b);
    Zero(g);
    Assoc(g, b, a, g.neg(a));
    Add(g, g.zero, g.neg(a));
    Neg(g, g.neg(a));
  }

  lemma TimesNeg<T(!new)>(g: Group<T>, n: int, a: T)
    requires Abelian(g) && g.mem(a)
    ensures Times(g, -n, a) == g.neg(Times(g, n, a))
  {
    hide Abelian;
    TimesMem(g, n, a);
    TimesMem(g, -n, a);
    TimesAdd(g, -n, n, a);
    NegUnique(g, Times(g, n, a), Times(g, -n, a));
  }

  lemma {:induction false} TimesMul<T(!new)>(g: Group<T>, m: int, n: int, a: T)
    requires Abelian(g) && g.mem(a)
    ensures Times(g, m * n, a) == Times(g, m, Times(g, n, a))
    decreases if m < 0 then -m else m
  {
    hide Abelian;
    TimesMem(g, n, a);
    if m > 0 {
      TimesMul(g, m - 1, n, a);
      TimesAdd(g, (m - 1) * n, n, a);
      assert (m - 1) * n + n == m * n;
    } else if m < 0 {
      TimesMul(g, m + 1, n, a);
      TimesAdd(g, (m + 1) * n, -n, a);
      assert (m + 1) * n - n == m * n;
      TimesNeg(g, n, a);
    }
  }

  lemma Regroup<T(!new)>(g: Group<T>, s: T, t: T, a: T, b: T)
    requires Abelian(g) && g.mem(s) && g.mem(t) && g.mem(a) && g.mem(b)
    ensures g.add(g.add(s, t), g.add(a, b)) == g.add(g.add(s, a), g.add(t, b))
  {
    hide Abelian;
    Add(g, a, b);
    Add(g, t, b);
    Add(g, t, a);
    Assoc(g, s, t, g.add(a, b));
    Assoc(g, t, a, b);
    Assoc(g, a, t, b);
    Assoc(g, s, a, g.add(t, b));
  }

  lemma {:induction false} TimesDistribute<T(!new)>(g: Group<T>, n: nat, a: T, b: T)
    requires Abelian(g) && g.mem(a) && g.mem(b)
    ensures Times(g, n, g.add(a, b)) == g.add(Times(g, n, a), Times(g, n, b))
  {
    hide Abelian;
    Zero(g);
    Neg(g, g.zero);
    if n > 0 {
      TimesDistribute(g, n - 1, a, b);
      TimesMem(g, n - 1, a);
      TimesMem(g, n - 1, b);
      Regroup(g, Times(g, n - 1, a), Times(g, n - 1, b), a, b);
    }
  }

  lemma {:induction false} TimesZero<T(!new)>(g: Group<T>, n: int)
    requires Abelian(g)
    ensures Times(g, n, g.zero) == g.zero
    decreases if n < 0 then -n else n
  {
    hide Abelian;
    Zero(g);
    Neg(g, g.zero);
    if n > 0 {
      TimesZero(g, n - 1);
    } else if n < 0 {
      TimesZero(g, n + 1);
    }
  }

  /** When `order` annihilates `a`, only the residue of the multiplier matters. */
  lemma TimesMod<T(!new)>(g: Group<T>, order: int, n: int, a: T)
    requires Abelian(g) && g.mem(a) && order > 0 && Times(g, order, a) == g.zero
    ensures Times(g, n % order, a) == Times(g, n, a)
  {
    hide Abelian;
    var q := n / order;
    TimesMul(g, q, order, a);
    TimesZero(g, q);
    assert n == q * order + n % order;
    TimesAdd(g, q * order, n % order, a);
    TimesMem(g, n % order, a);
    Neg(g, Times(g, n % order, a));
    Zero(g);
    Add(g, g.zero, Times(g, n % order, a));
  }
}
