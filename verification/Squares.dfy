/** The modulus is 3 modulo 4, so -1 is not a square. */
module Squares {
  import opened Field

  /** Multiplication by t moves s into itself. */
  ghost predicate Closed(s: set<Fp>, t: Fp) { forall x :: x in s ==> Mul(t, x) in s }

  lemma TurnTwice(t: Fp, x: Fp)
    ensures Mul(t, Mul(t, x))
       == Mul(Mul(t, t), x)
  {
    Same(ZMul(t, ZMul(t, x)),
         ZMul(ZMul(t, t), x));
    hide *;
    Ring(t, x);
  }

  lemma MulNeg(t: Fp, y: Fp)
    ensures Mul(t, Sub(0, y))
       == Sub(0, Mul(t, y))
  {
    Same(ZMul(t, ZSub(0, y)),
         ZSub(0, ZMul(t, y)));
    hide *;
    Ring(t, y);
  }

  lemma DoubleNeg(x: Fp)
    ensures Sub(0, Sub(0, x))
       == x
  {
    Same(ZSub(0, ZSub(0, x)),
         x);
    hide *;
    Ring(x);
  }

  lemma FromNeg(x: Fp)
    ensures Sub(x, Sub(0, x))
       == Add(x, x)
  {
    Same(ZSub(x, ZSub(0, x)),
         ZAdd(x, x));
    hide *;
    Ring(x);
  }

  lemma NotOwnNegative(x: Fp)
    requires x != 0
    ensures Neg(x) != x
  {
    if Neg(x) == x {
      FromNeg(x);
      Units(x);
      TwoNonzero(x);
    }
  }

  lemma RootNonzero(t: Fp)
    requires Mul(t, t) == Neg(1)
    ensures t != 0
  {
    Units(0);
    NegOneNonzero();
  }

  lemma NegOneNonzero()
    ensures Neg(1) != 0
  {
    if Neg(1) == 0 { SubZero(0, 1); }
  }

  /** The orbit of x under a square root of -1 has four elements. */
  lemma Orbit(t: Fp, x: Fp)
    requires Mul(t, t) == Neg(1) && x != 0
    ensures Mul(t, Mul(t, x)) == Neg(x) && Mul(t, Neg(x)) == Neg(Mul(t, x)) && Mul(t, Neg(Mul(t, x))) == x
    ensures |{x, Mul(t, x), Neg(x), Neg(Mul(t, x))}| == 4
  {
    var y := Mul(t, x);
    TurnTwice(t, x);
    NegOneTimes(x);
    TurnTwice(t, y);
    NegOneTimes(y);
    MulNeg(t, y);
    DoubleNeg(x);
    NotOwnNegative(x);
    RootNonzero(t);
    if y == 0 { NoZeroDivisors(t, x); }
    NotOwnNegative(y);
    DoubleNeg(y);
    assert x != y;
    assert |{x, y, Neg(x), Neg(y)}| == |{x, y, Neg(x)}| + 1 by { assert Neg(y) !in {x, y, Neg(x)}; }
    assert |{x, y, Neg(x)}| == |{x, y}| + 1 by { assert Neg(x) !in {x, y}; }
  }

  lemma {:induction false} OrbitCount(t: Fp, s: set<Fp>)
    requires Mul(t, t) == Neg(1) && 0 !in s && Closed(s, t)
    ensures |s| % 4 == 0
    decreases |s|
  {
    if x :| x in s {
      var y := Mul(t, x);
      Orbit(t, x);
      var orbit := {x, y, Neg(x), Neg(y)};
      assert y in s && Mul(t, y) in s && Mul(t, Neg(x)) in s;
      assert orbit <= s;
      var rest := s - orbit;
      forall z | z in rest ensures Mul(t, z) in rest {
        if Mul(t, z) in orbit {
          BackInOrbit(t, x, z);
        }
      }
      assert |rest| == |s| - |orbit|;
      OrbitCount(t, rest);
    }
  }

  lemma BackInOrbit(t: Fp, x: Fp, z: Fp)
    requires Mul(t, t) == Neg(1) && x != 0 && z != 0
    requires Mul(t, z) in {x, Mul(t, x), Neg(x), Neg(Mul(t, x))}
    ensures z in {x, Mul(t, x), Neg(x), Neg(Mul(t, x))}
  {
    Orbit(t, x);
    Orbit(t, z);
    var y := Mul(t, x);
    RootNonzero(t);
    if Mul(t, z) == x {
      CancelMul(z, Neg(y), t);
    } else if Mul(t, z) == y {
      CancelMul(z, x, t);
    } else if Mul(t, z) == Neg(x) {
      CancelMul(z, y, t);
    } else {
      CancelMul(z, Neg(x), t);
    }
  }

  /** The elements 1, ..., n. */
  ghost function UpTo(n: nat): (s: set<Fp>)
    requires n < P
  {
    if n == 0 then {} else assert InRange(n); UpTo(n - 1) + {n}
  }

  lemma {:induction false} UpToFacts(n: nat)
    requires n < P
    ensures |UpTo(n)| == n && forall x :: x in UpTo(n) <==> 1 <= x <= n
  {
    if n > 0 {
      UpToFacts(n - 1);
    }
  }

  lemma NoSquareRoot(t: Fp)
    ensures Mul(t, t) != Neg(1)
  {
    ModulusFacts();
    if Mul(t, t) == Neg(1) {
      var s := UpTo(P - 1);
      UpToFacts(P - 1);
      forall x | x in s ensures Mul(t, x) in s {
        Orbit(t, x);
        Units(t);
        Bounds(Mul(t, x));
        if Mul(t, x) == 0 {
          NegZero(x);
        }
      }
      OrbitCount(t, s);
    }
  }

  lemma NegZero(x: Fp)
    requires Neg(x) == 0
    ensures x == 0
  {
    SubZero(0, x);
  }

  lemma NegTimes(b: Fp, v: Fp)
    ensures Mul(Sub(0, Mul(b, b)), Mul(v, v))
       == Sub(0, Mul(Mul(b, v), Mul(b, v)))
  {
    Same(ZMul(ZSub(0, ZMul(b, b)), ZMul(v, v)),
         ZSub(0, ZMul(ZMul(b, v), ZMul(b, v))));
    hide *;
    Ring(b, v);
  }

  /** A sum of two squares vanishes only at zero. */
  lemma SumOfSquares(a: Fp, b: Fp)
    requires Add(Mul(a, a), Mul(b, b)) == 0
    ensures a == 0 && b == 0
  {
    hide Inv;
    AddSub(Mul(a, a), Mul(b, b));
    if b != 0 {
      var v := Inv(b);
      InvMul(b);
      SquareOfProduct(a, v);
      NegTimes(b, v);
      Units(1);
      NoSquareRoot(Mul(a, v));
    } else {
      Units(0);
      NoZeroDivisors(a, a);
    }
  }
}
