/** Polynomials in one variable, as coefficient vectors with the constant first: evaluation, products, division by a
    linear factor, and the bound on the number of roots. */
module Polynomials {
  import opened Field
  import opened Vectors

  function Eval(p: Vec, x: Fp): Fp
  {
    if p == [] then 0 else Add(p[0], Mul(x, Eval(p[1..], x)))
  }

  predicate IsZero(p: Vec) { forall i :: 0 <= i < |p| ==> p[i] == 0 }

  function VSub(a: Vec, b: Vec): (r: Vec)
    requires |a| == |b|
    ensures |r| == |a|
  {
    seq(|a|, i requires 0 <= i < |a| => Sub(a[i], b[i]))
  }

  lemma AddCoeff(a: Fp, b: Fp, x: Fp, p: Fp, q: Fp)
    ensures Add(Add(a, b), Mul(x, Add(p, q)))
       == Add(Add(a, Mul(x, p)), Add(b, Mul(x, q)))
  {
    Same(ZAdd(ZAdd(a, b), ZMul(x, ZAdd(p, q))),
         ZAdd(ZAdd(a, ZMul(x, p)), ZAdd(b, ZMul(x, q))));
    hide *;
    Ring(a, b, x, p, q);
  }

  lemma SubCoeff(a: Fp, b: Fp, x: Fp, p: Fp, q: Fp)
    ensures Add(Sub(a, b), Mul(x, Sub(p, q)))
       == Sub(Add(a, Mul(x, p)), Add(b, Mul(x, q)))
  {
    Same(ZAdd(ZSub(a, b), ZMul(x, ZSub(p, q))),
         ZSub(ZAdd(a, ZMul(x, p)), ZAdd(b, ZMul(x, q))));
    hide *;
    Ring(a, b, x, p, q);
  }

  lemma {:induction false} EvalAdd(p: Vec, q: Vec, x: Fp)
    requires |p| == |q|
    ensures Eval(VAdd(p, q), x) == Add(Eval(p, x), Eval(q, x))
  {
    if p == [] {
      Units(0);
    } else {
      EvalAdd(p[1..], q[1..], x);
      assert VAdd(p, q)[1..] == VAdd(p[1..], q[1..]);
      AddCoeff(p[0], q[0], x, Eval(p[1..], x), Eval(q[1..], x));
    }
  }

  lemma {:induction false} EvalSub(p: Vec, q: Vec, x: Fp)
    requires |p| == |q|
    ensures Eval(VSub(p, q), x) == Sub(Eval(p, x), Eval(q, x))
  {
    if p == [] {
      Units(0);
    } else {
      EvalSub(p[1..], q[1..], x);
      assert VSub(p, q)[1..] == VSub(p[1..], q[1..]);
      SubCoeff(p[0], q[0], x, Eval(p[1..], x), Eval(q[1..], x));
    }
  }

  lemma {:induction false} EvalScale(c: Fp, p: Vec, x: Fp)
    ensures Eval(Scale(c, p), x) == Mul(c, Eval(p, x))
  {
    if p == [] {
      Units(c);
    } else {
      EvalScale(c, p[1..], x);
      assert Scale(c, p)[1..] == Scale(c, p[1..]);
      PullFactor(c, p[0], x, Eval(p[1..], x));
    }
  }

  lemma {:induction false} EvalZero(p: Vec, x: Fp)
    requires IsZero(p)
    ensures Eval(p, x) == 0
  {
    if p != [] {
      EvalZero(p[1..], x);
      Units(x);
      Units(0);
    }
  }

  /** Trailing zeros do not matter. */
  lemma {:induction false} EvalPad(p: Vec, z: Vec, x: Fp)
    requires IsZero(z)
    ensures Eval(p + z, x) == Eval(p, x)
  {
    if p == [] {
      assert p + z == z;
      EvalZero(z, x);
    } else {
      assert (p + z)[1..] == p[1..] + z;
      EvalPad(p[1..], z, x);
    }
  }

  lemma EvalShift(p: Vec, x: Fp)
    ensures Eval([0] + p, x) == Mul(x, Eval(p, x))
  {
    assert ([0] + p)[1..] == p;
    Units(Mul(x, Eval(p, x)));
  }

  /** Multiplication; the degrees add. */
  function PMul(p: Vec, q: Vec): (r: Vec)
    requires |p| >= 1 && |q| >= 1
    ensures |r| == |p| + |q| - 1
  {
    if |p| == 1 then Scale(p[0], q)
    else VAdd(Scale(p[0], q) + Zeros(|p| - 1), [0] + PMul(p[1..], q))
  }

  lemma MulCoeff(a: Fp, y: Fp, x: Fp, p: Fp)
    ensures Add(Mul(a, y), Mul(x, Mul(p, y)))
       == Mul(Add(a, Mul(x, p)), y)
  {
    Same(ZAdd(ZMul(a, y), ZMul(x, ZMul(p, y))),
         ZMul(ZAdd(a, ZMul(x, p)), y));
    hide *;
    Ring(a, y, x, p);
  }

  lemma {:induction false} EvalMul(p: Vec, q: Vec, x: Fp)
    requires |p| >= 1 && |q| >= 1
    ensures Eval(PMul(p, q), x) == Mul(Eval(p, x), Eval(q, x))
  {
    EvalScale(p[0], q, x);
    if |p| == 1 {
      assert p[1..] == [];
      Units(x);
      Units(p[0]);
    } else {
      EvalMul(p[1..], q, x);
      EvalAdd(Scale(p[0], q) + Zeros(|p| - 1), [0] + PMul(p[1..], q), x);
      EvalPad(Scale(p[0], q), Zeros(|p| - 1), x);
      EvalShift(PMul(p[1..], q), x);
      MulCoeff(p[0], Eval(q, x), x, Eval(p[1..], x));
    }
  }

  // ----- roots -----

  /** The quotient by (X - a). */
  function Deflate(p: Vec, a: Fp): (q: Vec)
    requires |p| >= 1
    ensures |q| == |p| - 1
  {
    if |p| == 1 then [] else [Eval(p[1..], a)] + Deflate(p[1..], a)
  }

  lemma DeflateStep(p0: Fp, x: Fp, a: Fp, v: Fp, q: Fp)
    ensures Add(p0, Mul(x, Add(v, Mul(Sub(x, a), q))))
       == Add(Add(p0, Mul(a, v)), Mul(Sub(x, a), Add(v, Mul(x, q))))
  {
    Same(ZAdd(p0, ZMul(x, ZAdd(v, ZMul(ZSub(x, a), q)))),
         ZAdd(ZAdd(p0, ZMul(a, v)), ZMul(ZSub(x, a), ZAdd(v, ZMul(x, q)))));
    hide *;
    Ring(p0, x, a, v, q);
  }

  lemma {:induction false} DeflateDivides(p: Vec, a: Fp, x: Fp)
    requires |p| >= 1
    ensures Eval(p, x) == Add(Eval(p, a), Mul(Sub(x, a), Eval(Deflate(p, a), x)))
  {
    if |p| == 1 {
      assert p[1..] == [];
      Units(x); Units(a); Units(Sub(x, a)); Units(p[0]);
    } else {
      DeflateDivides(p[1..], a, x);
      var q := Deflate(p, a);
      assert q[1..] == Deflate(p[1..], a);
      DeflateStep(p[0], x, a, Eval(p[1..], a), Eval(q[1..], x));
    }
  }

  lemma {:induction false} DeflateZero(p: Vec, a: Fp)
    requires |p| >= 1 && IsZero(Deflate(p, a)) && Eval(p, a) == 0
    ensures IsZero(p)
  {
    if |p| == 1 {
      assert p[1..] == [];
      Units(a);
      Units(p[0]);
    } else {
      var q := Deflate(p, a);
      assert q[0] == Eval(p[1..], a) && q[1..] == Deflate(p[1..], a);
      assert forall i :: 0 <= i < |q[1..]| ==> q[1..][i] == q[i + 1];
      DeflateZero(p[1..], a);
      Units(a);
      Units(p[0]);
      forall i | 0 <= i < |p| ensures p[i] == 0 {
        if i > 0 { assert p[i] == p[1..][i - 1]; }
      }
    }
  }

  predicate Distinct(s: seq<Fp>) { forall i, j :: 0 <= i < j < |s| ==> s[i] != s[j] }

  predicate RootsOf(p: Vec, s: seq<Fp>) { forall i :: 0 <= i < |s| ==> Eval(p, s[i]) == 0 }

  /** A polynomial with as many distinct roots as coefficients is zero. */
  lemma {:induction false} RootBound(p: Vec, roots: seq<Fp>)
    requires |roots| >= |p| && Distinct(roots) && RootsOf(p, roots)
    ensures IsZero(p)
    decreases |p|
  {
    hide Eval, Deflate;
    if p != [] {
      var a, rest := roots[0], roots[1..];
      var q := Deflate(p, a);
      forall i | 0 <= i < |rest| ensures Eval(q, rest[i]) == 0 {
        assert rest[i] == roots[i + 1];
        DeflateDivides(p, a, rest[i]);
        Units(Mul(Sub(rest[i], a), Eval(q, rest[i])));
        NoZeroDivisors(Sub(rest[i], a), Eval(q, rest[i]));
        if Sub(rest[i], a) == 0 { SubZero(rest[i], a); }
      }
      RootBound(q, rest);
      DeflateZero(p, a);
    }
  }

  /** Agreement at as many points as coefficients is equality. */
  lemma Unique(p: Vec, q: Vec, points: seq<Fp>)
    requires |p| == |q| <= |points| && Distinct(points)
    requires forall i :: 0 <= i < |points| ==> Eval(p, points[i]) == Eval(q, points[i])
    ensures p == q
  {
    hide Eval;
    var d := VSub(p, q);
    forall i | 0 <= i < |points| ensures Eval(d, points[i]) == 0 {
      EvalSub(p, q, points[i]);
      Units(Eval(p, points[i]));
    }
    RootBound(d, points);
    forall i | 0 <= i < |p| ensures p[i] == q[i] {
      assert d[i] == 0;
      SubZero(p[i], q[i]);
    }
  }

  /** The leading coefficient of a product. */
  lemma {:induction false} LeadMul(p: Vec, q: Vec)
    requires |p| >= 1 && |q| >= 1
    ensures PMul(p, q)[|p| + |q| - 2] == Mul(p[|p| - 1], q[|q| - 1])
  {
    if |p| > 1 {
      LeadMul(p[1..], q);
      Units(Mul(p[|p| - 1], q[|q| - 1]));
      var s := Scale(p[0], q) + Zeros(|p| - 1);
      assert s[|p| + |q| - 2] == 0;
    }
  }
}
