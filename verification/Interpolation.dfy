/** Polynomial interpolation over an arbitrary field: the algebra behind
    "any K of N symbols determine the data". */
module Interpolation {
  import opened Basics

  datatype Field<!T> = Field(
    zero: T,
    one: T,
    add: (T, T) -> T,
    neg: T -> T,
    mul: (T, T) -> T,
    inv: T -> T
  )

  ghost predicate Law1<T>(f: Field<T>, x: T) {
    && f.add(x, f.zero) == x
    && f.add(x, f.neg(x)) == f.zero
    && f.mul(x, f.one) == x
    && (x != f.zero ==> f.mul(x, f.inv(x)) == f.one)
  }

  ghost predicate Law2<T>(f: Field<T>, x: T, y: T) {
    f.add(x, y) == f.add(y, x) && f.mul(x, y) == f.mul(y, x)
  }

  ghost predicate Law3<T>(f: Field<T>, x: T, y: T, z: T) {
    && f.add(f.add(x, y), z) == f.add(x, f.add(y, z))
    && f.mul(f.mul(x, y), z) == f.mul(x, f.mul(y, z))
    && f.mul(x, f.add(y, z)) == f.add(f.mul(x, y), f.mul(x, z))
  }

  ghost predicate IsField<T(!new)>(f: Field<T>) {
    && f.zero != f.one
    && (forall x :: Law1(f, x))
    && (forall x, y :: Law2(f, x, y))
    && (forall x, y, z :: Law3(f, x, y, z))
  }

  function Sub<T>(f: Field<T>, x: T, y: T): T {
    f.add(x, f.neg(y))
  }

  // ----- consequences of the field laws

  lemma Units<T(!new)>(f: Field<T>, x: T)
    requires IsField(f)
    ensures f.add(x, f.zero) == x && f.add(f.zero, x) == x
    ensures f.mul(x, f.one) == x && f.mul(f.one, x) == x
    ensures f.add(x, f.neg(x)) == f.zero && f.add(f.neg(x), x) == f.zero
  {
    assert Law1(f, x) && Law2(f, x, f.zero) && Law2(f, x, f.one) && Law2(f, x, f.neg(x));
  }

  lemma Commute<T(!new)>(f: Field<T>, x: T, y: T)
    requires IsField(f)
    ensures f.add(x, y) == f.add(y, x) && f.mul(x, y) == f.mul(y, x)
  {
    assert Law2(f, x, y);
  }

  lemma Associate<T(!new)>(f: Field<T>, x: T, y: T, z: T)
    requires IsField(f)
    ensures f.add(f.add(x, y), z) == f.add(x, f.add(y, z))
    ensures f.mul(f.mul(x, y), z) == f.mul(x, f.mul(y, z))
  {
    assert Law3(f, x, y, z);
  }

  lemma Distribute<T(!new)>(f: Field<T>, x: T, y: T, z: T)
    requires IsField(f)
    ensures f.mul(x, f.add(y, z)) == f.add(f.mul(x, y), f.mul(x, z))
    ensures f.mul(f.add(y, z), x) == f.add(f.mul(y, x), f.mul(z, x))
  {
    assert Law3(f, x, y, z);
    Commute(f, x, f.add(y, z));
    Commute(f, x, y);
    Commute(f, x, z);
  }

  lemma Inverse<T(!new)>(f: Field<T>, x: T)
    requires IsField(f) && x != f.zero
    ensures f.mul(x, f.inv(x)) == f.one
  {
    assert Law1(f, x);
  }

  /** (x + y) - y == x */
  lemma AddThenSub<T(!new)>(f: Field<T>, x: T, y: T)
    requires IsField(f)
    ensures Sub(f, f.add(x, y), y) == x
    ensures f.add(Sub(f, x, y), y) == x
  {
    Associate(f, x, y, f.neg(y));
    Associate(f, x, f.neg(y), y);
    Units(f, x);
    Units(f, y);
  }

  /** x - y is zero exactly when x and y are equal. */
  lemma SubZero<T(!new)>(f: Field<T>, x: T, y: T)
    requires IsField(f)
    ensures Sub(f, x, y) == f.zero <==> x == y
  {
    AddThenSub(f, x, y);
    Units(f, y);
  }

  lemma MulZero<T(!new)>(f: Field<T>, x: T)
    requires IsField(f)
    ensures f.mul(x, f.zero) == f.zero && f.mul(f.zero, x) == f.zero
  {
    var z := f.mul(x, f.zero);
    Units(f, f.zero);
    Distribute(f, x, f.zero, f.zero);
    AddThenSub(f, z, z);
    Units(f, z);
    Commute(f, x, f.zero);
  }

  /** A field has no zero divisors. */
  lemma Cancel<T(!new)>(f: Field<T>, x: T, y: T)
    requires IsField(f) && f.mul(x, y) == f.zero && x != f.zero
    ensures y == f.zero
  {
    Inverse(f, x);
    Associate(f, f.inv(x), x, y);
    Commute(f, f.inv(x), x);
    Units(f, y);
    MulZero(f, f.inv(x));
  }

  lemma MulNeg<T(!new)>(f: Field<T>, x: T, y: T)
    requires IsField(f)
    ensures f.mul(x, f.neg(y)) == f.neg(f.mul(x, y))
    ensures f.mul(f.neg(x), y) == f.neg(f.mul(x, y))
  {
    Distribute(f, x, y, f.neg(y));
    Units(f, y);
    MulZero(f, x);
    NegUnique(f, f.mul(x, y), f.mul(x, f.neg(y)));
    Distribute(f, y, x, f.neg(x));
    Units(f, x);
    MulZero(f, y);
    NegUnique(f, f.mul(x, y), f.mul(f.neg(x), y));
  }

  lemma NegUnique<T(!new)>(f: Field<T>, x: T, y: T)
    requires IsField(f) && f.add(x, y) == f.zero
    ensures y == f.neg(x)
  {
    Commute(f, x, y);
    AddThenSub(f, y, x);
    Units(f, f.neg(x));
  }

  /** (x - y) * z == x*z - y*z */
  lemma MulSub<T(!new)>(f: Field<T>, x: T, y: T, z: T)
    requires IsField(f)
    ensures f.mul(Sub(f, x, y), z) == Sub(f, f.mul(x, z), f.mul(y, z))
  {
    Distribute(f, z, x, f.neg(y));
    MulNeg(f, y, z);
  }

  // ----- polynomials, as coefficient sequences with the constant term first

  function Eval<T>(f: Field<T>, p: seq<T>, x: T): T
    decreases |p|
  {
    if p == [] then f.zero else f.add(p[0], f.mul(x, Eval(f, p[1..], x)))
  }

  /** The quotient of p by (x - a). */
  function Quotient<T>(f: Field<T>, p: seq<T>, a: T): (q: seq<T>)
    requires p != []
    ensures |q| == |p| - 1
    decreases |p|
  {
    if |p| == 1 then [] else [Eval(f, p[1..], a)] + Quotient(f, p[1..], a)
  }

  /** p(x) = p(a) + (x - a) q(x) */
  lemma {:induction false} Division<T(!new)>(f: Field<T>, p: seq<T>, a: T, x: T)
    requires IsField(f) && p != []
    ensures Eval(f, p, x) ==
            f.add(Eval(f, p, a), f.mul(Sub(f, x, a), Eval(f, Quotient(f, p, a), x)))
    decreases |p|
  {
    var q := Quotient(f, p, a);
    var d := Sub(f, x, a);
    if |p| == 1 {
      MulZero(f, x);
      MulZero(f, a);
      MulZero(f, d);
      Units(f, p[0]);
    } else {
      var p' := p[1..];
      Division(f, p', a, x);
      assert q[1..] == Quotient(f, p', a);
      DivisionStep(f, p[0], x, a, Eval(f, p', a), Eval(f, q[1..], x));
    }
  }

  /** c + x(e + (x-a) r)  ==  (c + a e) + (x-a)(e + x r) */
  lemma DivisionStep<T(!new)>(f: Field<T>, c: T, x: T, a: T, e: T, r: T)
    requires IsField(f)
    ensures f.add(c, f.mul(x, f.add(e, f.mul(Sub(f, x, a), r)))) ==
            f.add(f.add(c, f.mul(a, e)), f.mul(Sub(f, x, a), f.add(e, f.mul(x, r))))
  {
    var d := Sub(f, x, a);
    var xe, ae, de := f.mul(x, e), f.mul(a, e), f.mul(d, e);
    var t := f.mul(x, f.mul(d, r));
    assert f.mul(x, f.add(e, f.mul(d, r))) == f.add(xe, t) by {
      Distribute(f, x, e, f.mul(d, r));
    }
    assert f.mul(d, f.mul(x, r)) == t by {
      Associate(f, d, x, r);
      Commute(f, d, x);
      Associate(f, x, d, r);
    }
    assert f.mul(d, f.add(e, f.mul(x, r))) == f.add(de, t) by {
      Distribute(f, d, e, f.mul(x, r));
    }
    assert f.add(ae, de) == xe by {
      MulSub(f, x, a, e);
      AddThenSub(f, xe, ae);
      Commute(f, ae, de);
    }
    Associate(f, c, ae, f.add(de, t));
    Associate(f, ae, de, t);
  }

  /** A polynomial with as many distinct roots as coefficients is zero everywhere. */
  lemma {:induction false} TooManyRoots<T(!new)>(f: Field<T>, p: seq<T>, roots: seq<T>, x: T)
    requires IsField(f) && Distinct(roots) && |roots| == |p|
    requires forall i :: 0 <= i < |roots| ==> Eval(f, p, roots[i]) == f.zero
    ensures Eval(f, p, x) == f.zero
    decreases |p|
  {
    if p == [] {
    } else {
      var a := roots[0];
      var q := Quotient(f, p, a);
      forall i | 0 <= i < |roots[1..]|
        ensures Eval(f, q, roots[1..][i]) == f.zero
      {
        var b := roots[1..][i];
        assert b == roots[i + 1];
        Division(f, p, a, b);
        Units(f, f.mul(Sub(f, b, a), Eval(f, q, b)));
        SubZero(f, b, a);
        Cancel(f, Sub(f, b, a), Eval(f, q, b));
      }
      TooManyRoots(f, q, roots[1..], x);
      Division(f, p, a, x);
      MulZero(f, Sub(f, x, a));
      Units(f, f.zero);
    }
  }

  // ----- building a polynomial

  /** c + p */
  function AddConst<T>(f: Field<T>, c: T, p: seq<T>): (r: seq<T>)
    requires p != []
    ensures |r| == |p|
  {
    [f.add(c, p[0])] + p[1..]
  }

  /** (x - a) * q */
  function MulLinear<T>(f: Field<T>, q: seq<T>, a: T): (r: seq<T>)
    ensures |r| == |q| + 1
    decreases |q|
  {
    if q == [] then [f.zero]
    else [f.neg(f.mul(a, q[0]))] + AddConst(f, q[0], MulLinear(f, q[1..], a))
  }

  lemma EvalAddConst<T(!new)>(f: Field<T>, c: T, p: seq<T>, x: T)
    requires IsField(f) && p != []
    ensures Eval(f, AddConst(f, c, p), x) == f.add(c, Eval(f, p, x))
  {
    assert AddConst(f, c, p)[1..] == p[1..];
    Associate(f, c, p[0], f.mul(x, Eval(f, p[1..], x)));
  }

  lemma {:induction false} EvalMulLinear<T(!new)>(f: Field<T>, q: seq<T>, a: T, x: T)
    requires IsField(f)
    ensures Eval(f, MulLinear(f, q, a), x) == f.mul(Sub(f, x, a), Eval(f, q, x))
    decreases |q|
  {
    var d := Sub(f, x, a);
    var r := MulLinear(f, q, a);
    if q == [] {
      MulZero(f, d);
      MulZero(f, x);
      Units(f, f.zero);
    } else {
      var c, q' := q[0], q[1..];
      var r' := MulLinear(f, q', a);
      assert r[1..] == AddConst(f, c, r');
      EvalMulLinear(f, q', a, x);
      EvalAddConst(f, c, r', x);
      LinearStep(f, c, x, a, Eval(f, q', x));
    }
  }

  /** -(a c) + x(c + (x-a) e)  ==  (x-a)(c + x e) */
  lemma LinearStep<T(!new)>(f: Field<T>, c: T, x: T, a: T, e: T)
    requires IsField(f)
    ensures f.add(f.neg(f.mul(a, c)), f.mul(x, f.add(c, f.mul(Sub(f, x, a), e)))) ==
            f.mul(Sub(f, x, a), f.add(c, f.mul(x, e)))
  {
    var ac := f.mul(a, c);
    var rhs := f.mul(Sub(f, x, a), f.add(c, f.mul(x, e)));
    DivisionStep(f, f.neg(ac), x, a, c, e);
    Units(f, ac);
    Units(f, rhs);
  }

  /** The polynomial with |xs| coefficients through the points (xs[i], ys[i]). */
  function Interpolate<T>(f: Field<T>, xs: seq<T>, ys: seq<T>): (p: seq<T>)
    requires |xs| == |ys|
    ensures |p| == |xs|
    decreases |xs|
  {
    if xs == [] then [] else
      AddConst(f, ys[0], MulLinear(f, Interpolate(f, xs[1..], Slopes(f, xs, ys)), xs[0]))
  }

  function Slopes<T>(f: Field<T>, xs: seq<T>, ys: seq<T>): (r: seq<T>)
    requires |xs| == |ys| > 0
    ensures |r| == |xs| - 1
  {
    seq(|xs| - 1, i requires 0 <= i < |xs| - 1 =>
      f.mul(f.inv(Sub(f, xs[i + 1], xs[0])), Sub(f, ys[i + 1], ys[0])))
  }

  lemma {:induction false} InterpolateHits<T(!new)>(f: Field<T>, xs: seq<T>, ys: seq<T>, i: nat)
    requires IsField(f) && Distinct(xs) && |xs| == |ys| && i < |xs|
    ensures Eval(f, Interpolate(f, xs, ys), xs[i]) == ys[i]
    decreases |xs|
  {
    var q := Interpolate(f, xs[1..], Slopes(f, xs, ys));
    var d := Sub(f, xs[i], xs[0]);
    EvalAddConst(f, ys[0], MulLinear(f, q, xs[0]), xs[i]);
    EvalMulLinear(f, q, xs[0], xs[i]);
    SubZero(f, xs[i], xs[0]);
    if i == 0 {
      MulZero(f, Eval(f, q, xs[i]));
      Units(f, ys[0]);
    } else {
      InterpolateHits(f, xs[1..], Slopes(f, xs, ys), i - 1);
      var e := Sub(f, ys[i], ys[0]);
      assert Eval(f, q, xs[i]) == f.mul(f.inv(d), e);
      Inverse(f, d);
      Associate(f, d, f.inv(d), e);
      Units(f, e);
      AddThenSub(f, ys[i], ys[0]);
      Commute(f, ys[0], e);
    }
  }

  /** p - q */
  function SubPoly<T>(f: Field<T>, p: seq<T>, q: seq<T>): (r: seq<T>)
    requires |p| == |q|
    ensures |r| == |p|
  {
    seq(|p|, i requires 0 <= i < |p| => Sub(f, p[i], q[i]))
  }

  lemma {:induction false} EvalSubPoly<T(!new)>(f: Field<T>, p: seq<T>, q: seq<T>, x: T)
    requires IsField(f) && |p| == |q|
    ensures f.add(Eval(f, SubPoly(f, p, q), x), Eval(f, q, x)) == Eval(f, p, x)
    decreases |p|
  {
    if p == [] {
      Units(f, f.zero);
    } else {
      var r := SubPoly(f, p, q);
      assert r[1..] == SubPoly(f, p[1..], q[1..]);
      EvalSubPoly(f, p[1..], q[1..], x);
      var e, e' := Eval(f, r[1..], x), Eval(f, q[1..], x);
      Distribute(f, x, e, e');
      AddThenSub(f, p[0], q[0]);
      AddSwap(f, r[0], f.mul(x, e), q[0], f.mul(x, e'));
    }
  }

  lemma AddSwap<T(!new)>(f: Field<T>, a: T, b: T, c: T, d: T)
    requires IsField(f)
    ensures f.add(f.add(a, b), f.add(c, d)) == f.add(f.add(a, c), f.add(b, d))
  {
    Associate(f, a, b, f.add(c, d));
    Associate(f, b, c, d);
    Commute(f, b, c);
    Associate(f, c, b, d);
    Associate(f, a, c, f.add(b, d));
  }

  /** Two polynomials with n coefficients that agree at n distinct points agree everywhere. */
  lemma Agreement<T(!new)>(f: Field<T>, p: seq<T>, q: seq<T>, xs: seq<T>, x: T)
    requires IsField(f) && Distinct(xs) && |p| == |q| == |xs|
    requires forall i :: 0 <= i < |xs| ==> Eval(f, p, xs[i]) == Eval(f, q, xs[i])
    ensures Eval(f, p, x) == Eval(f, q, x)
  {
    var r := SubPoly(f, p, q);
    forall i | 0 <= i < |xs|
      ensures Eval(f, r, xs[i]) == f.zero
    {
      EvalSubPoly(f, p, q, xs[i]);
      AddThenSub(f, Eval(f, r, xs[i]), Eval(f, q, xs[i]));
      Units(f, Eval(f, q, xs[i]));
    }
    TooManyRoots(f, r, xs, x);
    EvalSubPoly(f, p, q, x);
    Units(f, Eval(f, q, x));
  }
}
