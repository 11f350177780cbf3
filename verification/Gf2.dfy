/** Polynomials over GF(2): sequences of coefficients, constant term first. Trailing zero coefficients are
    allowed, so two sequences stand for the same polynomial when all their coefficients agree. */
module Gf2 {

  type Poly = seq<bool>

  function Coeff(p: Poly, i: nat): bool {
    i < |p| && p[i]
  }

  ghost predicate IsZero(p: Poly) {
    forall i: nat :: !Coeff(p, i)
  }

  /** Addition, which over GF(2) is also subtraction. */
  function Add(p: Poly, q: Poly): Poly {
    seq(if |p| > |q| then |p| else |q|, i requires i >= 0 => Coeff(p, i) != Coeff(q, i))
  }

  function Scale(f: bool, g: Poly): Poly {
    if f then g else []
  }

  function TimesX(p: Poly): Poly {
    [false] + p
  }

  lemma {:induction false} AddCoeff(p: Poly, q: Poly, i: nat)
    ensures Coeff(Add(p, q), i) == (Coeff(p, i) != Coeff(q, i))
  {
  }

  /** The product, by Horner's rule on the coefficients of q. */
  function Mul(q: Poly, g: Poly): Poly {
    if q == [] then [] else Add(Scale(q[0], g), TimesX(Mul(q[1..], g)))
  }

  lemma {:induction false} MulCoeff(q: Poly, g: Poly, i: nat)
    requires q != []
    ensures Coeff(Mul(q, g), i) == ((q[0] && Coeff(g, i)) != (i > 0 && Coeff(Mul(q[1..], g), i - 1)))
  {
    AddCoeff(Scale(q[0], g), TimesX(Mul(q[1..], g)), i);
  }

  lemma {:induction false} TailCoeff(q: Poly, i: nat)
    requires q != []
    ensures Coeff(q[1..], i) == Coeff(q, i + 1)
  {
  }

  lemma {:induction false} MulZero(q: Poly, g: Poly)
    requires IsZero(q)
    ensures IsZero(Mul(q, g))
  {
    if q != [] {
      assert !Coeff(q, 0);
      forall i: nat ensures !Coeff(q[1..], i) { TailCoeff(q, i); }
      MulZero(q[1..], g);
      forall i: nat ensures !Coeff(Mul(q, g), i) { MulCoeff(q, g, i); }
    }
  }

  lemma {:induction false} MulAdd(p: Poly, q: Poly, g: Poly, i: nat)
    requires |p| == |q|
    ensures Coeff(Mul(Add(p, q), g), i) == (Coeff(Mul(p, g), i) != Coeff(Mul(q, g), i))
  {
    if p != [] {
      MulCoeff(p, g, i); MulCoeff(q, g, i); MulCoeff(Add(p, q), g, i);
      assert Add(p, q)[1..] == Add(p[1..], q[1..]);
      AddCoeff(p, q, 0);
      if i > 0 { MulAdd(p[1..], q[1..], g, i - 1); }
    }
  }

  /** The product of a polynomial of degree d with one of degree m has a term of degree d + m. */
  lemma {:induction false} MulDegree(q: Poly, d: nat, g: Poly, m: nat)
    requires |g| == m + 1 && g[m]
    requires Coeff(q, d) && forall i: nat | i > d :: !Coeff(q, i)
    ensures Coeff(Mul(q, g), d + m)
  {
    MulCoeff(q, g, d + m);
    if d == 0 {
      forall i: nat ensures !Coeff(q[1..], i) { TailCoeff(q, i); }
      MulZero(q[1..], g);
    } else {
      forall i: nat | i > d - 1 ensures !Coeff(q[1..], i) { TailCoeff(q, i); }
      TailCoeff(q, d - 1);
      MulDegree(q[1..], d - 1, g, m);
    }
  }

  /** r is the remainder of p on division by g: its degree is below that of g, and p - r is a multiple of g. */
  ghost predicate IsRemainder(p: Poly, g: Poly, r: Poly)
    requires |g| > 0
  {
    |r| == |g| - 1 && exists q: Poly :: IsQuotient(p, g, r, q)
  }

  ghost predicate IsQuotient(p: Poly, g: Poly, r: Poly, q: Poly) {
    |q| <= |p| && forall i: nat :: Coeff(p, i) == (Coeff(Mul(q, g), i) != Coeff(r, i))
  }

  ghost function Degree(p: Poly, bound: nat): (d: nat)
    requires exists i: nat :: i < bound && Coeff(p, i)
    requires forall i: nat | i >= bound :: !Coeff(p, i)
    ensures Coeff(p, d) && forall i: nat | i > d :: !Coeff(p, i)
  {
    if Coeff(p, bound - 1) then bound - 1 else Degree(p, bound - 1)
  }

  lemma {:induction false} PadQuotient(q: Poly, g: Poly, i: nat)
    ensures Coeff(Mul(q + [false], g), i) == Coeff(Mul(q, g), i)
  {
    if q == [] {
      assert IsZero(q + [false]);
      MulZero(q + [false], g);
    } else {
      MulCoeff(q, g, i); MulCoeff(q + [false], g, i);
      assert (q + [false])[1..] == q[1..] + [false];
      if i > 0 { PadQuotient(q[1..], g, i - 1); }
    }
  }

  lemma {:induction false} Pad(q: Poly, g: Poly, n: nat) returns (r: Poly)
    requires |q| <= n
    ensures |r| == n && forall i: nat :: Coeff(Mul(r, g), i) == Coeff(Mul(q, g), i)
    decreases n - |q|
  {
    if |q| == n {
      r := q;
    } else {
      forall i: nat ensures Coeff(Mul(q + [false], g), i) == Coeff(Mul(q, g), i) { PadQuotient(q, g, i); }
      r := Pad(q + [false], g, n);
    }
  }

  /** Division has one remainder: the notion IsRemainder determines the polynomial r. */
  lemma {:induction false} RemainderUnique(p: Poly, g: Poly, r: Poly, s: Poly)
    requires |g| > 0 && g[|g| - 1]
    requires IsRemainder(p, g, r) && IsRemainder(p, g, s)
    ensures r == s
  {
    var a0: Poly :| IsQuotient(p, g, r, a0);
    var b0: Poly :| IsQuotient(p, g, s, b0);
    var a := Pad(a0, g, |p|);
    var b := Pad(b0, g, |p|);
    var d := Add(a, b);
    forall i: nat
      ensures Coeff(Mul(d, g), i) == (Coeff(r, i) != Coeff(s, i))
    {
      MulAdd(a, b, g, i);
      assert Coeff(p, i) == (Coeff(Mul(a0, g), i) != Coeff(r, i));
      assert Coeff(p, i) == (Coeff(Mul(b0, g), i) != Coeff(s, i));
    }
    if exists i: nat :: i < |d| && Coeff(d, i) {
      var e := Degree(d, |d|);
      MulDegree(d, e, g, |g| - 1);
      assert false;
    }
    MulZero(d, g);
    forall i | 0 <= i < |r| ensures r[i] == s[i] {
      assert !Coeff(Mul(d, g), i);
      assert Coeff(r, i) == r[i] && Coeff(s, i) == s[i];
    }
  }
}
