/**
 Addresses split into a block and an index, for block sizes that are
 variables.  Quotient, remainder and product are defined by repeated
 subtraction and addition, which keeps every use of them linear.
 */
module Division {

  function Div(x: nat, d: nat): nat {
    if d == 0 || x < d then 0 else 1 + Div(x - d, d)
  }

  function Mod(x: nat, d: nat): (r: nat)
    ensures d > 0 ==> r < d
  {
    if d == 0 || x < d then x else Mod(x - d, d)
  }

  function Mul(a: nat, d: nat): nat {
    if a == 0 then 0 else Mul(a - 1, d) + d
  }

  lemma {:induction false} MulLess(a: nat, b: nat, d: nat)
    requires a < b
    ensures Mul(a, d) + d <= Mul(b, d)
    decreases b
  {
    if a < b - 1 {
      MulLess(a, b - 1, d);
    }
  }

  lemma {:induction false} MulAdd(a: nat, b: nat, d: nat)
    ensures Mul(a + b, d) == Mul(a, d) + Mul(b, d)
  {
    if b > 0 {
      MulAdd(a, b - 1, d);
    }
  }

  lemma {:induction false} Split(x: nat, d: nat)
    requires d > 0
    ensures x == Mul(Div(x, d), d) + Mod(x, d)
  {
    if x >= d {
      Split(x - d, d);
    }
  }

  /** The quotient is the only q with q * d <= x < (q + 1) * d. */
  lemma QuotientIs(x: nat, d: nat, q: nat)
    requires Mul(q, d) <= x < Mul(q, d) + d
    ensures Div(x, d) == q && Mod(x, d) == x - Mul(q, d)
  {
    Split(x, d);
    var p := Div(x, d);
    if p < q {
      MulLess(p, q, d);
    } else if q < p {
      MulLess(q, p, d);
    }
  }

  lemma DivMonotone(x: nat, y: nat, d: nat)
    requires d > 0 && x <= y
    ensures Div(x, d) <= Div(y, d)
  {
    Split(x, d);
    Split(y, d);
    if Div(y, d) < Div(x, d) {
      MulLess(Div(y, d), Div(x, d), d);
    }
  }

  lemma DivBelow(x: nat, d: nat, q: nat)
    requires d > 0
    ensures Div(x, d) < q <==> x < Mul(q, d)
  {
    Split(x, d);
    if Div(x, d) < q {
      MulLess(Div(x, d), q, d);
    } else if q < Div(x, d) {
      MulLess(q, Div(x, d), d);
    }
  }

  lemma DivModDiffer(x: nat, y: nat, d: nat)
    requires d > 0 && x != y
    ensures Div(x, d) != Div(y, d) || Mod(x, d) != Mod(y, d)
  {
    Split(x, d);
    Split(y, d);
  }

  /** Steps that stay below the next multiple of d. */
  lemma StepInside(x: nat, d: nat, k: nat)
    requires Mod(x, d) + k < d
    ensures Div(x + k, d) == Div(x, d) && Mod(x + k, d) == Mod(x, d) + k
  {
    Split(x, d);
    QuotientIs(x + k, d, Div(x, d));
  }

  /** The quotient of a sum, counted from the start of x's own block. */
  lemma DivFrom(x: nat, k: nat, d: nat)
    requires d > 0
    ensures Div(x + k, d) == Div(x, d) + Div(Mod(x, d) + k, d) && Mod(x + k, d) == Mod(Mod(x, d) + k, d)
  {
    Split(x, d);
    var y := Mod(x, d) + k;
    Split(y, d);
    MulAdd(Div(x, d), Div(y, d), d);
    QuotientIs(x + k, d, Div(x, d) + Div(y, d));
  }

  /** The first of block q. */
  lemma FirstOf(q: nat, d: nat)
    requires d > 0
    ensures Div(Mul(q, d), d) == q
  {
    QuotientIs(Mul(q, d), d, q);
  }

  /** Rounding up: the least number of blocks that hold n. */
  function RoundUp(n: nat, d: nat): (q: nat)
    requires d > 0
    ensures n <= Mul(q, d) && (n > 0 ==> q > 0 && Mul(q - 1, d) < n)
  {
    Split(n + d - 1, d);
    Div(n + d - 1, d)
  }

  lemma RoundUpLeast(n: nat, d: nat, q: nat)
    requires d > 0 && n <= Mul(q, d)
    ensures RoundUp(n, d) <= q
  {
    var r := RoundUp(n, d);
    if q < r && q < r - 1 {
      MulLess(q, r - 1, d);
    }
  }

  // ----- the usual operators

  lemma {:induction false} MulIs(a: nat, d: nat)
    ensures Mul(a, d) == a * d
  {
    if a > 0 {
      MulIs(a - 1, d);
      assert a * d == (a - 1) * d + d;
    }
  }

  /** They are what they are called. */
  lemma AreArithmetic(x: nat, d: nat)
    requires d > 0
    ensures Div(x, d) == x / d && Mod(x, d) == x % d
  {
    var q := x / d;
    assert x == q * d + x % d;
    MulIs(q, d);
    QuotientIs(x, d, q);
  }
}
