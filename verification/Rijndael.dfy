/**
 The arithmetic behind the AES tables: columns of four bytes, multiplication by
 small constants built from doubling (section 4.2 of FIPS 197), and the
 MixColumns and InvMixColumns transformations (sections 5.1.3 and 5.3.3).

 The S-box and the operations on bytes are parameters with stated laws, so that
 what is proved about the cipher rests on those laws alone.  `AesParams` is the
 instance with exclusive or and doubling in GF(2^8), for any invertible S-box.
 */
module Rijndael {

  /** A u32 of the source, kept as its four bytes from the most significant
      down: `x >> 24`, `(x >> 16) & 0xff`, `(x >> 8) & 0xff`, `x & 0xff`. */
  datatype Word<B> = Word(b0: B, b1: B, b2: B, b3: B)

  /** The S-box and its inverse, exclusive or, doubling in the field, and its 0 and 1. */
  datatype Params<!B(!new)> = Params(sub: B -> B, inv: B -> B, add: (B, B) -> B, x2: B -> B, zero: B, one: B)
  {
    function Sum(a: B, b: B, c: B, d: B): B {
      add(add(add(a, b), c), d)
    }

    function Total(w: Word<B>): B {
      Sum(w.b0, w.b1, w.b2, w.b3)
    }

    function X3(x: B): B { add(x2(x), x) }
    function X4(x: B): B { x2(x2(x)) }
    function X8(x: B): B { x2(x2(x2(x))) }
    function X9(x: B): B { add(X8(x), x) }
    function XB(x: B): B { add(add(X8(x), x2(x)), x) }
    function XD(x: B): B { add(add(X8(x), X4(x)), x) }
    function XE(x: B): B { add(add(X8(x), X4(x)), x2(x)) }

    function Xor(a: Word<B>, b: Word<B>): Word<B> {
      Word(add(a.b0, b.b0), add(a.b1, b.b1), add(a.b2, b.b2), add(a.b3, b.b3))
    }

    function MixColumn(c: Word<B>): Word<B> {
      Word(Sum(x2(c.b0), X3(c.b1), c.b2, c.b3),
           Sum(c.b0, x2(c.b1), X3(c.b2), c.b3),
           Sum(c.b0, c.b1, x2(c.b2), X3(c.b3)),
           Sum(X3(c.b0), c.b1, c.b2, x2(c.b3)))
    }

    function InvMixColumn(c: Word<B>): Word<B> {
      Word(Sum(XE(c.b0), XB(c.b1), XD(c.b2), X9(c.b3)),
           Sum(X9(c.b0), XE(c.b1), XB(c.b2), XD(c.b3)),
           Sum(XD(c.b0), X9(c.b1), XE(c.b2), XB(c.b3)),
           Sum(XB(c.b0), XD(c.b1), X9(c.b2), XE(c.b3)))
    }

    // ----- the laws

    ghost predicate Undoes(x: B) {
      inv(sub(x)) == x
    }

    ghost predicate Linear(a: B, b: B) {
      x2(add(a, b)) == add(x2(a), x2(b))
    }

    ghost predicate Cancels(a: B, b: B) {
      add(add(a, b), b) == a
    }

    ghost predicate Commutes(a: B, b: B) {
      add(a, b) == add(b, a)
    }

    ghost predicate Associates(a: B, b: B, c: B) {
      add(add(a, b), c) == add(a, add(b, c))
    }

    ghost predicate Unit(a: B) {
      add(a, zero) == a
    }

    ghost predicate Lawful() {
      && (forall x :: Undoes(x))
      && (forall a :: Unit(a))
      && (forall a, b :: Linear(a, b))
      && (forall a, b :: Cancels(a, b))
      && (forall a, b :: Commutes(a, b))
      && (forall a, b, c :: Associates(a, b, c))
    }
  }

  // ----- the AES instance

  /** A byte by its bits, the highest first. */
  datatype Byte = Byte(b7: bool, b6: bool, b5: bool, b4: bool, b3: bool, b2: bool, b1: bool, b0: bool)
  {
    function Value(): nat {
      (if b7 then 128 else 0) + (if b6 then 64 else 0) + (if b5 then 32 else 0) + (if b4 then 16 else 0)
      + (if b3 then 8 else 0) + (if b2 then 4 else 0) + (if b1 then 2 else 0) + (if b0 then 1 else 0)
    }
  }

  const ZERO := Byte(false, false, false, false, false, false, false, false)
  const ONE := Byte(false, false, false, false, false, false, false, true)

  function XorByte(x: Byte, y: Byte): Byte {
    Byte(x.b7 != y.b7, x.b6 != y.b6, x.b5 != y.b5, x.b4 != y.b4, x.b3 != y.b3, x.b2 != y.b2, x.b1 != y.b1, x.b0 != y.b0)
  }

  /** Doubling modulo x^8 + x^4 + x^3 + x + 1: a shift, and 0x1b added if the highest bit falls out. */
  function Double(x: Byte): Byte {
    Byte(x.b6, x.b5, x.b4, x.b3 != x.b7, x.b2 != x.b7, x.b1, x.b0 != x.b7, x.b7)
  }

  function AesParams(sub: Byte -> Byte, inv: Byte -> Byte): Params<Byte> {
    Params(sub, inv, XorByte, Double, ZERO, ONE)
  }

  lemma DoubleIsLinear(a: Byte, b: Byte)
    ensures Double(XorByte(a, b)) == XorByte(Double(a), Double(b))
  {
  }

  lemma BitAssociates(x: bool, y: bool, z: bool)
    ensures ((x != y) != z) == (x != (y != z))
  {
  }

  lemma XorAssociatesByte(a: Byte, b: Byte, c: Byte)
    ensures XorByte(XorByte(a, b), c) == XorByte(a, XorByte(b, c))
  {
    BitAssociates(a.b7, b.b7, c.b7);
    BitAssociates(a.b6, b.b6, c.b6);
    BitAssociates(a.b5, b.b5, c.b5);
    BitAssociates(a.b4, b.b4, c.b4);
    BitAssociates(a.b3, b.b3, c.b3);
    BitAssociates(a.b2, b.b2, c.b2);
    BitAssociates(a.b1, b.b1, c.b1);
    BitAssociates(a.b0, b.b0, c.b0);
  }

  lemma XorLaws(p: Params<Byte>, a: Byte, b: Byte, c: Byte)
    requires p.add == XorByte
    ensures p.Commutes(a, b) && p.Associates(a, b, c)
  {
    XorAssociatesByte(a, b, c);
  }

  lemma XorCancelsByte(p: Params<Byte>, a: Byte, b: Byte)
    requires p.add == XorByte
    ensures p.Cancels(a, b)
  {
  }

  /** Exclusive or and doubling satisfy the laws, whatever the S-box. */
  lemma AesParamsAreLawful(sub: Byte -> Byte, inv: Byte -> Byte)
    requires forall x :: inv(sub(x)) == x
    ensures AesParams(sub, inv).Lawful()
  {
    var p := AesParams(sub, inv);
    forall a, b
      ensures p.Linear(a, b)
    {
      DoubleIsLinear(a, b);
    }
    forall a, b
      ensures p.Cancels(a, b)
    {
      XorCancelsByte(p, a, b);
    }
    forall a, b, c
      ensures p.Commutes(a, b) && p.Associates(a, b, c)
    {
      XorLaws(p, a, b, c);
    }
  }

  // ----- sums may be rearranged

  lemma Medial<B(!new)>(p: Params<B>, a: B, b: B, c: B, d: B)
    requires p.Lawful()
    ensures p.add(p.add(a, b), p.add(c, d)) == p.add(p.add(a, c), p.add(b, d))
  {
    calc {
      p.add(p.add(a, b), p.add(c, d));
      { assert p.Associates(a, b, p.add(c, d)); }
      p.add(a, p.add(b, p.add(c, d)));
      { assert p.Associates(b, c, d); }
      p.add(a, p.add(p.add(b, c), d));
      { assert p.Commutes(b, c); }
      p.add(a, p.add(p.add(c, b), d));
      { assert p.Associates(c, b, d); }
      p.add(a, p.add(c, p.add(b, d)));
      { assert p.Associates(a, c, p.add(b, d)); }
      p.add(p.add(a, c), p.add(b, d));
    }
  }

  lemma Rotates<B(!new)>(p: Params<B>, a: B, b: B, c: B, d: B)
    requires p.Lawful()
    ensures p.Sum(a, b, c, d) == p.Sum(b, c, d, a)
  {
    assert p.Associates(a, b, c);
    assert p.Associates(a, p.add(b, c), d);
    assert p.Commutes(a, p.add(p.add(b, c), d));
  }

  /** The sum of a byte with itself changes nothing. */
  lemma Neutral<B(!new)>(p: Params<B>, a: B, b: B)
    requires p.Lawful()
    ensures p.add(a, p.add(b, b)) == a && p.add(p.add(b, b), a) == a
  {
    assert p.Associates(a, b, b) && p.Cancels(a, b) && p.Commutes(a, p.add(b, b));
  }

  // ----- multiplication by each coefficient is additive

  lemma Powers<B(!new)>(p: Params<B>, a: B, b: B)
    requires p.Lawful()
    ensures p.x2(p.add(a, b)) == p.add(p.x2(a), p.x2(b))
    ensures p.X4(p.add(a, b)) == p.add(p.X4(a), p.X4(b))
    ensures p.X8(p.add(a, b)) == p.add(p.X8(a), p.X8(b))
  {
    assert p.Linear(a, b);
    assert p.Linear(p.x2(a), p.x2(b));
    assert p.Linear(p.X4(a), p.X4(b));
  }

  lemma Additive<B(!new)>(p: Params<B>, a: B, b: B)
    requires p.Lawful()
    ensures p.X9(p.add(a, b)) == p.add(p.X9(a), p.X9(b))
    ensures p.XB(p.add(a, b)) == p.add(p.XB(a), p.XB(b))
    ensures p.XD(p.add(a, b)) == p.add(p.XD(a), p.XD(b))
    ensures p.XE(p.add(a, b)) == p.add(p.XE(a), p.XE(b))
  {
    Powers(p, a, b);
    Medial(p, p.X8(a), p.X8(b), a, b);
    Medial(p, p.X8(a), p.X8(b), p.x2(a), p.x2(b));
    Medial(p, p.add(p.X8(a), p.x2(a)), p.add(p.X8(b), p.x2(b)), a, b);
    Medial(p, p.X8(a), p.X8(b), p.X4(a), p.X4(b));
    Medial(p, p.add(p.X8(a), p.X4(a)), p.add(p.X8(b), p.X4(b)), a, b);
    Medial(p, p.add(p.X8(a), p.X4(a)), p.add(p.X8(b), p.X4(b)), p.x2(a), p.x2(b));
  }

  lemma SumOfPairs<B(!new)>(p: Params<B>, a: Word<B>, b: Word<B>)
    requires p.Lawful()
    ensures p.Sum(p.add(a.b0, b.b0), p.add(a.b1, b.b1), p.add(a.b2, b.b2), p.add(a.b3, b.b3)) ==
            p.add(p.Sum(a.b0, a.b1, a.b2, a.b3), p.Sum(b.b0, b.b1, b.b2, b.b3))
  {
    Medial(p, a.b0, b.b0, a.b1, b.b1);
    Medial(p, p.add(a.b0, a.b1), p.add(b.b0, b.b1), a.b2, b.b2);
    Medial(p, p.add(p.add(a.b0, a.b1), a.b2), p.add(p.add(b.b0, b.b1), b.b2), a.b3, b.b3);
  }

  /** InvMixColumns distributes over key addition, which is what lets the
      decryption schedule hold transformed round keys. */
  lemma UnmixAdds<B(!new)>(p: Params<B>, a: Word<B>, b: Word<B>)
    requires p.Lawful()
    ensures p.InvMixColumn(p.Xor(a, b)) == p.Xor(p.InvMixColumn(a), p.InvMixColumn(b))
  {
    Additive(p, a.b0, b.b0);
    Additive(p, a.b1, b.b1);
    Additive(p, a.b2, b.b2);
    Additive(p, a.b3, b.b3);
    SumOfPairs(p, Word(p.XE(a.b0), p.XB(a.b1), p.XD(a.b2), p.X9(a.b3)),
        Word(p.XE(b.b0), p.XB(b.b1), p.XD(b.b2), p.X9(b.b3)));
    SumOfPairs(p, Word(p.X9(a.b0), p.XE(a.b1), p.XB(a.b2), p.XD(a.b3)),
        Word(p.X9(b.b0), p.XE(b.b1), p.XB(b.b2), p.XD(b.b3)));
    SumOfPairs(p, Word(p.XD(a.b0), p.X9(a.b1), p.XE(a.b2), p.XB(a.b3)),
        Word(p.XD(b.b0), p.X9(b.b1), p.XE(b.b2), p.XB(b.b3)));
    SumOfPairs(p, Word(p.XB(a.b0), p.XD(a.b1), p.X9(a.b2), p.XE(a.b3)),
        Word(p.XB(b.b0), p.XD(b.b1), p.X9(b.b2), p.XE(b.b3)));
  }

  // ----- InvMixColumns undoes MixColumns

  lemma AdditiveSum<B(!new)>(p: Params<B>, w: Word<B>)
    requires p.Lawful()
    ensures p.X9(p.Total(w)) == p.Sum(p.X9(w.b0), p.X9(w.b1), p.X9(w.b2), p.X9(w.b3))
    ensures p.XB(p.Total(w)) == p.Sum(p.XB(w.b0), p.XB(w.b1), p.XB(w.b2), p.XB(w.b3))
    ensures p.XD(p.Total(w)) == p.Sum(p.XD(w.b0), p.XD(w.b1), p.XD(w.b2), p.XD(w.b3))
    ensures p.XE(p.Total(w)) == p.Sum(p.XE(w.b0), p.XE(w.b1), p.XE(w.b2), p.XE(w.b3))
  {
    Additive(p, w.b0, w.b1);
    Additive(p, p.add(w.b0, w.b1), w.b2);
    Additive(p, p.add(p.add(w.b0, w.b1), w.b2), w.b3);
  }

  /** Summing a square by rows or by columns. */
  lemma Transpose<B(!new)>(p: Params<B>, r: Word<B>, s: Word<B>, t: Word<B>, u: Word<B>)
    requires p.Lawful()
    ensures p.Sum(p.Total(r), p.Total(s), p.Total(t), p.Total(u)) ==
            p.Sum(p.Sum(r.b0, s.b0, t.b0, u.b0), p.Sum(r.b1, s.b1, t.b1, u.b1),
                  p.Sum(r.b2, s.b2, t.b2, u.b2), p.Sum(r.b3, s.b3, t.b3, u.b3))
  {
    SumOfPairs(p, r, s);
    SumOfPairs(p, p.Xor(r, s), t);
    SumOfPairs(p, p.Xor(p.Xor(r, s), t), u);
  }

  /** A polynomial of degree at most 4 over GF(2), by its coefficients. */
  datatype Poly = Poly(h: bool, o: bool, q: bool, d: bool, c: bool)

  function Plus(f: Poly, g: Poly): Poly {
    Poly(f.h != g.h, f.o != g.o, f.q != g.q, f.d != g.d, f.c != g.c)
  }

  function Pick<B>(zero: B, b: bool, x: B): B {
    if b then x else zero
  }

  /** The multiple of x by a polynomial in the doubling map. */
  function Act<B(!new)>(p: Params<B>, f: Poly, x: B): B {
    var zero := p.add(x, x);
    p.add(p.Sum(Pick(zero, f.h, p.x2(p.X8(x))), Pick(zero, f.o, p.X8(x)),
                Pick(zero, f.q, p.X4(x)), Pick(zero, f.d, p.x2(x))), Pick(zero, f.c, x))
  }

  lemma PickAdds<B(!new)>(p: Params<B>, b: B, f: bool, g: bool, x: B)
    requires p.Lawful()
    ensures p.add(Pick(p.add(b, b), f, x), Pick(p.add(b, b), g, x)) == Pick(p.add(b, b), f != g, x)
  {
    Neutral(p, x, b);
    Neutral(p, p.add(b, b), b);
    Neutral(p, p.add(b, b), x);
    Neutral(p, p.add(x, x), b);
  }

  lemma ActAdds<B(!new)>(p: Params<B>, f: Poly, g: Poly, x: B)
    requires p.Lawful()
    ensures p.add(Act(p, f, x), Act(p, g, x)) == Act(p, Plus(f, g), x)
  {
    var z := p.add(x, x);
    var u := Word(Pick(z, f.h, p.x2(p.X8(x))), Pick(z, f.o, p.X8(x)), Pick(z, f.q, p.X4(x)), Pick(z, f.d, p.x2(x)));
    var v := Word(Pick(z, g.h, p.x2(p.X8(x))), Pick(z, g.o, p.X8(x)), Pick(z, g.q, p.X4(x)), Pick(z, g.d, p.x2(x)));
    SumOfPairs(p, u, v);
    Medial(p, p.Total(u), Pick(z, f.c, x), p.Total(v), Pick(z, g.c, x));
    PickAdds(p, x, f.h, g.h, p.x2(p.X8(x)));
    PickAdds(p, x, f.o, g.o, p.X8(x));
    PickAdds(p, x, f.q, g.q, p.X4(x));
    PickAdds(p, x, f.d, g.d, p.x2(x));
    PickAdds(p, x, f.c, g.c, x);
  }

  const P16 := Poly(true, false, false, false, false)
  const P8 := Poly(false, true, false, false, false)
  const P4 := Poly(false, false, true, false, false)
  const P2 := Poly(false, false, false, true, false)
  const P1 := Poly(false, false, false, false, true)
  const P0 := Poly(false, false, false, false, false)

  lemma Monomials<B(!new)>(p: Params<B>, x: B)
    requires p.Lawful()
    ensures Act(p, P16, x) == p.x2(p.X8(x)) && Act(p, P8, x) == p.X8(x) && Act(p, P4, x) == p.X4(x)
    ensures Act(p, P2, x) == p.x2(x) && Act(p, P1, x) == x && Act(p, P0, x) == p.add(x, x)
  {
    Neutral(p, p.x2(p.X8(x)), x);
    Neutral(p, p.X8(x), x);
    Neutral(p, p.X4(x), x);
    Neutral(p, p.x2(x), x);
    Neutral(p, x, x);
    Neutral(p, p.add(x, x), x);
  }

  /** The coefficients of both matrices, and their products with 2 and 3, as polynomials. */
  lemma Coefficients<B(!new)>(p: Params<B>, x: B)
    requires p.Lawful()
    ensures p.XE(x) == Act(p, Poly(false, true, true, true, false), x)
    ensures p.XB(x) == Act(p, Poly(false, true, false, true, true), x)
    ensures p.XD(x) == Act(p, Poly(false, true, true, false, true), x)
    ensures p.X9(x) == Act(p, Poly(false, true, false, false, true), x)
    ensures p.XE(p.x2(x)) == Act(p, Poly(true, true, true, false, false), x)
    ensures p.XB(p.x2(x)) == Act(p, Poly(true, false, true, true, false), x)
    ensures p.XD(p.x2(x)) == Act(p, Poly(true, true, false, true, false), x)
    ensures p.X9(p.x2(x)) == Act(p, Poly(true, false, false, true, false), x)
  {
    Monomials(p, x);
    ActAdds(p, P8, P4, x);
    ActAdds(p, Plus(P8, P4), P2, x);
    ActAdds(p, P8, P2, x);
    ActAdds(p, Plus(P8, P2), P1, x);
    ActAdds(p, Plus(P8, P4), P1, x);
    ActAdds(p, P8, P1, x);
    ActAdds(p, P16, P8, x);
    ActAdds(p, Plus(P16, P8), P4, x);
    ActAdds(p, P16, P4, x);
    ActAdds(p, Plus(P16, P4), P2, x);
    ActAdds(p, Plus(P16, P8), P2, x);
    ActAdds(p, P16, P2, x);
  }

  lemma ActSum<B(!new)>(p: Params<B>, f: Poly, g: Poly, h: Poly, k: Poly, x: B)
    requires p.Lawful()
    ensures p.Sum(Act(p, f, x), Act(p, g, x), Act(p, h, x), Act(p, k, x)) == Act(p, Plus(Plus(Plus(f, g), h), k), x)
  {
    ActAdds(p, f, g, x);
    ActAdds(p, Plus(f, g), h, x);
    ActAdds(p, Plus(Plus(f, g), h), k, x);
  }

  /** Row times column: 1 on the diagonal, 0 elsewhere. */
  lemma Products<B(!new)>(p: Params<B>, x: B)
    requires p.Lawful()
    ensures p.Sum(p.XE(p.x2(x)), p.XB(x), p.XD(x), p.X9(p.X3(x))) == x
    ensures p.Sum(p.XE(p.X3(x)), p.XB(p.x2(x)), p.XD(x), p.X9(x)) == p.add(x, x)
    ensures p.Sum(p.XE(x), p.XB(p.X3(x)), p.XD(p.x2(x)), p.X9(x)) == p.add(x, x)
    ensures p.Sum(p.XE(x), p.XB(x), p.XD(p.X3(x)), p.X9(p.x2(x))) == p.add(x, x)
  {
    Monomials(p, x);
    Coefficients(p, x);
    Additive(p, p.x2(x), x);
    var e, b, d, n := Poly(false, true, true, true, false), Poly(false, true, false, true, true),
                      Poly(false, true, true, false, true), Poly(false, true, false, false, true);
    var e2, b2, d2, n2 := Poly(true, true, true, false, false), Poly(true, false, true, true, false),
                          Poly(true, true, false, true, false), Poly(true, false, false, true, false);
    ActAdds(p, e2, e, x);
    ActAdds(p, b2, b, x);
    ActAdds(p, d2, d, x);
    ActAdds(p, n2, n, x);
    ActSum(p, e2, b, d, Plus(n2, n), x);
    ActSum(p, Plus(e2, e), b2, d, n, x);
    ActSum(p, e, Plus(b2, b), d2, n, x);
    ActSum(p, e, b, Plus(d2, d), n2, x);
  }

  lemma FirstRow<B(!new)>(p: Params<B>, c: Word<B>)
    requires p.Lawful()
    ensures p.InvMixColumn(p.MixColumn(c)).b0 == c.b0
  {
    AdditiveSum(p, Word(p.x2(c.b0), p.X3(c.b1), c.b2, c.b3));
    AdditiveSum(p, Word(c.b0, p.x2(c.b1), p.X3(c.b2), c.b3));
    AdditiveSum(p, Word(c.b0, c.b1, p.x2(c.b2), p.X3(c.b3)));
    AdditiveSum(p, Word(p.X3(c.b0), c.b1, c.b2, p.x2(c.b3)));
    Transpose(p, Word(p.XE(p.x2(c.b0)), p.XE(p.X3(c.b1)), p.XE(c.b2), p.XE(c.b3)),
                 Word(p.XB(c.b0), p.XB(p.x2(c.b1)), p.XB(p.X3(c.b2)), p.XB(c.b3)),
                 Word(p.XD(c.b0), p.XD(c.b1), p.XD(p.x2(c.b2)), p.XD(p.X3(c.b3))),
                 Word(p.X9(p.X3(c.b0)), p.X9(c.b1), p.X9(c.b2), p.X9(p.x2(c.b3))));
    Products(p, c.b0);
    Products(p, c.b1);
    Products(p, c.b2);
    Products(p, c.b3);
    Neutral(p, c.b0, c.b1);
    Neutral(p, c.b0, c.b2);
    Neutral(p, c.b0, c.b3);
  }

  function Rotate<B>(c: Word<B>): Word<B> {
    Word(c.b1, c.b2, c.b3, c.b0)
  }

  /** Both transformations treat the four positions alike. */
  lemma RotateMix<B(!new)>(p: Params<B>, c: Word<B>)
    requires p.Lawful()
    ensures p.MixColumn(Rotate(c)) == Rotate(p.MixColumn(c))
    ensures p.InvMixColumn(Rotate(c)) == Rotate(p.InvMixColumn(c))
  {
    Rotates(p, c.b0, p.x2(c.b1), p.X3(c.b2), c.b3);
    Rotates(p, c.b0, c.b1, p.x2(c.b2), p.X3(c.b3));
    Rotates(p, p.X3(c.b0), c.b1, c.b2, p.x2(c.b3));
    Rotates(p, p.x2(c.b0), p.X3(c.b1), c.b2, c.b3);
    Rotates(p, p.X9(c.b0), p.XE(c.b1), p.XB(c.b2), p.XD(c.b3));
    Rotates(p, p.XD(c.b0), p.X9(c.b1), p.XE(c.b2), p.XB(c.b3));
    Rotates(p, p.XB(c.b0), p.XD(c.b1), p.X9(c.b2), p.XE(c.b3));
    Rotates(p, p.XE(c.b0), p.XB(c.b1), p.XD(c.b2), p.X9(c.b3));
  }

  lemma UnmixMix<B(!new)>(p: Params<B>, c: Word<B>)
    requires p.Lawful()
    ensures p.InvMixColumn(p.MixColumn(c)) == c
  {
    var c1 := Rotate(c);
    var c2 := Rotate(c1);
    var c3 := Rotate(c2);
    FirstRow(p, c);
    FirstRow(p, c1);
    FirstRow(p, c2);
    FirstRow(p, c3);
    RotateMix(p, c);
    RotateMix(p, c1);
    RotateMix(p, c2);
    RotateMix(p, p.MixColumn(c));
    RotateMix(p, p.MixColumn(c1));
    RotateMix(p, p.MixColumn(c2));
  }

  lemma XorCancels<B(!new)>(p: Params<B>, a: Word<B>, b: Word<B>)
    requires p.Lawful()
    ensures p.Xor(p.Xor(a, b), b) == a
  {
    assert p.Cancels(a.b0, b.b0) && p.Cancels(a.b1, b.b1) && p.Cancels(a.b2, b.b2) && p.Cancels(a.b3, b.b3);
  }

  lemma XorAssociates<B(!new)>(p: Params<B>, a: Word<B>, b: Word<B>, c: Word<B>)
    requires p.Lawful()
    ensures p.Xor(p.Xor(a, b), c) == p.Xor(a, p.Xor(b, c))
  {
    assert p.Associates(a.b0, b.b0, c.b0) && p.Associates(a.b1, b.b1, c.b1);
    assert p.Associates(a.b2, b.b2, c.b2) && p.Associates(a.b3, b.b3, c.b3);
  }
}
