/**
 The table-driven AES of tools/ioemu-qemu-xen/aes.c: key schedules, and block
 encryption and decryption two rounds per loop iteration.  The reference is
 FIPS 197, whose transformations are the functions named after its sections.
 */
module Aes {
  import opened Rijndael

  /** The cipher state, or a round key: four columns. */
  datatype State<B> = State(w0: Word<B>, w1: Word<B>, w2: Word<B>, w3: Word<B>)

  // ----- FIPS 197 transformations

  function SubWord<B(!new)>(p: Params<B>, w: Word<B>): Word<B> {
    Word(p.sub(w.b0), p.sub(w.b1), p.sub(w.b2), p.sub(w.b3))
  }

  function InvSubWord<B(!new)>(p: Params<B>, w: Word<B>): Word<B> {
    Word(p.inv(w.b0), p.inv(w.b1), p.inv(w.b2), p.inv(w.b3))
  }

  function SubBytes<B(!new)>(p: Params<B>, s: State<B>): State<B> {
    State(SubWord(p, s.w0), SubWord(p, s.w1), SubWord(p, s.w2), SubWord(p, s.w3))
  }

  function InvSubBytes<B(!new)>(p: Params<B>, s: State<B>): State<B> {
    State(InvSubWord(p, s.w0), InvSubWord(p, s.w1), InvSubWord(p, s.w2), InvSubWord(p, s.w3))
  }

  function ShiftRows<B>(s: State<B>): State<B> {
    State(Word(s.w0.b0, s.w1.b1, s.w2.b2, s.w3.b3), Word(s.w1.b0, s.w2.b1, s.w3.b2, s.w0.b3),
          Word(s.w2.b0, s.w3.b1, s.w0.b2, s.w1.b3), Word(s.w3.b0, s.w0.b1, s.w1.b2, s.w2.b3))
  }

  function InvShiftRows<B>(s: State<B>): State<B> {
    State(Word(s.w0.b0, s.w3.b1, s.w2.b2, s.w1.b3), Word(s.w1.b0, s.w0.b1, s.w3.b2, s.w2.b3),
          Word(s.w2.b0, s.w1.b1, s.w0.b2, s.w3.b3), Word(s.w3.b0, s.w2.b1, s.w1.b2, s.w0.b3))
  }

  function MixColumns<B(!new)>(p: Params<B>, s: State<B>): State<B> {
    State(p.MixColumn(s.w0), p.MixColumn(s.w1), p.MixColumn(s.w2), p.MixColumn(s.w3))
  }

  function InvMixColumns<B(!new)>(p: Params<B>, s: State<B>): State<B> {
    State(p.InvMixColumn(s.w0), p.InvMixColumn(s.w1), p.InvMixColumn(s.w2), p.InvMixColumn(s.w3))
  }

  function AddRoundKey<B(!new)>(p: Params<B>, s: State<B>, k: State<B>): State<B> {
    State(p.Xor(s.w0, k.w0), p.Xor(s.w1, k.w1), p.Xor(s.w2, k.w2), p.Xor(s.w3, k.w3))
  }

  /** The nonlinear part of a round. */
  function Layer<B(!new)>(p: Params<B>, s: State<B>): State<B> {
    ShiftRows(SubBytes(p, s))
  }

  function InvLayer<B(!new)>(p: Params<B>, s: State<B>): State<B> {
    InvSubBytes(p, InvShiftRows(s))
  }

  lemma LayerUndone<B(!new)>(p: Params<B>, s: State<B>)
    requires p.Lawful()
    ensures InvLayer(p, Layer(p, s)) == s
  {
    SubUndone(p, s.w0);
    SubUndone(p, s.w1);
    SubUndone(p, s.w2);
    SubUndone(p, s.w3);
  }

  lemma MixUndone<B(!new)>(p: Params<B>, s: State<B>)
    requires p.Lawful()
    ensures InvMixColumns(p, MixColumns(p, s)) == s
  {
    UnmixMix(p, s.w0);
    UnmixMix(p, s.w1);
    UnmixMix(p, s.w2);
    UnmixMix(p, s.w3);
  }

  lemma SubUndone<B(!new)>(p: Params<B>, w: Word<B>)
    requires p.Lawful()
    ensures InvSubWord(p, SubWord(p, w)) == w
  {
    assert p.Undoes(w.b0) && p.Undoes(w.b1) && p.Undoes(w.b2) && p.Undoes(w.b3);
  }

  lemma UnmixKey<B(!new)>(p: Params<B>, s: State<B>, k: State<B>)
    requires p.Lawful()
    ensures InvMixColumns(p, AddRoundKey(p, s, k)) == AddRoundKey(p, InvMixColumns(p, s), InvMixColumns(p, k))
  {
    UnmixAdds(p, s.w0, k.w0);
    UnmixAdds(p, s.w1, k.w1);
    UnmixAdds(p, s.w2, k.w2);
    UnmixAdds(p, s.w3, k.w3);
  }

  lemma KeyCancels<B(!new)>(p: Params<B>, s: State<B>, k: State<B>)
    requires p.Lawful()
    ensures AddRoundKey(p, AddRoundKey(p, s, k), k) == s
  {
    XorCancels(p, s.w0, k.w0);
    XorCancels(p, s.w1, k.w1);
    XorCancels(p, s.w2, k.w2);
    XorCancels(p, s.w3, k.w3);
  }

  // ----- the lookup tables, as the comment above them derives them from the S-box

  function Te0<B(!new)>(p: Params<B>, x: B): Word<B> { Word(p.x2(p.sub(x)), p.sub(x), p.sub(x), p.X3(p.sub(x))) }
  function Te1<B(!new)>(p: Params<B>, x: B): Word<B> { Word(p.X3(p.sub(x)), p.x2(p.sub(x)), p.sub(x), p.sub(x)) }
  function Te2<B(!new)>(p: Params<B>, x: B): Word<B> { Word(p.sub(x), p.X3(p.sub(x)), p.x2(p.sub(x)), p.sub(x)) }
  function Te3<B(!new)>(p: Params<B>, x: B): Word<B> { Word(p.sub(x), p.sub(x), p.X3(p.sub(x)), p.x2(p.sub(x))) }
  function Te4<B(!new)>(p: Params<B>, x: B): Word<B> { Word(p.sub(x), p.sub(x), p.sub(x), p.sub(x)) }
  function Td0<B(!new)>(p: Params<B>, x: B): Word<B> { Word(p.XE(p.inv(x)), p.X9(p.inv(x)), p.XD(p.inv(x)),
        p.XB(p.inv(x))) }
  function Td1<B(!new)>(p: Params<B>, x: B): Word<B> { Word(p.XB(p.inv(x)), p.XE(p.inv(x)), p.X9(p.inv(x)),
        p.XD(p.inv(x))) }
  function Td2<B(!new)>(p: Params<B>, x: B): Word<B> { Word(p.XD(p.inv(x)), p.XB(p.inv(x)), p.XE(p.inv(x)),
        p.X9(p.inv(x))) }
  function Td3<B(!new)>(p: Params<B>, x: B): Word<B> { Word(p.X9(p.inv(x)), p.XD(p.inv(x)), p.XB(p.inv(x)),
        p.XE(p.inv(x))) }
  function Td4<B(!new)>(p: Params<B>, x: B): Word<B> { Word(p.inv(x), p.inv(x), p.inv(x), p.inv(x)) }

  /** One column of a full round: four table entries and a round key word. */
  function EncColumn<B(!new)>(p: Params<B>, a: Word<B>, b: Word<B>, c: Word<B>, d: Word<B>, k: Word<B>): Word<B> {
    p.Xor(p.Xor(p.Xor(p.Xor(Te0(p, a.b0), Te1(p, b.b1)), Te2(p, c.b2)), Te3(p, d.b3)), k)
  }

  function DecColumn<B(!new)>(p: Params<B>, a: Word<B>, b: Word<B>, c: Word<B>, d: Word<B>, k: Word<B>): Word<B> {
    p.Xor(p.Xor(p.Xor(p.Xor(Td0(p, a.b0), Td1(p, b.b1)), Td2(p, c.b2)), Td3(p, d.b3)), k)
  }

  /** One column of the last round: a byte of each of four table entries, the
      masks 0xff000000, 0x00ff0000, 0x0000ff00 and 0x000000ff choosing which. */
  function EncLast<B(!new)>(p: Params<B>, a: Word<B>, b: Word<B>, c: Word<B>, d: Word<B>, k: Word<B>): Word<B> {
    p.Xor(Word(Te4(p, a.b0).b0, Te4(p, b.b1).b1, Te4(p, c.b2).b2, Te4(p, d.b3).b3), k)
  }

  function DecLast<B(!new)>(p: Params<B>, a: Word<B>, b: Word<B>, c: Word<B>, d: Word<B>, k: Word<B>): Word<B> {
    p.Xor(Word(Td4(p, a.b0).b0, Td4(p, b.b1).b1, Td4(p, c.b2).b2, Td4(p, d.b3).b3), k)
  }

  /** w masked with 0xff000000, 0x00ff0000, 0x0000ff00 or 0x000000ff. */
  function Keep<B(!new)>(p: Params<B>, w: Word<B>, i: nat): Word<B> {
    Word(if i == 0 then w.b0 else p.zero, if i == 1 then w.b1 else p.zero,
         if i == 2 then w.b2 else p.zero, if i == 3 then w.b3 else p.zero)
  }

  /** Four masked words added up: one byte of each. */
  lemma KeepOne<B(!new)>(p: Params<B>, a: Word<B>, b: Word<B>, c: Word<B>, d: Word<B>)
    requires p.Lawful()
    ensures p.Xor(p.Xor(p.Xor(Keep(p, a, 0), Keep(p, b, 1)), Keep(p, c, 2)), Keep(p, d, 3)) ==
      Word(a.b0, b.b1, c.b2, d.b3)
  {
    assert p.Unit(a.b0) && p.Unit(b.b1) && p.Unit(c.b2) && p.Unit(p.zero);
    assert p.Commutes(p.zero, b.b1) && p.Commutes(p.zero, c.b2) && p.Commutes(p.zero, d.b3);
    assert p.Unit(d.b3);
  }

  /** The last round's column is four masked lookups and a key word. */
  lemma LastIsMasked<B(!new)>(p: Params<B>, a: Word<B>, b: Word<B>, c: Word<B>, d: Word<B>, k: Word<B>)
    requires p.Lawful()
    ensures EncLast(p, a, b, c, d, k) == p.Xor(p.Xor(p.Xor(p.Xor(
      Keep(p, Te4(p, a.b0), 0), Keep(p, Te4(p, b.b1), 1)), Keep(p, Te4(p, c.b2), 2)), Keep(p, Te4(p, d.b3), 3)), k)
    ensures DecLast(p, a, b, c, d, k) == p.Xor(p.Xor(p.Xor(p.Xor(
      Keep(p, Td4(p, a.b0), 0), Keep(p, Td4(p, b.b1), 1)), Keep(p, Td4(p, c.b2), 2)), Keep(p, Td4(p, d.b3), 3)), k)
  {
    KeepOne(p, Te4(p, a.b0), Te4(p, b.b1), Te4(p, c.b2), Te4(p, d.b3));
    KeepOne(p, Td4(p, a.b0), Td4(p, b.b1), Td4(p, c.b2), Td4(p, d.b3));
  }

  /** A table column is a column of MixColumns(ShiftRows(SubBytes(s))) plus the key. */
  lemma EncColumnIsRound<B(!new)>(p: Params<B>, a: Word<B>, b: Word<B>, c: Word<B>, d: Word<B>, k: Word<B>)
    ensures EncColumn(p, a, b, c, d, k) ==
            p.Xor(p.MixColumn(Word(p.sub(a.b0), p.sub(b.b1), p.sub(c.b2), p.sub(d.b3))), k)
  {
  }

  lemma DecColumnIsRound<B(!new)>(p: Params<B>, a: Word<B>, b: Word<B>, c: Word<B>, d: Word<B>, k: Word<B>)
    ensures DecColumn(p, a, b, c, d, k) ==
            p.Xor(p.InvMixColumn(Word(p.inv(a.b0), p.inv(b.b1), p.inv(c.b2), p.inv(d.b3))), k)
  {
  }

  function EncRound<B(!new)>(p: Params<B>, s: State<B>, k: State<B>): State<B> {
    State(EncColumn(p, s.w0, s.w1, s.w2, s.w3, k.w0), EncColumn(p, s.w1, s.w2, s.w3, s.w0, k.w1),
          EncColumn(p, s.w2, s.w3, s.w0, s.w1, k.w2), EncColumn(p, s.w3, s.w0, s.w1, s.w2, k.w3))
  }

  function DecRound<B(!new)>(p: Params<B>, s: State<B>, k: State<B>): State<B> {
    State(DecColumn(p, s.w0, s.w3, s.w2, s.w1, k.w0), DecColumn(p, s.w1, s.w0, s.w3, s.w2, k.w1),
          DecColumn(p, s.w2, s.w1, s.w0, s.w3, k.w2), DecColumn(p, s.w3, s.w2, s.w1, s.w0, k.w3))
  }

  /** Table lookups and shifts compute the FIPS 197 round. */
  lemma EncRoundIsRound<B(!new)>(p: Params<B>, s: State<B>, k: State<B>)
    ensures EncRound(p, s, k) == AddRoundKey(p, MixColumns(p, Layer(p, s)), k)
  {
    var m := Layer(p, s);
    assert EncColumn(p, s.w0, s.w1, s.w2, s.w3, k.w0) == p.Xor(p.MixColumn(m.w0), k.w0) by {
      EncColumnIsRound(p, s.w0, s.w1, s.w2, s.w3, k.w0);
    }
    assert EncColumn(p, s.w1, s.w2, s.w3, s.w0, k.w1) == p.Xor(p.MixColumn(m.w1), k.w1) by {
      EncColumnIsRound(p, s.w1, s.w2, s.w3, s.w0, k.w1);
    }
    assert EncColumn(p, s.w2, s.w3, s.w0, s.w1, k.w2) == p.Xor(p.MixColumn(m.w2), k.w2) by {
      EncColumnIsRound(p, s.w2, s.w3, s.w0, s.w1, k.w2);
    }
    assert EncColumn(p, s.w3, s.w0, s.w1, s.w2, k.w3) == p.Xor(p.MixColumn(m.w3), k.w3) by {
      EncColumnIsRound(p, s.w3, s.w0, s.w1, s.w2, k.w3);
    }
  }

  lemma DecRoundIsRound<B(!new)>(p: Params<B>, s: State<B>, k: State<B>)
    ensures DecRound(p, s, k) == AddRoundKey(p, InvMixColumns(p, InvLayer(p, s)), k)
  {
    var m := InvLayer(p, s);
    assert DecColumn(p, s.w0, s.w3, s.w2, s.w1, k.w0) == p.Xor(p.InvMixColumn(m.w0), k.w0) by {
      DecColumnIsRound(p, s.w0, s.w3, s.w2, s.w1, k.w0);
    }
    assert DecColumn(p, s.w1, s.w0, s.w3, s.w2, k.w1) == p.Xor(p.InvMixColumn(m.w1), k.w1) by {
      DecColumnIsRound(p, s.w1, s.w0, s.w3, s.w2, k.w1);
    }
    assert DecColumn(p, s.w2, s.w1, s.w0, s.w3, k.w2) == p.Xor(p.InvMixColumn(m.w2), k.w2) by {
      DecColumnIsRound(p, s.w2, s.w1, s.w0, s.w3, k.w2);
    }
    assert DecColumn(p, s.w3, s.w2, s.w1, s.w0, k.w3) == p.Xor(p.InvMixColumn(m.w3), k.w3) by {
      DecColumnIsRound(p, s.w3, s.w2, s.w1, s.w0, k.w3);
    }
  }

  function EncFinal<B(!new)>(p: Params<B>, s: State<B>, k: State<B>): State<B> {
    State(EncLast(p, s.w0, s.w1, s.w2, s.w3, k.w0), EncLast(p, s.w1, s.w2, s.w3, s.w0, k.w1),
          EncLast(p, s.w2, s.w3, s.w0, s.w1, k.w2), EncLast(p, s.w3, s.w0, s.w1, s.w2, k.w3))
  }

  function DecFinal<B(!new)>(p: Params<B>, s: State<B>, k: State<B>): State<B> {
    State(DecLast(p, s.w0, s.w3, s.w2, s.w1, k.w0), DecLast(p, s.w1, s.w0, s.w3, s.w2, k.w1),
          DecLast(p, s.w2, s.w1, s.w0, s.w3, k.w2), DecLast(p, s.w3, s.w2, s.w1, s.w0, k.w3))
  }

  lemma FinalIsFinal<B(!new)>(p: Params<B>, s: State<B>, k: State<B>)
    ensures EncFinal(p, s, k) == AddRoundKey(p, Layer(p, s), k)
    ensures DecFinal(p, s, k) == AddRoundKey(p, InvLayer(p, s), k)
  {
  }

  // ----- how one inverse round meets one round

  /** The first key addition of decryption exposes the last layer of encryption. */
  lemma UndoFinal<B(!new)>(p: Params<B>, s: State<B>, k: State<B>)
    requires p.Lawful()
    ensures AddRoundKey(p, EncFinal(p, s, k), k) == Layer(p, s)
  {
    FinalIsFinal(p, s, k);
    KeyCancels(p, Layer(p, s), k);
  }

  /** An inverse round under the transformed key strips a round from inside a layer. */
  lemma UndoRound<B(!new)>(p: Params<B>, s: State<B>, k: State<B>)
    requires p.Lawful()
    ensures DecRound(p, Layer(p, EncRound(p, s, k)), InvMixColumns(p, k)) == Layer(p, s)
  {
    var m := Layer(p, s);
    var e := EncRound(p, s, k);
    calc {
      DecRound(p, Layer(p, e), InvMixColumns(p, k));
      { DecRoundIsRound(p, Layer(p, e), InvMixColumns(p, k)); }
      AddRoundKey(p, InvMixColumns(p, InvLayer(p, Layer(p, e))), InvMixColumns(p, k));
      { LayerUndone(p, e); }
      AddRoundKey(p, InvMixColumns(p, e), InvMixColumns(p, k));
      { EncRoundIsRound(p, s, k); }
      AddRoundKey(p, InvMixColumns(p, AddRoundKey(p, MixColumns(p, m), k)), InvMixColumns(p, k));
      { UnmixKey(p, MixColumns(p, m), k); }
      AddRoundKey(p, AddRoundKey(p, InvMixColumns(p, MixColumns(p, m)), InvMixColumns(p, k)), InvMixColumns(p, k));
      { KeyCancels(p, InvMixColumns(p, MixColumns(p, m)), InvMixColumns(p, k)); }
      InvMixColumns(p, MixColumns(p, m));
      { MixUndone(p, m); }
      m;
    }
  }

  /** The last inverse round undoes the initial key addition. */
  lemma UndoFirst<B(!new)>(p: Params<B>, s: State<B>, k: State<B>)
    requires p.Lawful()
    ensures DecFinal(p, Layer(p, AddRoundKey(p, s, k)), k) == s
  {
    FinalIsFinal(p, Layer(p, AddRoundKey(p, s, k)), k);
    LayerUndone(p, AddRoundKey(p, s, k));
    KeyCancels(p, s, k);
  }
}
