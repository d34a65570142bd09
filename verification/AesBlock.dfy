/**
 Key schedules and single-block operations of aes.c.
 */
module AesBlock {
  import opened Rijndael
  import opened Aes

  // ----- bytes, words and round keys

  /** GETU32 at byte i. */
  function GetWord<B>(a: seq<B>, i: nat): Word<B>
    requires i + 4 <= |a|
  {
    Word(a[i], a[i + 1], a[i + 2], a[i + 3])
  }

  function GetState<B>(a: seq<B>, i: nat): State<B>
    requires i + 16 <= |a|
  {
    State(GetWord(a, i), GetWord(a, i + 4), GetWord(a, i + 8), GetWord(a, i + 12))
  }

  function WordBytes<B>(w: Word<B>): seq<B> {
    [w.b0, w.b1, w.b2, w.b3]
  }

  function StateBytes<B>(s: State<B>): seq<B> {
    WordBytes(s.w0) + WordBytes(s.w1) + WordBytes(s.w2) + WordBytes(s.w3)
  }

  lemma BytesRoundTrip<B>(s: State<B>)
    ensures |StateBytes(s)| == 16 && GetState(StateBytes(s), 0) == s
  {
  }

  /** Round key r of a schedule. */
  function KeyAt<B>(rk: seq<Word<B>>, r: nat): State<B>
    requires 4 * r + 4 <= |rk|
  {
    State(rk[4 * r], rk[4 * r + 1], rk[4 * r + 2], rk[4 * r + 3])
  }

  /** The schedule as a sequence of round keys. */
  function KeysOf<B>(rk: seq<Word<B>>, rounds: nat): (keys: seq<State<B>>)
    requires 4 * rounds + 4 <= |rk|
    ensures |keys| == rounds + 1 && forall r :: 0 <= r <= rounds ==> keys[r] == KeyAt(rk, r)
  {
    seq(rounds + 1, r requires 0 <= r <= rounds => KeyAt(rk, r))
  }

  // ----- rounds in sequence

  /** n rounds of f, under keys 1 to n. */
  function After<S>(f: (S, S) -> S, keys: seq<S>, s: S, n: nat): S
    requires n < |keys|
  {
    if n == 0 then s else f(After(f, keys, s, n - 1), keys[n])
  }

  /** Under key dk, g strips a round of f under key k from inside a layer. */
  ghost predicate Strips<S(!new)>(f: (S, S) -> S, g: (S, S) -> S, layer: S -> S, k: S, dk: S) {
    forall s :: g(layer(f(s, k)), dk) == layer(s)
  }

  /** After i inverse rounds the state is what encryption fed into its last layer but i. */
  lemma {:induction false} Meet<S(!new)>(f: (S, S) -> S, g: (S, S) -> S, layer: S -> S,
                                         keys: seq<S>, dkeys: seq<S>, s: S, d: S, i: nat)
    requires |dkeys| == |keys| && i + 1 < |keys|
    requires forall r :: 0 < r < |keys| - 1 ==> Strips(f, g, layer, keys[|keys| - 1 - r], dkeys[r])
    requires d == layer(After(f, keys, s, |keys| - 2))
    ensures After(g, dkeys, d, i) == layer(After(f, keys, s, |keys| - 2 - i))
    decreases i
  {
    if i > 0 {
      Meet(f, g, layer, keys, dkeys, s, d, i - 1);
      assert Strips(f, g, layer, keys[|keys| - 1 - i], dkeys[i]);
    }
  }

  // ----- block operations

  function EncFn<B(!new)>(p: Params<B>): (State<B>, State<B>) -> State<B> {
    (s, k) => EncRound(p, s, k)
  }

  function DecFn<B(!new)>(p: Params<B>): (State<B>, State<B>) -> State<B> {
    (s, k) => DecRound(p, s, k)
  }

  function LayerFn<B(!new)>(p: Params<B>): State<B> -> State<B> {
    s => Layer(p, s)
  }

  lemma EncFnIs<B(!new)>(p: Params<B>, s: State<B>, k: State<B>)
    ensures EncFn(p)(s, k) == EncRound(p, s, k)
  {
  }

  lemma DecFnIs<B(!new)>(p: Params<B>, s: State<B>, k: State<B>)
    ensures DecFn(p)(s, k) == DecRound(p, s, k)
  {
  }

  lemma LayerFnIs<B(!new)>(p: Params<B>, s: State<B>)
    ensures LayerFn(p)(s) == Layer(p, s)
  {
  }

  lemma StripsRound<B(!new)>(p: Params<B>, k: State<B>)
    requires p.Lawful()
    ensures Strips(EncFn(p), DecFn(p), LayerFn(p), k, InvMixColumns(p, k))
  {
    forall s: State<B>
      ensures DecFn(p)(LayerFn(p)(EncFn(p)(s, k)), InvMixColumns(p, k)) == LayerFn(p)(s)
    {
      EncFnIs(p, s, k);
      LayerFnIs(p, EncRound(p, s, k));
      DecFnIs(p, Layer(p, EncRound(p, s, k)), InvMixColumns(p, k));
      UndoRound(p, s, k);
      LayerFnIs(p, s);
    }
  }

  /** What AES_encrypt computes on a block, table by table. */
  function EncBlock<B(!new)>(p: Params<B>, keys: seq<State<B>>, s: State<B>): State<B>
    requires 2 <= |keys|
  {
    EncFinal(p, After(EncFn(p), keys, AddRoundKey(p, s, keys[0]), |keys| - 2), keys[|keys| - 1])
  }

  function DecBlock<B(!new)>(p: Params<B>, keys: seq<State<B>>, s: State<B>): State<B>
    requires 2 <= |keys|
  {
    DecFinal(p, After(DecFn(p), keys, AddRoundKey(p, s, keys[0]), |keys| - 2), keys[|keys| - 1])
  }

  /** The decryption schedule belonging to an encryption schedule: round keys
      reversed, the inner ones passed through InvMixColumns. */
  ghost predicate DecryptSchedule<B(!new)>(p: Params<B>, keys: seq<State<B>>, dkeys: seq<State<B>>) {
    && |dkeys| == |keys|
    && forall r :: 0 <= r < |keys| ==>
         dkeys[r] == if r == 0 || r == |keys| - 1 then keys[|keys| - 1 - r] else InvMixColumns(p, keys[|keys| - 1 - r])
  }

  lemma InnerKeysStrip<B(!new)>(p: Params<B>, keys: seq<State<B>>, dkeys: seq<State<B>>, r: nat)
    requires p.Lawful() && DecryptSchedule(p, keys, dkeys) && 0 < r < |keys| - 1
    ensures Strips(EncFn(p), DecFn(p), LayerFn(p), keys[|keys| - 1 - r], dkeys[r])
  {
    StripsRound(p, keys[|keys| - 1 - r]);
  }

  /** The inverse rounds take the last layer of encryption back to the first. */
  lemma InnerRounds<B(!new)>(p: Params<B>, keys: seq<State<B>>, dkeys: seq<State<B>>, start: State<B>, d: State<B>)
    requires p.Lawful() && 2 <= |keys| && DecryptSchedule(p, keys, dkeys)
    requires d == LayerFn(p)(After(EncFn(p), keys, start, |keys| - 2))
    ensures After(DecFn(p), dkeys, d, |keys| - 2) == LayerFn(p)(start)
  {
    forall r | 0 < r < |keys| - 1 { InnerKeysStrip(p, keys, dkeys, r); }
    Meet(EncFn(p), DecFn(p), LayerFn(p), keys, dkeys, start, d, |keys| - 2);
  }

  /** Decrypting what was encrypted, each with its own schedule, gives the block back. */
  lemma BlockRoundTrip<B(!new)>(p: Params<B>, keys: seq<State<B>>, dkeys: seq<State<B>>, s: State<B>)
    requires p.Lawful() && 2 <= |keys| && DecryptSchedule(p, keys, dkeys)
    ensures DecBlock(p, dkeys, EncBlock(p, keys, s)) == s
  {
    var last := |keys| - 1;
    var start := AddRoundKey(p, s, keys[0]);
    var e := After(EncFn(p), keys, start, last - 1);
    var c := EncFinal(p, e, keys[last]);
    var d := AddRoundKey(p, c, dkeys[0]);
    assert d == LayerFn(p)(e) by {
      UndoFinal(p, e, keys[last]);
      LayerFnIs(p, e);
    }
    InnerRounds(p, keys, dkeys, start, d);
    calc {
      DecBlock(p, dkeys, EncBlock(p, keys, s));
      DecFinal(p, After(DecFn(p), dkeys, d, last - 1), dkeys[last]);
      { LayerFnIs(p, start); }
      DecFinal(p, Layer(p, start), keys[0]);
      { UndoFirst(p, s, keys[0]); }
      s;
    }
  }

  // ----- the tables compute the FIPS 197 cipher

  lemma {:induction false} SameRounds<S(!new)>(f: (S, S) -> S, g: (S, S) -> S, keys: seq<S>, s: S, n: nat)
    requires n < |keys|
    requires forall x, k :: f(x, k) == g(x, k)
    ensures After(f, keys, s, n) == After(g, keys, s, n)
  {
    if n > 0 {
      SameRounds(f, g, keys, s, n - 1);
    }
  }

  /** A round of section 5.1 of FIPS 197. */
  function CipherFn<B(!new)>(p: Params<B>): (State<B>, State<B>) -> State<B> {
    (s, k) => AddRoundKey(p, MixColumns(p, ShiftRows(SubBytes(p, s))), k)
  }

  lemma RoundsAgree<B(!new)>(p: Params<B>, s: State<B>, k: State<B>)
    ensures EncFn(p)(s, k) == CipherFn(p)(s, k)
  {
    EncFnIs(p, s, k);
    EncRoundIsRound(p, s, k);
  }

  /** The cipher of section 5.1 of FIPS 197. */
  function Cipher<B(!new)>(p: Params<B>, keys: seq<State<B>>, s: State<B>): State<B>
    requires 2 <= |keys|
  {
    var inner := After(CipherFn(p), keys, AddRoundKey(p, s, keys[0]), |keys| - 2);
    AddRoundKey(p, ShiftRows(SubBytes(p, inner)), keys[|keys| - 1])
  }

  lemma EncBlockIsCipher<B(!new)>(p: Params<B>, keys: seq<State<B>>, s: State<B>)
    requires 2 <= |keys|
    ensures EncBlock(p, keys, s) == Cipher(p, keys, s)
  {
    var start := AddRoundKey(p, s, keys[0]);
    forall x: State<B>, k: State<B> { RoundsAgree(p, x, k); }
    SameRounds(EncFn(p), CipherFn(p), keys, start, |keys| - 2);
    FinalIsFinal(p, After(EncFn(p), keys, start, |keys| - 2), keys[|keys| - 1]);
  }
}
