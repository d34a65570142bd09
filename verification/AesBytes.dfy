/**
 AES_encrypt byte by byte, with no tables and no transformations of words: the
 block's bytes fill the state column by column, and word c of a round's key is
 added to column c.
 */
module AesBytes {
  import opened Rijndael
  import opened Aes
  import opened AesBlock
  import opened AesKeys
  import opened AesCrypt

  /** The first key addition, of one column. */
  ghost predicate Whitened<B(!new)>(p: Params<B>, block: seq<B>, at: nat, k: Word<B>, to: Word<B>)
    requires at + 4 <= |block|
  {
    && to.b0 == p.add(block[at], k.b0) && to.b1 == p.add(block[at + 1], k.b1)
    && to.b2 == p.add(block[at + 2], k.b2) && to.b3 == p.add(block[at + 3], k.b3)
  }

  /** One column of an inner round: the bytes are substituted and mixed with the
      coefficients 2, 3, 1 and 1 (sections 5.1.1, 5.1.3 and 5.1.4 of FIPS 197). */
  ghost predicate Mixed<B(!new)>(p: Params<B>, b0: B, b1: B, b2: B, b3: B, k: Word<B>, to: Word<B>) {
    var s, t, u, v := p.sub(b0), p.sub(b1), p.sub(b2), p.sub(b3);
    && to.b0 == p.add(p.add(p.add(p.add(p.x2(s), p.add(p.x2(t), t)), u), v), k.b0)
    && to.b1 == p.add(p.add(p.add(p.add(s, p.x2(t)), p.add(p.x2(u), u)), v), k.b1)
    && to.b2 == p.add(p.add(p.add(p.add(s, t), p.x2(u)), p.add(p.x2(v), v)), k.b2)
    && to.b3 == p.add(p.add(p.add(p.add(p.add(p.x2(s), s), t), u), p.x2(v)), k.b3)
  }

  /** One column of the last round, which does not mix. */
  ghost predicate Substituted<B(!new)>(p: Params<B>, b0: B, b1: B, b2: B, b3: B, k: Word<B>, at: nat, out: seq<B>)
    requires at + 4 <= |out|
  {
    && out[at] == p.add(p.sub(b0), k.b0) && out[at + 1] == p.add(p.sub(b1), k.b1)
    && out[at + 2] == p.add(p.sub(b2), k.b2) && out[at + 3] == p.add(p.sub(b3), k.b3)
  }

  /** Inner round r: row i comes from i columns further on (section 5.1.2). */
  ghost predicate RoundAt<B(!new)>(p: Params<B>, rk: seq<Word<B>>, states: seq<State<B>>, r: nat)
    requires 0 < r < |states| && 4 * r + 4 <= |rk|
  {
    var s, m := states[r - 1], states[r];
    && Mixed(p, s.w0.b0, s.w1.b1, s.w2.b2, s.w3.b3, rk[4 * r], m.w0)
    && Mixed(p, s.w1.b0, s.w2.b1, s.w3.b2, s.w0.b3, rk[4 * r + 1], m.w1)
    && Mixed(p, s.w2.b0, s.w3.b1, s.w0.b2, s.w1.b3, rk[4 * r + 2], m.w2)
    && Mixed(p, s.w3.b0, s.w0.b1, s.w1.b2, s.w2.b3, rk[4 * r + 3], m.w3)
  }

  ghost predicate FirstAt<B(!new)>(p: Params<B>, rk: seq<Word<B>>, block: seq<B>, s: State<B>)
    requires 4 <= |rk| && |block| == 16
  {
    && Whitened(p, block, 0, rk[0], s.w0) && Whitened(p, block, 4, rk[1], s.w1)
    && Whitened(p, block, 8, rk[2], s.w2) && Whitened(p, block, 12, rk[3], s.w3)
  }

  ghost predicate LastAt<B(!new)>(p: Params<B>, rk: seq<Word<B>>, s: State<B>, r: nat, out: seq<B>)
    requires 4 * r + 4 <= |rk| && |out| == 16
  {
    && Substituted(p, s.w0.b0, s.w1.b1, s.w2.b2, s.w3.b3, rk[4 * r], 0, out)
    && Substituted(p, s.w1.b0, s.w2.b1, s.w3.b2, s.w0.b3, rk[4 * r + 1], 4, out)
    && Substituted(p, s.w2.b0, s.w3.b1, s.w0.b2, s.w1.b3, rk[4 * r + 2], 8, out)
    && Substituted(p, s.w3.b0, s.w0.b1, s.w1.b2, s.w2.b3, rk[4 * r + 3], 12, out)
  }

  /** block becomes out through the states between the rounds. */
  ghost predicate Encryption<B(!new)>(p: Params<B>, rk: seq<Word<B>>, rounds: nat, block: seq<B>,
                                      states: seq<State<B>>, out: seq<B>)
  {
    && |states| == rounds > 0 && 4 * rounds + 4 <= |rk| && |block| == |out| == 16
    && FirstAt(p, rk, block, states[0])
    && (forall r: nat :: 0 < r < rounds ==> RoundAt(p, rk, states, r))
    && LastAt(p, rk, states[rounds - 1], rounds, out)
  }

  lemma ColumnIsMixed<B(!new)>(p: Params<B>, a: Word<B>, b: Word<B>, c: Word<B>, d: Word<B>, k: Word<B>)
    ensures Mixed(p, a.b0, b.b1, c.b2, d.b3, k, EncColumn(p, a, b, c, d, k))
  {
  }

  /** The states between the rounds. */
  ghost function StatesOf<B(!new)>(p: Params<B>, rk: seq<Word<B>>, rounds: nat, block: seq<B>): seq<State<B>>
    requires 0 < rounds && 4 * rounds + 4 <= |rk| && |block| == 16
  {
    var start := AddRoundKey(p, GetState(block, 0), KeyAt(rk, 0));
    seq(rounds, r requires 0 <= r < rounds => After(EncFn(p), KeysOf(rk, rounds), start, r))
  }

  ghost predicate Stepped<B(!new)>(p: Params<B>, rk: seq<Word<B>>, states: seq<State<B>>, r: nat)
    requires 0 < r < |states| && 4 * r + 4 <= |rk|
  {
    states[r] == EncRound(p, states[r - 1], KeyAt(rk, r))
  }

  lemma NextState<B(!new)>(p: Params<B>, rk: seq<Word<B>>, rounds: nat, block: seq<B>, r: nat)
    requires 0 < r < rounds && 4 * rounds + 4 <= |rk| && |block| == 16
    ensures Stepped(p, rk, StatesOf(p, rk, rounds, block), r)
  {
    EncFnIs(p, StatesOf(p, rk, rounds, block)[r - 1], KeyAt(rk, r));
  }

  lemma LastState<B(!new)>(p: Params<B>, rk: seq<Word<B>>, rounds: nat, block: seq<B>)
    requires 0 < rounds && 4 * rounds + 4 <= |rk| && |block| == 16
    ensures EncBlock(p, KeysOf(rk, rounds), GetState(block, 0)) ==
      EncFinal(p, StatesOf(p, rk, rounds, block)[rounds - 1], KeyAt(rk, rounds))
  {
  }

  lemma InnerRound<B(!new)>(p: Params<B>, rk: seq<Word<B>>, states: seq<State<B>>, r: nat)
    requires 0 < r < |states| && 4 * r + 4 <= |rk| && Stepped(p, rk, states, r)
    ensures RoundAt(p, rk, states, r)
  {
    var s := states[r - 1];
    ColumnIsMixed(p, s.w0, s.w1, s.w2, s.w3, rk[4 * r]);
    ColumnIsMixed(p, s.w1, s.w2, s.w3, s.w0, rk[4 * r + 1]);
    ColumnIsMixed(p, s.w2, s.w3, s.w0, s.w1, rk[4 * r + 2]);
    ColumnIsMixed(p, s.w3, s.w0, s.w1, s.w2, rk[4 * r + 3]);
  }

  lemma FirstKey<B(!new)>(p: Params<B>, rk: seq<Word<B>>, block: seq<B>)
    requires 4 <= |rk| && |block| == 16
    ensures FirstAt(p, rk, block, AddRoundKey(p, GetState(block, 0), KeyAt(rk, 0)))
  {
  }

  lemma LastRound<B(!new)>(p: Params<B>, rk: seq<Word<B>>, s: State<B>, r: nat)
    requires 4 * r + 4 <= |rk|
    ensures LastAt(p, rk, s, r, StateBytes(EncFinal(p, s, KeyAt(rk, r))))
  {
  }

  lemma EncryptionFrom<B(!new)>(p: Params<B>, rk: seq<Word<B>>, rounds: nat, block: seq<B>, states: seq<State<B>>)
    requires |states| == rounds > 0 && 4 * rounds + 4 <= |rk| && |block| == 16
    requires states[0] == AddRoundKey(p, GetState(block, 0), KeyAt(rk, 0))
    requires forall r: nat :: 0 < r < rounds ==> Stepped(p, rk, states, r)
    ensures Encryption(p, rk, rounds, block, states,
      StateBytes(EncFinal(p, states[rounds - 1], KeyAt(rk, rounds))))
  {
    FirstKey(p, rk, block);
    forall r: nat | 0 < r < rounds
      ensures RoundAt(p, rk, states, r)
    {
      InnerRound(p, rk, states, r);
    }
    LastRound(p, rk, states[rounds - 1], rounds);
  }

  /** The table-driven block operation computes it. */
  lemma BlockIsEncryption<B(!new)>(p: Params<B>, rk: seq<Word<B>>, rounds: nat, block: seq<B>)
    requires 0 < rounds && 4 * rounds + 4 <= |rk| && |block| == 16
    ensures Encryption(p, rk, rounds, block, StatesOf(p, rk, rounds, block),
      StateBytes(EncBlock(p, KeysOf(rk, rounds), GetState(block, 0))))
  {
    var states := StatesOf(p, rk, rounds, block);
    forall r: nat | 0 < r < rounds
      ensures Stepped(p, rk, states, r)
    {
      NextState(p, rk, rounds, block, r);
    }
    EncryptionFrom(p, rk, rounds, block, states);
    LastState(p, rk, rounds, block);
  }

  /** PUTU32. */
  method PutWord<B>(w: Word<B>, output: array<B>, at: nat)
    requires at + 4 <= output.Length
    modifies output
    ensures forall i :: 0 <= i < output.Length && !(at <= i < at + 4) ==> output[i] == old(output[i])
    ensures output[at] == w.b0 && output[at + 1] == w.b1 && output[at + 2] == w.b2 && output[at + 3] == w.b3
  {
    output[at], output[at + 1], output[at + 2], output[at + 3] := w.b0, w.b1, w.b2, w.b3;
  }

  /** The end of AES_encrypt. */
  method PutState<B>(s: State<B>, output: array<B>)
    requires output.Length >= 16
    modifies output
    ensures output[..16] == StateBytes(s) && output[16..] == old(output[16..])
  {
    PutWord(s.w0, output, 0);
    PutWord(s.w1, output, 4);
    PutWord(s.w2, output, 8);
    PutWord(s.w3, output, 12);
  }

  /** AES_encrypt on byte buffers, which may be the same one. */
  method EncryptBlock<B(0,!new)>(p: Params<B>, key: AesKey<B>, input: array<B>, output: array<B>)
      returns (ghost states: seq<State<B>>)
    requires key.rdKey.Length == 60 && (key.rounds == 10 || key.rounds == 12 || key.rounds == 14)
    requires input.Length >= 16 && output.Length >= 16 && output as object != key.rdKey
    modifies output
    ensures Encryption(p, key.rdKey[..], key.rounds, old(input[..16]), states, output[..16])
    ensures output[16..] == old(output[16..])
  {
    ghost var block, rk := input[..16], key.rdKey[..];
    states := StatesOf(p, rk, key.rounds, block);
    BlockIsEncryption(p, rk, key.rounds, block);
    var x := GetState(input[..16], 0);
    var c := EncryptState(p, key.rdKey[..], key.rounds, x);
    PutState(c, output);
  }

  /** It is also the block function that AES_cbc_encrypt chains. */
  lemma ChainedBlocks<B(0,!new)>(p: Params<B>, rk: seq<Word<B>>, dk: seq<Word<B>>, rounds: nat, block: seq<B>)
      returns (states: seq<State<B>>)
    requires 0 < rounds && 4 * rounds + 4 <= |rk| == |dk| && |block| == 16
    ensures Encryption(p, rk, rounds, block, states,
      AesChain(p, KeysOf(rk, rounds), KeysOf(dk, rounds)).enc(block))
  {
    states := StatesOf(p, rk, rounds, block);
    BlockIsEncryption(p, rk, rounds, block);
    EncBytesIs(p, KeysOf(rk, rounds), block);
  }
}
