/**
 AES_encrypt, AES_decrypt and AES_cbc_encrypt on byte buffers.
 */
module AesCrypt {
  import opened Rijndael
  import opened Aes
  import opened AesBlock
  import opened AesKeys
  import Cbc

  /** The round loop that AES_encrypt and AES_decrypt share: two rounds an
      iteration, left in the middle of the last one. */
  method RoundLoop<S>(f: (S, S) -> S, keys: seq<S>, start: S) returns (t: S)
    requires |keys| == 11 || |keys| == 13 || |keys| == 15
    ensures t == After(f, keys, start, |keys| - 2)
  {
    var s := start;
    var r, b := (|keys| - 1) / 2, 0;
    while true
      invariant 0 < r <= (|keys| - 1) / 2 && b == 2 * ((|keys| - 1) / 2 - r)
      invariant s == After(f, keys, start, b)
      decreases r
    {
      t := f(s, keys[b + 1]);
      b := b + 2;
      r := r - 1;
      if r == 0 {
        break;
      }
      s := f(t, keys[b]);
    }
  }

  /** AES_encrypt, from the cipher state's point of view. */
  method EncryptState<B(!new)>(p: Params<B>, rk: seq<Word<B>>, rounds: nat, x: State<B>) returns (c: State<B>)
    requires (rounds == 10 || rounds == 12 || rounds == 14) && 4 * rounds + 4 <= |rk|
    ensures c == EncBlock(p, KeysOf(rk, rounds), x)
  {
    var s := AddRoundKey(p, x, KeyAt(rk, 0));
    var t := RoundLoop(EncFn(p), KeysOf(rk, rounds), s);
    c := EncFinal(p, t, KeyAt(rk, rounds));
  }

  method DecryptState<B(!new)>(p: Params<B>, rk: seq<Word<B>>, rounds: nat, x: State<B>) returns (c: State<B>)
    requires (rounds == 10 || rounds == 12 || rounds == 14) && 4 * rounds + 4 <= |rk|
    ensures c == DecBlock(p, KeysOf(rk, rounds), x)
  {
    var s := AddRoundKey(p, x, KeyAt(rk, 0));
    var t := RoundLoop(DecFn(p), KeysOf(rk, rounds), s);
    c := DecFinal(p, t, KeyAt(rk, rounds));
  }

  // ----- chaining AES blocks

  function EncBytes<B(!new)>(p: Params<B>, keys: seq<State<B>>): seq<B> -> seq<B>
    requires 2 <= |keys|
  {
    b => if |b| == 16 then StateBytes(EncBlock(p, keys, GetState(b, 0))) else b
  }

  function DecBytes<B(!new)>(p: Params<B>, keys: seq<State<B>>): seq<B> -> seq<B>
    requires 2 <= |keys|
  {
    b => if |b| == 16 then StateBytes(DecBlock(p, keys, GetState(b, 0))) else b
  }

  lemma EncBytesIs<B(!new)>(p: Params<B>, keys: seq<State<B>>, b: seq<B>)
    requires 2 <= |keys| && |b| == 16
    ensures EncBytes(p, keys)(b) == StateBytes(EncBlock(p, keys, GetState(b, 0)))
  {
  }

  lemma DecBytesIs<B(!new)>(p: Params<B>, keys: seq<State<B>>, b: seq<B>)
    requires 2 <= |keys| && |b| == 16
    ensures DecBytes(p, keys)(b) == StateBytes(DecBlock(p, keys, GetState(b, 0)))
  {
  }

  /** Bytes to state and back. */
  lemma StateRoundTrip<B>(b: seq<B>, s: State<B>)
    requires |b| == 16
    ensures StateBytes(GetState(b, 0)) == b
    ensures |StateBytes(s)| == 16 && GetState(StateBytes(s), 0) == s
  {
    BytesRoundTrip(s);
  }

  /** AES_cbc_encrypt under an encryption and a decryption schedule. */
  function AesChain<B(0,!new)>(p: Params<B>, keys: seq<State<B>>, dkeys: seq<State<B>>): Cbc.Chain<B>
    requires 2 <= |keys| && 2 <= |dkeys|
  {
    Cbc.Chain(p.add, EncBytes(p, keys), DecBytes(p, dkeys))
  }

  lemma BlockInverts<B(0,!new)>(p: Params<B>, keys: seq<State<B>>, dkeys: seq<State<B>>, b: seq<B>)
    requires p.Lawful() && 2 <= |keys| && DecryptSchedule(p, keys, dkeys) && |b| == 16
    ensures |EncBytes(p, keys)(b)| == 16
    ensures DecBytes(p, dkeys)(EncBytes(p, keys)(b)) == b
  {
    var s := GetState(b, 0);
    var c := EncBlock(p, keys, s);
    EncBytesIs(p, keys, b);
    StateRoundTrip(b, c);
    DecBytesIs(p, dkeys, StateBytes(c));
    BlockRoundTrip(p, keys, dkeys, s);
  }

  lemma AesChainIsLawful<B(0,!new)>(p: Params<B>, keys: seq<State<B>>, dkeys: seq<State<B>>)
    requires p.Lawful() && 2 <= |keys| && DecryptSchedule(p, keys, dkeys)
    ensures AesChain(p, keys, dkeys).Lawful()
  {
    var chain := AesChain(p, keys, dkeys);
    forall a, b
      ensures chain.Cancels(a, b)
    {
      assert p.Cancels(a, b);
    }
    forall b: seq<B>
      ensures chain.Inverts(b)
    {
      if |b| == 16 {
        BlockInverts(p, keys, dkeys, b);
      }
    }
    forall b: seq<B>
      ensures chain.DecSize(b)
    {
      if |b| == 16 {
        DecBytesIs(p, dkeys, b);
        StateRoundTrip(b, DecBlock(p, dkeys, GetState(b, 0)));
      }
    }
  }

  /** Both schedules of one user key, and the chaining mode over them. */
  method Schedules<B(0,!new)>(p: Params<B>, table: seq<Word<B>>, userKey: array<B>, bits: int)
      returns (chain: Cbc.Chain<B>, rk: seq<Word<B>>, dk: seq<Word<B>>)
    requires p.Lawful() && |table| == 10 && forall i :: 0 <= i < 10 ==> table[i] == Rcon(p, i)
    requires BitsOk(bits) && bits / 8 <= userKey.Length
    ensures |rk| == |dk| == 60 && HoldsExpansion(p, rk, userKey[..], bits)
    ensures DecryptSchedule(p, KeysOf(rk, Rounds(bits)), KeysOf(dk, Rounds(bits)))
    ensures chain == AesChain(p, KeysOf(rk, Rounds(bits)), KeysOf(dk, Rounds(bits))) && chain.Lawful()
  {
    var ek := new AesKey<B>();
    var status := SetEncryptKey(p, table, userKey, bits, ek);
    var keys := KeysOf(ek.rdKey[..], ek.rounds);
    rk := ek.rdKey[..];
    var dkey := new AesKey<B>();
    ghost var expanded;
    status, expanded := SetDecryptKey(p, table, userKey, bits, dkey);
    ExpansionUnique(p, expanded, rk, userKey[..], bits);
    dk := dkey.rdKey[..];
    var dkeys := KeysOf(dkey.rdKey[..], dkey.rounds);
    AesChainIsLawful(p, keys, dkeys);
    chain := AesChain(p, keys, dkeys);
  }

  /** Encrypting a buffer in place and decrypting the result in place, with keys
      derived from the same user key and the same initial vector, gives the
      data back: any key length, any data length. */
  method EncryptThenDecrypt<B(0,!new)>(p: Params<B>, table: seq<Word<B>>, userKey: array<B>, bits: int,
                                       data: array<B>, length: nat, iv: seq<B>)
    requires p.Lawful() && |table| == 10 && forall i :: 0 <= i < 10 ==> table[i] == Rcon(p, i)
    requires BitsOk(bits) && bits / 8 <= userKey.Length
    requires length <= data.Length && Cbc.Padded(length) <= data.Length && |iv| == 16
    modifies data
    ensures data[..length] == old(data[..length])
  {
    var chain, rk, dk := Schedules(p, table, userKey, bits);
    chain.ThereAndBack(data, length, iv);
  }

  /** The same for one block, through the two key functions and the two round
      loops: AES_decrypt undoes AES_encrypt. */
  method BlockThereAndBack<B(0,!new)>(p: Params<B>, table: seq<Word<B>>, userKey: array<B>, bits: int, block: seq<B>)
      returns (cipher: seq<B>, plain: seq<B>)
    requires p.Lawful() && |table| == 10 && forall i :: 0 <= i < 10 ==> table[i] == Rcon(p, i)
    requires BitsOk(bits) && bits / 8 <= userKey.Length && |block| == 16
    ensures |cipher| == 16 && plain == block
  {
    var chain, rk, dk := Schedules(p, table, userKey, bits);
    var c := EncryptState(p, rk, Rounds(bits), GetState(block, 0));
    cipher := StateBytes(c);
    StateRoundTrip(block, c);
    var x := DecryptState(p, dk, Rounds(bits), GetState(cipher, 0));
    plain := StateBytes(x);
    BlockRoundTrip(p, KeysOf(rk, Rounds(bits)), KeysOf(dk, Rounds(bits)), GetState(block, 0));
  }
}
