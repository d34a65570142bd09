/**
 Cipher block chaining as AES_cbc_encrypt does it (section 6.2 of NIST SP
 800-38A for whole blocks), over any block function: the last, partial block
 is padded with the chaining value on encryption.
 */
module Cbc {

  const BLOCK: nat := 16

  /** Byte addition, and a block function with its inverse. */
  datatype Chain<!B(0,!new)> = Chain(add: (B, B) -> B, enc: seq<B> -> seq<B>, dec: seq<B> -> seq<B>)
  {
    ghost predicate Cancels(a: B, b: B) {
      add(add(a, b), b) == a
    }

    ghost predicate Inverts(b: seq<B>) {
      |b| == BLOCK ==> |enc(b)| == BLOCK && dec(enc(b)) == b
    }

    ghost predicate DecSize(b: seq<B>) {
      |b| == BLOCK ==> |dec(b)| == BLOCK
    }

    ghost predicate Lawful() {
      && (forall a, b :: Cancels(a, b))
      && (forall b :: Inverts(b))
      && (forall b :: DecSize(b))
    }

    /** `tmp[n] = in[n] ^ ivec[n]`, and plain ivec[n] past the end of the data. */
    function Blend(data: seq<B>, iv: seq<B>): (r: seq<B>)
      requires |data| <= BLOCK == |iv|
      ensures |r| == BLOCK
    {
      seq(BLOCK, n requires 0 <= n < BLOCK => if n < |data| then add(data[n], iv[n]) else iv[n])
    }

    /** The ciphertext: whole blocks, the last one padded if need be. */
    ghost function Encrypt(data: seq<B>, iv: seq<B>): (r: seq<B>)
      requires Lawful() && |iv| == BLOCK
      decreases |data|
    {
      if data == [] then []
      else if |data| < BLOCK then enc(Blend(data, iv))
      else
        var c := enc(Blend(data[..BLOCK], iv));
        assert Inverts(Blend(data[..BLOCK], iv));
        c + Encrypt(data[BLOCK..], c)
    }

    /** The first length bytes of plaintext. */
    ghost function Decrypt(cipher: seq<B>, length: nat, iv: seq<B>): seq<B>
      requires Lawful() && |iv| == BLOCK && Padded(length) <= |cipher|
      decreases length
    {
      if length == 0 then []
      else
        assert DecSize(cipher[..BLOCK]);
        if length < BLOCK then Blend(dec(cipher[..BLOCK]), iv)[..length]
        else Blend(dec(cipher[..BLOCK]), iv) + Decrypt(cipher[BLOCK..], length - BLOCK, cipher[..BLOCK])
    }

    lemma {:induction false} EncryptSize(data: seq<B>, iv: seq<B>)
      requires Lawful() && |iv| == BLOCK
      ensures |Encrypt(data, iv)| == Padded(|data|)
      decreases |data|
    {
      if data != [] {
        var first := if |data| < BLOCK then data else data[..BLOCK];
        assert Inverts(Blend(first, iv));
        if |data| >= BLOCK {
          EncryptSize(data[BLOCK..], enc(Blend(first, iv)));
        }
      }
    }

    lemma BlendTwice(data: seq<B>, iv: seq<B>)
      requires Lawful() && |data| <= BLOCK == |iv|
      ensures Blend(Blend(data, iv), iv)[..|data|] == data
    {
      forall n | 0 <= n < |data|
        ensures Blend(Blend(data, iv), iv)[n] == data[n]
      {
        assert Cancels(data[n], iv[n]);
      }
    }

    /** Decrypting what was encrypted returns the data, for every length. */
    lemma {:induction false} RoundTrip(data: seq<B>, iv: seq<B>)
      requires Lawful() && |iv| == BLOCK
      ensures |Encrypt(data, iv)| == Padded(|data|)
      ensures Decrypt(Encrypt(data, iv), |data|, iv) == data
      decreases |data|
    {
      EncryptSize(data, iv);
      if data != [] {
        var first := if |data| < BLOCK then data else data[..BLOCK];
        var c := enc(Blend(first, iv));
        assert Inverts(Blend(first, iv));
        BlendTwice(first, iv);
        var all := Encrypt(data, iv);
        if |data| < BLOCK {
          assert all[..BLOCK] == c;
        } else {
          RoundTrip(data[BLOCK..], c);
          assert all[..BLOCK] == c && all[BLOCK..] == Encrypt(data[BLOCK..], c);
          assert data == data[..BLOCK] + data[BLOCK..];
        }
      }
    }

    // ----- block by block, as section 6.2 of SP 800-38A has it

    /** x is the data at `at` added, byte by byte, to the block of output before
        it, or to iv; past the data there is nothing to add. */
    ghost predicate IsSum(data: seq<B>, iv: seq<B>, out: seq<B>, at: nat, x: seq<B>)
      requires |iv| == BLOCK && at <= |out|
    {
      |x| == BLOCK && forall n: nat :: n < BLOCK ==>
        var prev := if at < BLOCK then iv[n] else out[at - BLOCK + n];
        x[n] == if at + n < |data| then add(data[at + n], prev) else prev
    }

    /** The block of output at `at` is the encryption of that sum. */
    ghost predicate EncryptsBlock(data: seq<B>, iv: seq<B>, out: seq<B>, at: nat)
      requires |iv| == BLOCK
    {
      at + BLOCK <= |out| && forall x: seq<B> :: IsSum(data, iv, out, at, x) ==> out[at..at + BLOCK] == enc(x)
    }

    ghost predicate EncryptsAll(data: seq<B>, iv: seq<B>, out: seq<B>)
      requires |iv| == BLOCK
    {
      forall at: nat :: at % BLOCK == 0 && at < |data| ==> EncryptsBlock(data, iv, out, at)
    }

    /** Byte n of the output's block at `at` is that of the decrypted block,
        added to byte n of the ciphertext block before it, or of iv. */
    ghost predicate DecryptsByte(cipher: seq<B>, iv: seq<B>, out: seq<B>, at: nat, n: nat)
      requires |iv| == BLOCK && n < BLOCK
    {
      && at + n < |out| && at + BLOCK <= |cipher| && |dec(cipher[at..at + BLOCK])| == BLOCK
      && out[at + n] == add(dec(cipher[at..at + BLOCK])[n], if at < BLOCK then iv[n] else cipher[at - BLOCK + n])
    }

    ghost predicate DecryptsAll(cipher: seq<B>, iv: seq<B>, out: seq<B>)
      requires |iv| == BLOCK
    {
      forall at: nat, n: nat :: at % BLOCK == 0 && n < BLOCK && at + n < |out| ==> DecryptsByte(cipher, iv, out, at, n)
    }

    lemma FirstBlock(data: seq<B>, iv: seq<B>)
      requires Lawful() && |iv| == BLOCK && data != []
      ensures EncryptsBlock(data, iv, Encrypt(data, iv), 0)
    {
      var first := if |data| < BLOCK then data else data[..BLOCK];
      var all := Encrypt(data, iv);
      assert Inverts(Blend(first, iv));
      assert all[0..BLOCK] == enc(Blend(first, iv));
      forall x: seq<B> | IsSum(data, iv, all, 0, x)
        ensures all[0..BLOCK] == enc(x)
      {
        assert x == Blend(first, iv);
      }
    }

    /** A block of the rest is a block of the whole. */
    lemma LaterBlock(data: seq<B>, iv: seq<B>, c: seq<B>, rest: seq<B>, at: nat)
      requires |iv| == |c| == BLOCK <= |data| && (at == 0 || BLOCK <= at)
      requires EncryptsBlock(data[BLOCK..], c, rest, at)
      ensures EncryptsBlock(data, iv, c + rest, at + BLOCK)
    {
      var all := c + rest;
      SliceOfRest(c, rest, at);
      forall x: seq<B> | IsSum(data, iv, all, at + BLOCK, x)
        ensures all[at + BLOCK..at + BLOCK + BLOCK] == enc(x)
      {
        assert IsSum(data[BLOCK..], c, rest, at, x);
      }
    }

    static lemma SliceOfRest(c: seq<B>, rest: seq<B>, at: nat)
      requires |c| == BLOCK && at + BLOCK <= |rest|
      ensures (c + rest)[at + BLOCK..at + BLOCK + BLOCK] == rest[at..at + BLOCK]
    {
      assert (c + rest)[BLOCK..] == rest;
      assert (c + rest)[BLOCK..][at..at + BLOCK] == (c + rest)[at + BLOCK..at + BLOCK + BLOCK];
    }

    static lemma BlockBefore(at: nat)
      requires at % BLOCK == 0 && at > 0
      ensures at >= BLOCK && (at - BLOCK) % BLOCK == 0
    {
    }

    lemma {:induction false} EncryptsBlocks(data: seq<B>, iv: seq<B>, at: nat)
      requires Lawful() && |iv| == BLOCK && at % BLOCK == 0 && at < |data|
      ensures EncryptsBlock(data, iv, Encrypt(data, iv), at)
      decreases at
    {
      if at == 0 {
        FirstBlock(data, iv);
      } else {
        BlockBefore(at);
        var c := enc(Blend(data[..BLOCK], iv));
        assert Inverts(Blend(data[..BLOCK], iv));
        EncryptsBlocks(data[BLOCK..], c, at - BLOCK);
        EncryptsLater(data, iv, c, at - BLOCK);
      }
    }

    lemma EncryptsLater(data: seq<B>, iv: seq<B>, c: seq<B>, at: nat)
      requires Lawful() && |iv| == |c| == BLOCK <= |data| && at % BLOCK == 0 && c == enc(Blend(data[..BLOCK], iv))
      requires EncryptsBlock(data[BLOCK..], c, Encrypt(data[BLOCK..], c), at)
      ensures EncryptsBlock(data, iv, Encrypt(data, iv), at + BLOCK)
    {
      if at > 0 {
        BlockBefore(at);
      }
      LaterBlock(data, iv, c, Encrypt(data[BLOCK..], c), at);
    }

    /** Every block of the ciphertext is so. */
    lemma EncryptionIsChained(data: seq<B>, iv: seq<B>)
      requires Lawful() && |iv| == BLOCK
      ensures EncryptsAll(data, iv, Encrypt(data, iv))
    {
      forall at: nat | at % BLOCK == 0 && at < |data|
        ensures EncryptsBlock(data, iv, Encrypt(data, iv), at)
      {
        EncryptsBlocks(data, iv, at);
      }
    }

    lemma {:induction false} DecryptSize(cipher: seq<B>, length: nat, iv: seq<B>)
      requires Lawful() && |iv| == BLOCK && Padded(length) <= |cipher|
      ensures |Decrypt(cipher, length, iv)| == length
      decreases length
    {
      if length >= BLOCK {
        DecryptSize(cipher[BLOCK..], length - BLOCK, cipher[..BLOCK]);
      }
    }

    lemma {:induction false} DecryptsBytes(cipher: seq<B>, length: nat, iv: seq<B>, at: nat, n: nat)
      requires Lawful() && |iv| == BLOCK && Padded(length) <= |cipher|
      requires at % BLOCK == 0 && n < BLOCK && at + n < length
      ensures DecryptsByte(cipher, iv, Decrypt(cipher, length, iv), at, n)
      decreases length
    {
      DecryptSize(cipher, length, iv);
      var c := cipher[..BLOCK];
      assert DecSize(c);
      if at == 0 {
        assert cipher[0..BLOCK] == c;
      } else {
        BlockBefore(at);
        DecryptsBytes(cipher[BLOCK..], length - BLOCK, c, at - BLOCK, n);
        LaterByte(cipher, iv, Blend(dec(c), iv), Decrypt(cipher[BLOCK..], length - BLOCK, c), at - BLOCK, n);
      }
    }

    lemma LaterByte(cipher: seq<B>, iv: seq<B>, first: seq<B>, rest: seq<B>, at: nat, n: nat)
      requires |iv| == |first| == BLOCK <= |cipher| && n < BLOCK && at % BLOCK == 0
      requires DecryptsByte(cipher[BLOCK..], cipher[..BLOCK], rest, at, n)
      ensures DecryptsByte(cipher, iv, first + rest, at + BLOCK, n)
    {
      if at > 0 {
        BlockBefore(at);
      }
      assert cipher[BLOCK..][at..at + BLOCK] == cipher[at + BLOCK..at + BLOCK + BLOCK];
    }

    /** Every byte of the plaintext is so. */
    lemma DecryptionIsChained(cipher: seq<B>, length: nat, iv: seq<B>)
      requires Lawful() && |iv| == BLOCK && Padded(length) <= |cipher|
      ensures DecryptsAll(cipher, iv, Decrypt(cipher, length, iv))
    {
      DecryptSize(cipher, length, iv);
      forall at: nat, n: nat | at % BLOCK == 0 && n < BLOCK && at + n < length
        ensures DecryptsByte(cipher, iv, Decrypt(cipher, length, iv), at, n)
      {
        DecryptsBytes(cipher, length, iv, at, n);
      }
    }

    // ----- AES_cbc_encrypt

    /** The inner loops: tmp becomes the next n bytes of input blended with ivec. */
    method FillBlock(input: array<B>, at: nat, n: nat, ivec: array<B>, tmp: array<B>)
      requires n <= BLOCK && at + n <= input.Length
      requires ivec.Length == tmp.Length == BLOCK && tmp != input && tmp != ivec
      modifies tmp
      ensures tmp[..] == Blend(input[at..at + n], ivec[..])
    {
      for k := 0 to n
        invariant forall i :: 0 <= i < k ==> tmp[i] == add(input[at + i], ivec[i])
      {
        tmp[k] := add(input[at + k], ivec[k]);
      }
      for k := n to BLOCK
        invariant forall i :: 0 <= i < n ==> tmp[i] == add(input[at + i], ivec[i])
        invariant forall i :: n <= i < k ==> tmp[i] == ivec[i]
      {
        tmp[k] := ivec[k];
      }
    }

    /** memcpy of a whole sequence into a buffer. */
    static method Copy(s: seq<B>, buffer: array<B>, at: nat)
      requires at + |s| <= buffer.Length
      modifies buffer
      ensures buffer[..] == old(buffer[..at]) + s + old(buffer[at + |s|..])
    {
      for k := 0 to |s|
        invariant forall i :: 0 <= i < k ==> buffer[at + i] == s[i]
        invariant forall i :: 0 <= i < buffer.Length && !(at <= i < at + k) ==> buffer[i] == old(buffer[i])
      {
        buffer[at + k] := s[k];
      }
      assert buffer[..at] == old(buffer[..at]) && buffer[at..at + |s|] == s;
      assert buffer[at + |s|..] == old(buffer[at + |s|..]);
      assert buffer[..] == buffer[..at] + buffer[at..at + |s|] + buffer[at + |s|..];
    }

    /** One block: blend n bytes of input with ivec, encrypt, and chain. */
    method EncryptOne(input: array<B>, output: array<B>, at: nat, n: nat, ivec: array<B>, tmp: array<B>)
      requires Lawful() && ivec.Length == tmp.Length == BLOCK && ivec != input && ivec != output
      requires tmp != input && tmp != ivec && tmp != output
      requires n <= BLOCK && at + n <= input.Length && at + BLOCK <= output.Length
      modifies output, ivec, tmp
      ensures ivec[..] == enc(Blend(old(input[at..at + n]), old(ivec[..])))
      ensures output[..] == old(output[..at]) + ivec[..] + old(output[at + BLOCK..])
    {
      FillBlock(input, at, n, ivec, tmp);
      assert Inverts(tmp[..]);
      var c := enc(tmp[..]);
      Copy(c, output, at);
      Copy(c, ivec, 0);
      assert ivec[..] == c;
    }

    /** What is left to encrypt, given what has been produced. */
    ghost predicate Chaining(data: seq<B>, iv: seq<B>, done: seq<B>, chain: seq<B>, at: nat)
      requires Lawful() && |iv| == |chain| == BLOCK && at <= |data|
    {
      done + Encrypt(data[at..], chain) == Encrypt(data, iv)
    }

    lemma ChainingStep(data: seq<B>, iv: seq<B>, done: seq<B>, chain: seq<B>, at: nat, c: seq<B>)
      requires Lawful() && |iv| == |chain| == BLOCK && at + BLOCK <= |data|
      requires Chaining(data, iv, done, chain, at)
      requires c == enc(Blend(data[at..at + BLOCK], chain))
      ensures |c| == BLOCK && Chaining(data, iv, done + c, c, at + BLOCK)
    {
      assert Inverts(Blend(data[at..at + BLOCK], chain));
      assert data[at..][..BLOCK] == data[at..at + BLOCK] && data[at..][BLOCK..] == data[at + BLOCK..];
      assert done + (c + Encrypt(data[at + BLOCK..], c)) == (done + c) + Encrypt(data[at + BLOCK..], c);
    }

    /** Where encryption stands after `at` bytes: the input from there on is
        untouched, and so is the output. */
    ghost predicate Encrypting(input: array<B>, output: array<B>, ivec: array<B>, at: nat,
                               data: seq<B>, iv: seq<B>, out: seq<B>)
      reads input, output, ivec
      requires Lawful() && ivec.Length == |iv| == BLOCK
    {
      && at <= |data| <= input.Length && at <= |out| == output.Length
      && Chaining(data, iv, output[..at], ivec[..], at)
      && (forall k :: at <= k < |data| ==> input[k] == data[k])
      && (forall k :: at <= k < |out| ==> output[k] == out[k])
      && (if at == 0 then ivec[..] == iv else BLOCK <= at && ivec[..] == output[at - BLOCK..at])
    }

    method EncryptNext(input: array<B>, output: array<B>, at: nat, ivec: array<B>, tmp: array<B>,
                       ghost data: seq<B>, ghost iv: seq<B>, ghost out: seq<B>)
      requires Lawful() && ivec.Length == tmp.Length == BLOCK == |iv| && ivec != input && ivec != output
      requires tmp != input && tmp != ivec && tmp != output
      requires Encrypting(input, output, ivec, at, data, iv, out)
      requires at + BLOCK <= |data| && at + BLOCK <= output.Length
      modifies output, ivec, tmp
      ensures Encrypting(input, output, ivec, at + BLOCK, data, iv, out)
    {
      ghost var was, chain := output[..], ivec[..];
      assert input[at..at + BLOCK] == data[at..at + BLOCK];
      EncryptOne(input, output, at, BLOCK, ivec, tmp);
      ChainingStep(data, iv, was[..at], chain, at, ivec[..]);
      assert output[..at + BLOCK] == was[..at] + ivec[..];
      forall k | at + BLOCK <= k < |out|
        ensures output[k] == out[k]
      {
        assert output[..][k] == was[k];
      }
    }

    /** Encryption.  The buffers may be the same one; ivec is left holding the
        last ciphertext block. */
    method EncryptBuffer(input: array<B>, output: array<B>, length: nat, ivec: array<B>)
      requires Lawful() && ivec.Length == BLOCK && ivec != input && ivec != output
      requires length <= input.Length && Padded(length) <= output.Length
      modifies output, ivec
      ensures output[..Padded(length)] == Encrypt(old(input[..length]), old(ivec[..]))
      ensures EncryptsAll(old(input[..length]), old(ivec[..]), output[..Padded(length)])
      ensures output[Padded(length)..] == old(output[Padded(length)..])
      ensures length > 0 ==> ivec[..] == output[Padded(length) - BLOCK..Padded(length)]
      ensures length == 0 ==> ivec[..] == old(ivec[..])
    {
      ghost var data, iv, out := input[..length], ivec[..], output[..];
      var tmp := new B[BLOCK];
      assert data[0..] == data && output[..0] == [];
      var at := EncryptBlocks(input, output, length, ivec, tmp, data, iv, out);
      if at < length {
        EncryptTail(input, output, at, length - at, ivec, tmp, data, iv, out);
      } else {
        EncryptDone(input, output, ivec, data, iv, out);
      }
    }

    /** The loop over whole blocks. */
    method EncryptBlocks(input: array<B>, output: array<B>, length: nat, ivec: array<B>, tmp: array<B>,
                         ghost data: seq<B>, ghost iv: seq<B>, ghost out: seq<B>) returns (at: nat)
      requires Lawful() && ivec.Length == tmp.Length == BLOCK == |iv| && ivec != input && ivec != output
      requires tmp != input && tmp != ivec && tmp != output
      requires |data| == length && Padded(length) <= output.Length
      requires Encrypting(input, output, ivec, 0, data, iv, out)
      modifies output, ivec, tmp
      ensures Encrypting(input, output, ivec, at, data, iv, out)
      ensures at <= length < at + BLOCK && Padded(length) == at + Padded(length - at)
    {
      var len: nat := length;
      at := 0;
      while len >= BLOCK
        invariant at + len == length && at + Padded(len) == Padded(length)
        invariant Encrypting(input, output, ivec, at, data, iv, out)
      {
        EncryptNext(input, output, at, ivec, tmp, data, iv, out);
        len, at := len - BLOCK, at + BLOCK;
      }
    }

    lemma EncryptDone(input: array<B>, output: array<B>, ivec: array<B>, data: seq<B>, iv: seq<B>, out: seq<B>)
      requires Lawful() && ivec.Length == BLOCK == |iv|
      requires Encrypting(input, output, ivec, |data|, data, iv, out)
      ensures output[..|data|] == Encrypt(data, iv) && EncryptsAll(data, iv, output[..|data|])
      ensures output[|data|..] == out[|data|..]
      ensures if |data| == 0 then ivec[..] == iv else BLOCK <= |data| && ivec[..] == output[|data| - BLOCK..|data|]
    {
      assert data[|data|..] == [];
      EncryptionIsChained(data, iv);
    }

    /** The last, partial block. */
    method EncryptTail(input: array<B>, output: array<B>, at: nat, len: nat, ivec: array<B>, tmp: array<B>,
                       ghost data: seq<B>, ghost iv: seq<B>, ghost out: seq<B>)
      requires Lawful() && ivec.Length == tmp.Length == BLOCK == |iv| && ivec != input && ivec != output
      requires tmp != input && tmp != ivec && tmp != output
      requires Encrypting(input, output, ivec, at, data, iv, out)
      requires 0 < len < BLOCK && at + len == |data| && at + BLOCK <= output.Length
      modifies output, ivec, tmp
      ensures output[..at + BLOCK] == Encrypt(data, iv) && EncryptsAll(data, iv, output[..at + BLOCK])
      ensures output[at + BLOCK..] == out[at + BLOCK..]
      ensures ivec[..] == output[at..at + BLOCK]
    {
      ghost var was, chain := output[..], ivec[..];
      assert input[at..at + len] == data[at..];
      EncryptOne(input, output, at, len, ivec, tmp);
      EncryptionIsChained(data, iv);
      assert output[..at + BLOCK] == was[..at] + ivec[..];
      forall k | at + BLOCK <= k < |out|
        ensures output[k] == out[k]
      {
        assert output[..][k] == was[k];
      }
    }

    // ----- decryption

    ghost predicate Unchaining(cipher: seq<B>, length: nat, iv: seq<B>, done: seq<B>, chain: seq<B>, at: nat)
      requires Lawful() && |iv| == |chain| == BLOCK && at <= length && at + Padded(length - at) <= |cipher| &&
        Padded(length) <= |cipher|
    {
      done + Decrypt(cipher[at..], length - at, chain) == Decrypt(cipher, length, iv)
    }

    lemma UnchainingStep(cipher: seq<B>, length: nat, iv: seq<B>, done: seq<B>, chain: seq<B>, at: nat, c: seq<B>)
      requires Lawful() && |iv| == |chain| == BLOCK && at + BLOCK <= length
      requires at + Padded(length - at) <= |cipher| && Padded(length) <= |cipher|
      requires Unchaining(cipher, length, iv, done, chain, at)
      requires c == cipher[at..at + BLOCK]
      ensures |dec(c)| == BLOCK
      ensures Unchaining(cipher, length, iv, done + Blend(dec(c), chain), c, at + BLOCK)
    {
      assert DecSize(c);
      assert cipher[at..][..BLOCK] == c && cipher[at..][BLOCK..] == cipher[at + BLOCK..];
      var p := Blend(dec(c), chain);
      var more := Decrypt(cipher[at + BLOCK..], length - at - BLOCK, c);
      assert done + (p + more) == (done + p) + more;
    }

    /** `out[n] = plain[n] ^ ivec[n]` for the first n bytes of a block. */
    method WritePlain(plain: seq<B>, output: array<B>, at: nat, n: nat, ivec: array<B>)
      requires |plain| == BLOCK == ivec.Length && n <= BLOCK && at + n <= output.Length && ivec != output
      modifies output
      ensures output[..] == old(output[..at]) + Blend(plain, ivec[..])[..n] + old(output[at + n..])
    {
      for k := 0 to n
        invariant forall i :: 0 <= i < k ==> output[at + i] == add(plain[i], ivec[i])
        invariant forall i :: 0 <= i < output.Length && !(at <= i < at + k) ==> output[i] == old(output[i])
      {
        output[at + k] := add(plain[k], ivec[k]);
      }
      assert output[..at] == old(output[..at]) && output[at..at + n] == Blend(plain, ivec[..])[..n];
      assert output[at + n..] == old(output[at + n..]);
      assert output[..] == output[..at] + output[at..at + n] + output[at + n..];
    }

    ghost predicate Decrypting(input: array<B>, output: array<B>, ivec: array<B>, at: nat, length: nat,
                               cipher: seq<B>, iv: seq<B>, out: seq<B>)
      reads input, output, ivec
      requires Lawful() && ivec.Length == |iv| == BLOCK
    {
      && at <= length && at + Padded(length - at) == Padded(length) <= |cipher| == input.Length &&
        length <= |out| == output.Length
      && Unchaining(cipher, length, iv, output[..at], ivec[..], at)
      && (forall k :: at <= k < |cipher| ==> input[k] == cipher[k])
      && (forall k :: at <= k < |out| ==> output[k] == out[k])
      && (if at == 0 then ivec[..] == iv else BLOCK <= at && ivec[..] == cipher[at - BLOCK..at])
    }

    method DecryptNext(input: array<B>, output: array<B>, at: nat, length: nat, ivec: array<B>,
                       ghost cipher: seq<B>, ghost iv: seq<B>, ghost out: seq<B>)
      requires Lawful() && ivec.Length == BLOCK == |iv| && ivec != input && ivec != output
      requires Decrypting(input, output, ivec, at, length, cipher, iv, out) && at + BLOCK <= length
      modifies output, ivec
      ensures Decrypting(input, output, ivec, at + BLOCK, length, cipher, iv, out)
    {
      ghost var was, chain := output[..], ivec[..];
      var tmp := input[at..at + BLOCK];
      assert tmp == cipher[at..at + BLOCK];
      UnchainingStep(cipher, length, iv, was[..at], chain, at, tmp);
      WritePlain(dec(tmp), output, at, BLOCK, ivec);
      ghost var mid := output[..];
      Copy(tmp, ivec, 0);
      assert ivec[..] == tmp;
      assert Blend(dec(tmp), chain)[..BLOCK] == Blend(dec(tmp), chain);
      assert output[..at + BLOCK] == was[..at] + Blend(dec(tmp), chain);
      forall k | at + BLOCK <= k < |out|
        ensures output[k] == out[k]
      {
        assert mid[k] == was[k];
      }
    }

    method DecryptTail(input: array<B>, output: array<B>, at: nat, length: nat, ivec: array<B>,
                       ghost cipher: seq<B>, ghost iv: seq<B>, ghost out: seq<B>)
      requires Lawful() && ivec.Length == BLOCK == |iv| && ivec != input && ivec != output
      requires Decrypting(input, output, ivec, at, length, cipher, iv, out) && at < length < at + BLOCK
      modifies output, ivec
      ensures output[..length] == Decrypt(cipher, length, iv)
      ensures output[length..] == out[length..]
      ensures at + BLOCK <= |cipher| && ivec[..] == dec(cipher[at..at + BLOCK])
    {
      ghost var was, chain := output[..], ivec[..];
      assert at + BLOCK == Padded(length);
      var tmp := input[at..at + BLOCK];
      assert tmp == cipher[at..at + BLOCK] == cipher[at..][..BLOCK];
      assert DecSize(tmp);
      tmp := dec(tmp);
      WritePlain(tmp, output, at, length - at, ivec);
      ghost var mid := output[..];
      Copy(tmp, ivec, 0);
      assert ivec[..] == tmp;
      assert output[..length] == was[..at] + Blend(tmp, chain)[..length - at];
      forall k | length <= k < |out|
        ensures output[k] == out[k]
      {
        assert mid[k] == was[k];
      }
    }

    /** Decryption.  The buffers may be the same one.  After whole blocks ivec
        holds the last ciphertext block; after a partial block it holds the
        decrypted block instead. */
    method DecryptBuffer(input: array<B>, output: array<B>, length: nat, ivec: array<B>)
      requires Lawful() && ivec.Length == BLOCK && ivec != input && ivec != output
      requires Padded(length) <= input.Length && length <= output.Length
      modifies output, ivec
      ensures output[..length] == Decrypt(old(input[..]), length, old(ivec[..]))
      ensures DecryptsAll(old(input[..]), old(ivec[..]), output[..length])
      ensures output[length..] == old(output[length..])
      ensures length > 0 ==> var last := old(input[Padded(length) - BLOCK..Padded(length)]);
        ivec[..] == if length % BLOCK == 0 then last else dec(last)
      ensures length == 0 ==> ivec[..] == old(ivec[..])
    {
      ghost var cipher, iv, out := input[..], ivec[..], output[..];
      assert cipher[0..] == cipher && output[..0] == [];
      var at := DecryptBlocks(input, output, length, ivec, cipher, iv, out);
      Remainder(at, length);
      if at < length {
        DecryptTail(input, output, at, length, ivec, cipher, iv, out);
      } else {
        DecryptDone(input, output, ivec, length, cipher, iv, out);
      }
      DecryptionIsChained(cipher, length, iv);
    }

    lemma Remainder(at: nat, length: nat)
      requires at % BLOCK == 0 && at <= length < at + BLOCK
      ensures length % BLOCK == length - at
    {
    }

    method DecryptBlocks(input: array<B>, output: array<B>, length: nat, ivec: array<B>,
                         ghost cipher: seq<B>, ghost iv: seq<B>, ghost out: seq<B>) returns (at: nat)
      requires Lawful() && ivec.Length == BLOCK == |iv| && ivec != input && ivec != output
      requires Decrypting(input, output, ivec, 0, length, cipher, iv, out)
      modifies output, ivec
      ensures Decrypting(input, output, ivec, at, length, cipher, iv, out)
      ensures at <= length < at + BLOCK && at % BLOCK == 0
    {
      var len: nat := length;
      at := 0;
      while len >= BLOCK
        invariant at + len == length && at % BLOCK == 0
        invariant Decrypting(input, output, ivec, at, length, cipher, iv, out)
      {
        DecryptNext(input, output, at, length, ivec, cipher, iv, out);
        len, at := len - BLOCK, at + BLOCK;
      }
    }

    lemma DecryptDone(input: array<B>, output: array<B>, ivec: array<B>, length: nat, cipher: seq<B>, iv: seq<B>,
          out: seq<B>)
      requires Lawful() && ivec.Length == BLOCK == |iv|
      requires Decrypting(input, output, ivec, length, length, cipher, iv, out)
      ensures output[..length] == Decrypt(cipher, length, iv)
      ensures output[length..] == out[length..]
      ensures Padded(length) == length
      ensures if length == 0 then ivec[..] == iv else BLOCK <= length && ivec[..] == cipher[length - BLOCK..length]
    {
    }

    /** Decryption looks no further than the padded length. */
    lemma {:induction false} DecryptReads(cipher: seq<B>, length: nat, iv: seq<B>)
      requires Lawful() && |iv| == BLOCK && Padded(length) <= |cipher|
      ensures Decrypt(cipher, length, iv) == Decrypt(cipher[..Padded(length)], length, iv)
      decreases length
    {
      var short := cipher[..Padded(length)];
      if length > 0 {
        assert short[..BLOCK] == cipher[..BLOCK];
        if length >= BLOCK {
          DecryptReads(cipher[BLOCK..], length - BLOCK, cipher[..BLOCK]);
          assert short[BLOCK..] == cipher[BLOCK..][..Padded(length - BLOCK)];
        }
      }
    }

    /** Encrypt a buffer in place, then decrypt it in place. */
    method ThereAndBack(data: array<B>, length: nat, iv: seq<B>)
      requires Lawful() && |iv| == BLOCK && length <= data.Length && Padded(length) <= data.Length
      modifies data
      ensures data[..length] == old(data[..length])
    {
      var ivec := new B[BLOCK](i requires 0 <= i < BLOCK => iv[i]);
      assert ivec[..] == iv;
      EncryptBuffer(data, data, length, ivec);
      ghost var cipher := data[..];
      ivec := new B[BLOCK](i requires 0 <= i < BLOCK => iv[i]);
      assert ivec[..] == iv;
      DecryptBuffer(data, data, length, ivec);
      DecryptReads(cipher, length, iv);
      RoundTrip(old(data[..length]), iv);
    }
  }

  /** Bytes taken by data of the given length once padded to whole blocks. */
  function Padded(length: nat): nat {
    if length == 0 then 0 else if length < BLOCK then BLOCK else BLOCK + Padded(length - BLOCK)
  }

  /** They are the whole blocks that just hold the data. */
  lemma {:induction false} PaddedRoundsUp(length: nat)
    ensures Padded(length) % BLOCK == 0 && length <= Padded(length) < length + BLOCK
  {
    if length >= BLOCK {
      PaddedRoundsUp(length - BLOCK);
    }
  }
}
