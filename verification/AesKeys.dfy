/**
 The key schedules: AES_set_encrypt_key and AES_set_decrypt_key.
 */
module AesKeys {
  import opened Rijndael
  import opened Aes
  import opened AesBlock

  // ----- key expansion, section 5.2 of FIPS 197

  /** The word operations of key expansion. */
  datatype WordOps<!W(!new)> = WordOps(xor: (W, W) -> W, sub: W -> W, rot: W -> W, rcon: nat -> W)
  {
    ghost predicate Associates(a: W, b: W, c: W) {
      xor(xor(a, b), c) == xor(a, xor(b, c))
    }

    ghost predicate Lawful() {
      forall a, b, c :: Associates(a, b, c)
    }

    /** Word i of the expansion of a key of nk words; rcon counts from 0. */
    function KeyWord(key: seq<W>, nk: nat, i: nat): W
      requires |key| == nk > 0
      decreases i
    {
      if i < nk then key[i]
      else
        var temp := KeyWord(key, nk, i - 1);
        var mixed :=
          if i % nk == 0 then xor(sub(rot(temp)), rcon(i / nk - 1))
          else if nk > 6 && i % nk == 4 then sub(temp)
          else temp;
        xor(KeyWord(key, nk, i - nk), mixed)
    }

    /** The first n words of the array are the expansion of the key. */
    ghost predicate Expanded(key: seq<W>, rk: seq<W>, n: nat)
      requires |key| > 0 && n <= |rk|
    {
      forall j :: 0 <= j < n ==> rk[j] == KeyWord(key, |key|, j)
    }

    lemma GroupStart(key: seq<W>, nk: nat, i: nat)
      requires Lawful() && |key| == nk > 0 && i >= nk && i % nk == 0
      ensures KeyWord(key, nk, i) ==
        xor(xor(KeyWord(key, nk, i - nk), sub(rot(KeyWord(key, nk, i - 1)))), rcon(i / nk - 1))
    {
      assert Associates(KeyWord(key, nk, i - nk), sub(rot(KeyWord(key, nk, i - 1))), rcon(i / nk - 1));
    }

    lemma GroupNext(key: seq<W>, nk: nat, i: nat)
      requires |key| == nk > 0 && i >= nk && i % nk != 0
      ensures KeyWord(key, nk, i) == xor(KeyWord(key, nk, i - nk),
        if nk > 6 && i % nk == 4 then sub(KeyWord(key, nk, i - 1)) else KeyWord(key, nk, i - 1))
    {
    }

    // ----- one word of a step

    /** `rk[j] = rk[j - nk] ^ SubWord(RotWord(rk[j - 1])) ^ rcon` */
    method FirstWord(rk: array<W>, j: nat, nk: nat, c: W, ghost key: seq<W>)
      requires Lawful() && |key| == nk > 0 && nk <= j < rk.Length && j % nk == 0 && c == rcon(j / nk - 1)
      requires Expanded(key, rk[..], j)
      modifies rk
      ensures Expanded(key, rk[..], j + 1)
    {
      GroupStart(key, nk, j);
      rk[j] := xor(xor(rk[j - nk], sub(rot(rk[j - 1]))), c);
    }

    /** `rk[j] = rk[j - nk] ^ rk[j - 1]`, with a substitution halfway through a 256-bit step. */
    method NextWord(rk: array<W>, j: nat, nk: nat, half: bool, ghost key: seq<W>)
      requires |key| == nk > 0 && nk <= j < rk.Length && j % nk != 0 && half == (nk > 6 && j % nk == 4)
      requires Expanded(key, rk[..], j)
      modifies rk
      ensures Expanded(key, rk[..], j + 1)
    {
      GroupNext(key, nk, j);
      rk[j] := xor(rk[j - nk], if half then sub(rk[j - 1]) else rk[j - 1]);
    }

    // ----- the three loops of AES_set_encrypt_key

    /** 128 bits: four words a step, ten steps. */
    method Expand128(table: seq<W>, rk: array<W>, ghost key: seq<W>)
      requires Lawful() && |table| == 10 && forall i :: 0 <= i < 10 ==> table[i] == rcon(i)
      requires |key| == 4 && rk.Length >= 44 && Expanded(key, rk[..], 4)
      modifies rk
      ensures Expanded(key, rk[..], 44)
    {
      var i, b := 0, 0;
      while true
        invariant 0 <= i < 10 && b == 4 * i
        invariant Expanded(key, rk[..], b + 4)
        decreases 10 - i
      {
        FirstWord(rk, b + 4, 4, table[i], key);
        NextWord(rk, b + 5, 4, false, key);
        NextWord(rk, b + 6, 4, false, key);
        NextWord(rk, b + 7, 4, false, key);
        i := i + 1;
        if i == 10 {
          break;
        }
        b := b + 4;
      }
    }

    /** 192 bits: six words a step, eight steps, the last one cut short. */
    method Expand192(table: seq<W>, rk: array<W>, ghost key: seq<W>)
      requires Lawful() && |table| == 10 && forall i :: 0 <= i < 10 ==> table[i] == rcon(i)
      requires |key| == 6 && rk.Length >= 52 && Expanded(key, rk[..], 6)
      modifies rk
      ensures Expanded(key, rk[..], 52)
    {
      var i, b := 0, 0;
      while true
        invariant 0 <= i < 8 && b == 6 * i
        invariant Expanded(key, rk[..], b + 6)
        decreases 8 - i
      {
        FirstWord(rk, b + 6, 6, table[i], key);
        NextWord(rk, b + 7, 6, false, key);
        NextWord(rk, b + 8, 6, false, key);
        NextWord(rk, b + 9, 6, false, key);
        i := i + 1;
        if i == 8 {
          break;
        }
        NextWord(rk, b + 10, 6, false, key);
        NextWord(rk, b + 11, 6, false, key);
        b := b + 6;
      }
    }

    /** 256 bits: eight words a step with an extra substitution in the middle. */
    method Expand256(table: seq<W>, rk: array<W>, ghost key: seq<W>)
      requires Lawful() && |table| == 10 && forall i :: 0 <= i < 10 ==> table[i] == rcon(i)
      requires |key| == 8 && rk.Length >= 60 && Expanded(key, rk[..], 8)
      modifies rk
      ensures Expanded(key, rk[..], 60)
    {
      var i, b := 0, 0;
      while true
        invariant 0 <= i < 7 && b == 8 * i
        invariant Expanded(key, rk[..], b + 8)
        decreases 7 - i
      {
        FirstWord(rk, b + 8, 8, table[i], key);
        NextWord(rk, b + 9, 8, false, key);
        NextWord(rk, b + 10, 8, false, key);
        NextWord(rk, b + 11, 8, false, key);
        i := i + 1;
        if i == 7 {
          break;
        }
        NextWord(rk, b + 12, 8, true, key);
        NextWord(rk, b + 13, 8, false, key);
        NextWord(rk, b + 14, 8, false, key);
        NextWord(rk, b + 15, 8, false, key);
        b := b + 8;
      }
    }
  }

  // ----- AES_set_encrypt_key and AES_set_decrypt_key

  function RotWord<B>(w: Word<B>): Word<B> {
    Word(w.b1, w.b2, w.b3, w.b0)
  }

  /** x^i in the field. */
  function PowerOfX<B(!new)>(p: Params<B>, i: nat): B {
    if i == 0 then p.one else p.x2(PowerOfX(p, i - 1))
  }

  /** The round constants of section 5.2 of FIPS 197, counted from 0. */
  function Rcon<B(!new)>(p: Params<B>, i: nat): Word<B> {
    Word(PowerOfX(p, i), p.zero, p.zero, p.zero)
  }

  function ExpandOps<B(!new)>(p: Params<B>): WordOps<Word<B>> {
    WordOps((a, b) => p.Xor(a, b), w => SubWord(p, w), w => RotWord(w), i => Rcon(p, i))
  }

  /** a ^ masked lookups of the bytes b, c, d and e, as the key schedule adds them up. */
  function AddLookups<B(!new)>(p: Params<B>, a: Word<B>, b: B, c: B, d: B, e: B): Word<B> {
    p.Xor(p.Xor(p.Xor(p.Xor(a, Keep(p, Te4(p, b), 0)), Keep(p, Te4(p, c), 1)), Keep(p, Te4(p, d), 2)),
        Keep(p, Te4(p, e), 3))
  }

  /** They are SubWord, after RotWord at the start of a group of words. */
  lemma LookupsAreSubWord<B(!new)>(p: Params<B>, a: Word<B>, temp: Word<B>)
    requires p.Lawful()
    ensures AddLookups(p, a, temp.b1, temp.b2, temp.b3, temp.b0) == p.Xor(a, SubWord(p, RotWord(temp)))
    ensures AddLookups(p, a, temp.b0, temp.b1, temp.b2, temp.b3) == p.Xor(a, SubWord(p, temp))
  {
    AddedLookups(p, a, temp.b1, temp.b2, temp.b3, temp.b0);
    AddedLookups(p, a, temp.b0, temp.b1, temp.b2, temp.b3);
  }

  lemma AddedLookups<B(!new)>(p: Params<B>, a: Word<B>, b: B, c: B, d: B, e: B)
    requires p.Lawful()
    ensures AddLookups(p, a, b, c, d, e) == p.Xor(a, Word(p.sub(b), p.sub(c), p.sub(d), p.sub(e)))
  {
    var k0, k1, k2, k3 := Keep(p, Te4(p, b), 0), Keep(p, Te4(p, c), 1), Keep(p, Te4(p, d), 2), Keep(p, Te4(p, e), 3);
    XorAssociates(p, a, k0, k1);
    XorAssociates(p, a, p.Xor(k0, k1), k2);
    XorAssociates(p, a, p.Xor(p.Xor(k0, k1), k2), k3);
    KeepOne(p, Te4(p, b), Te4(p, c), Te4(p, d), Te4(p, e));
  }

  lemma ExpandOpsAreLawful<B(!new)>(p: Params<B>)
    requires p.Lawful()
    ensures ExpandOps(p).Lawful()
  {
    forall a: Word<B>, b: Word<B>, c: Word<B>
      ensures ExpandOps(p).Associates(a, b, c)
    {
      XorAssociates(p, a, b, c);
    }
  }

  /** The rcon table of the source, byte for byte, is the field's powers of x. */
  lemma RconBytes(sub: Byte -> Byte, inv: Byte -> Byte)
    ensures var p := AesParams(sub, inv);
      && PowerOfX(p, 0).Value() == 0x01 && PowerOfX(p, 1).Value() == 0x02 && PowerOfX(p, 2).Value() == 0x04
      && PowerOfX(p, 3).Value() == 0x08 && PowerOfX(p, 4).Value() == 0x10 && PowerOfX(p, 5).Value() == 0x20
      && PowerOfX(p, 6).Value() == 0x40 && PowerOfX(p, 7).Value() == 0x80
      && PowerOfX(p, 8).Value() == 0x1b && PowerOfX(p, 9).Value() == 0x36
  {
    var p := AesParams(sub, inv);
    assert PowerOfX(p, 3) == Double(PowerOfX(p, 2));
    assert PowerOfX(p, 6) == Double(PowerOfX(p, 5));
    assert PowerOfX(p, 9) == Double(PowerOfX(p, 8));
  }

  predicate BitsOk(bits: int) {
    bits == 128 || bits == 192 || bits == 256
  }

  /** Key words, and rounds, for a key length. */
  function KeyLength(bits: int): nat
    requires BitsOk(bits)
  {
    bits / 32
  }

  function Rounds(bits: int): (r: nat)
    requires BitsOk(bits)
    ensures r == 10 || r == 12 || r == 14
  {
    if bits == 128 then 10 else if bits == 192 then 12 else 14
  }

  function UserWords<B>(u: seq<B>, nk: nat): seq<Word<B>>
    requires 4 * nk <= |u|
  {
    seq(nk, i requires 0 <= i < nk => GetWord(u, 4 * i))
  }

  /** AES_KEY: room for 4 * (MAXNR + 1) words, and the number of rounds. */
  class AesKey<B(0,!new)> {
    const rdKey: array<Word<B>>
    var rounds: nat

    constructor ()
      ensures fresh(rdKey) && rdKey.Length == 60
    {
      rdKey := new Word<B>[60];
      rounds := 0;
    }
  }

  /** The schedule holds the expansion of the user key. */
  ghost predicate HoldsExpansion<B(!new)>(p: Params<B>, rk: seq<Word<B>>, u: seq<B>, bits: int)
    requires BitsOk(bits) && bits / 8 <= |u| && |rk| == 60
  {
    ExpandOps(p).Expanded(UserWords(u, KeyLength(bits)), rk, 4 * Rounds(bits) + 4)
  }

  /** Word j of a schedule is made as AES_set_encrypt_key makes it: from the four
      bytes of the user key, or from the words one and nk places before it. */
  ghost predicate ScheduledWord<B(!new)>(p: Params<B>, rk: seq<Word<B>>, u: seq<B>, nk: nat, j: nat)
    requires 0 < nk && 4 * nk <= |u| && j < |rk|
  {
    if j < nk then rk[j] == Word(u[4 * j], u[4 * j + 1], u[4 * j + 2], u[4 * j + 3])
    else
      var w, o := rk[j - 1], rk[j - nk];
      rk[j] ==
        if j % nk == 0 then
          Word(p.add(p.add(o.b0, p.sub(w.b1)), PowerOfX(p, j / nk - 1)),
               p.add(o.b1, p.sub(w.b2)), p.add(o.b2, p.sub(w.b3)), p.add(o.b3, p.sub(w.b0)))
        else if nk == 8 && j % nk == 4 then
          Word(p.add(o.b0, p.sub(w.b0)), p.add(o.b1, p.sub(w.b1)), p.add(o.b2, p.sub(w.b2)), p.add(o.b3, p.sub(w.b3)))
        else Word(p.add(o.b0, w.b0), p.add(o.b1, w.b1), p.add(o.b2, w.b2), p.add(o.b3, w.b3))
  }

  ghost predicate Scheduled<B(!new)>(p: Params<B>, rk: seq<Word<B>>, u: seq<B>, nk: nat, n: nat)
    requires 0 < nk && 4 * nk <= |u| && n <= |rk|
  {
    forall j: nat :: j < n ==> ScheduledWord(p, rk, u, nk, j)
  }

  lemma FirstOfGroup<B(!new)>(p: Params<B>, o: Word<B>, w: Word<B>, i: nat)
    requires p.Lawful()
    ensures p.Xor(p.Xor(o, SubWord(p, RotWord(w))), Rcon(p, i)) ==
      Word(p.add(p.add(o.b0, p.sub(w.b1)), PowerOfX(p, i)),
           p.add(o.b1, p.sub(w.b2)), p.add(o.b2, p.sub(w.b3)), p.add(o.b3, p.sub(w.b0)))
  {
    assert p.Unit(p.add(o.b1, p.sub(w.b2))) && p.Unit(p.add(o.b2, p.sub(w.b3))) && p.Unit(p.add(o.b3, p.sub(w.b0)));
  }

  lemma ExpandedFirst<B(!new)>(p: Params<B>, key: seq<Word<B>>, nk: nat, j: nat, o: Word<B>, w: Word<B>)
    requires p.Lawful() && |key| == nk > 0 && j >= nk && j % nk == 0
    requires o == ExpandOps(p).KeyWord(key, nk, j - nk) && w == ExpandOps(p).KeyWord(key, nk, j - 1)
    ensures ExpandOps(p).KeyWord(key, nk, j) ==
      Word(p.add(p.add(o.b0, p.sub(w.b1)), PowerOfX(p, j / nk - 1)),
           p.add(o.b1, p.sub(w.b2)), p.add(o.b2, p.sub(w.b3)), p.add(o.b3, p.sub(w.b0)))
  {
    ExpandOpsAreLawful(p);
    ExpandOps(p).GroupStart(key, nk, j);
    FirstOfGroup(p, o, w, j / nk - 1);
  }

  lemma ExpandedNext<B(!new)>(p: Params<B>, key: seq<Word<B>>, nk: nat, j: nat, o: Word<B>, w: Word<B>)
    requires |key| == nk > 0 && j >= nk && j % nk != 0
    requires o == ExpandOps(p).KeyWord(key, nk, j - nk) && w == ExpandOps(p).KeyWord(key, nk, j - 1)
    ensures ExpandOps(p).KeyWord(key, nk, j) ==
      if nk > 6 && j % nk == 4 then
        Word(p.add(o.b0, p.sub(w.b0)), p.add(o.b1, p.sub(w.b1)), p.add(o.b2, p.sub(w.b2)), p.add(o.b3, p.sub(w.b3)))
      else Word(p.add(o.b0, w.b0), p.add(o.b1, w.b1), p.add(o.b2, w.b2), p.add(o.b3, w.b3))
  {
    ExpandOps(p).GroupNext(key, nk, j);
  }

  lemma ExpandedWord<B(!new)>(p: Params<B>, rk: seq<Word<B>>, u: seq<B>, nk: nat, n: nat, j: nat)
    requires p.Lawful() && (nk == 4 || nk == 6 || nk == 8) && 4 * nk <= |u| && j < n <= |rk|
    requires ExpandOps(p).Expanded(UserWords(u, nk), rk, n)
    ensures ScheduledWord(p, rk, u, nk, j)
  {
    var key := UserWords(u, nk);
    if j >= nk {
      if j % nk == 0 {
        ExpandedFirst(p, key, nk, j, rk[j - nk], rk[j - 1]);
      } else {
        ExpandedNext(p, key, nk, j, rk[j - nk], rk[j - 1]);
      }
    }
  }

  /** The expansion is that schedule. */
  lemma ExpansionIsSchedule<B(!new)>(p: Params<B>, rk: seq<Word<B>>, u: seq<B>, bits: int)
    requires p.Lawful() && BitsOk(bits) && bits / 8 <= |u| && |rk| == 60 && HoldsExpansion(p, rk, u, bits)
    ensures Scheduled(p, rk, u, bits / 32, 4 * (bits / 32 + 7))
  {
    forall j: nat | j < 4 * (bits / 32 + 7)
      ensures ScheduledWord(p, rk, u, bits / 32, j)
    {
      ExpandedWord(p, rk, u, bits / 32, 4 * (bits / 32 + 7), j);
    }
  }

  /** AES_set_encrypt_key. */
  method SetEncryptKey<B(0,!new)>(p: Params<B>, table: seq<Word<B>>, userKey: array?<B>, bits: int, key: AesKey<B>)
      returns (status: int)
    requires p.Lawful() && |table| == 10 && forall i :: 0 <= i < 10 ==> table[i] == Rcon(p, i)
    requires userKey != null && BitsOk(bits) ==> bits / 8 <= userKey.Length
    requires key.rdKey.Length == 60 && userKey as object? != key.rdKey
    modifies key, key.rdKey
    ensures status == if userKey == null then -1 else if !BitsOk(bits) then -2 else 0
    ensures status != 0 ==> key.rounds == old(key.rounds) && key.rdKey[..] == old(key.rdKey[..])
    ensures status == 0 ==> key.rounds == Rounds(bits) && HoldsExpansion(p, key.rdKey[..], userKey[..], bits)
    ensures status == 0 ==> var nk := bits / 32;
      key.rounds == nk + 6 && Scheduled(p, key.rdKey[..], userKey[..], nk, 4 * (nk + 7))
  {
    if userKey == null {
      return -1;
    }
    if !BitsOk(bits) {
      return -2;
    }
    var rk := key.rdKey;
    key.rounds := Rounds(bits);
    var nk := KeyLength(bits);
    ghost var words := UserWords(userKey[..], nk);
    var i := 0;
    while i < nk
      invariant 0 <= i <= nk
      invariant forall j :: 0 <= j < i ==> rk[j] == words[j]
      invariant key.rounds == Rounds(bits)
    {
      rk[i] := GetWord(userKey[..], 4 * i);
      i := i + 1;
    }
    var ops := ExpandOps(p);
    ExpandOpsAreLawful(p);
    assert ops.Expanded(words, rk[..], nk);
    assert forall j :: 0 <= j < 10 ==> ops.rcon(j) == Rcon(p, j);
    if bits == 128 {
      ops.Expand128(table, rk, words);
    } else if bits == 192 {
      ops.Expand192(table, rk, words);
    } else {
      ops.Expand256(table, rk, words);
    }
    ExpansionIsSchedule(p, rk[..], userKey[..], bits);
    return 0;
  }

  /** Exchange two round keys in place. */
  method SwapKeys<W>(rk: array<W>, i: nat, j: nat)
    requires i + 4 <= j && j + 4 <= rk.Length
    modifies rk
    ensures forall x :: 0 <= x < rk.Length ==>
      rk[x] == if i <= x < i + 4 then old(rk[x - i + j]) else if j <= x < j + 4 then old(rk[x - j + i]) else old(rk[x])
  {
    var temp := rk[i]; rk[i] := rk[j]; rk[j] := temp;
    temp := rk[i + 1]; rk[i + 1] := rk[j + 1]; rk[j + 1] := temp;
    temp := rk[i + 2]; rk[i + 2] := rk[j + 2]; rk[j + 2] := temp;
    temp := rk[i + 3]; rk[i + 3] := rk[j + 3]; rk[j + 3] := temp;
  }

  /** The word that reversing the round keys brings to position x. */
  function Mirror(x: nat, rounds: nat): nat
    requires x < 4 * rounds + 4
  {
    4 * rounds - x + 2 * (x % 4)
  }

  /** All but the words from i up to j + 4 have been mirrored. */
  ghost predicate Mirrored<W>(was: seq<W>, now: seq<W>, rounds: nat, i: int, j: int)
    requires 4 * rounds + 4 <= |was| == |now|
  {
    forall x: nat {:trigger now[x]} :: x < 4 * rounds + 4 ==>
      now[x] == if i <= x < j + 4 then was[x] else was[Mirror(x, rounds)]
  }

  lemma Fours(n: nat)
    ensures (4 * n) % 4 == 0
  {
  }

  lemma WordInKey(x: nat, i: nat)
    requires i % 4 == 0 && i <= x < i + 4
    ensures x % 4 == x - i
  {
  }

  lemma MirrorStep<W>(was: seq<W>, mid: seq<W>, now: seq<W>, rounds: nat, i: nat, j: nat)
    requires 4 * rounds + 4 <= |was| == |mid| == |now|
    requires i % 4 == 0 && j % 4 == 0 && i + j == 4 * rounds && i + 4 <= j
    requires Mirrored(was, mid, rounds, i, j)
    requires forall x {:trigger now[x]} :: 0 <= x < |now| ==>
      now[x] == if i <= x < i + 4 then mid[x - i + j] else if j <= x < j + 4 then mid[x - j + i] else mid[x]
    ensures Mirrored(was, now, rounds, i + 4, j - 4)
  {
    forall x: nat | x < 4 * rounds + 4
      ensures now[x] == if i + 4 <= x < j then was[x] else was[Mirror(x, rounds)]
    {
      assert now[x] == if i <= x < i + 4 then mid[x - i + j] else if j <= x < j + 4 then mid[x - j + i] else mid[x];
      if i <= x < i + 4 {
        WordInKey(x, i);
        assert mid[x - i + j] == was[x - i + j];
      } else if j <= x < j + 4 {
        WordInKey(x, j);
        assert mid[x - j + i] == was[x - j + i];
      } else {
        assert mid[x] == if i <= x < j + 4 then was[x] else was[Mirror(x, rounds)];
      }
    }
  }

  lemma MirrorDone<W>(was: seq<W>, now: seq<W>, rounds: nat, i: nat, j: int)
    requires 4 * rounds + 4 <= |was| == |now|
    requires i % 4 == 0 && i + j == 4 * rounds && j <= i
    requires Mirrored(was, now, rounds, i, j)
    ensures forall x: nat :: x < 4 * rounds + 4 ==> now[x] == was[Mirror(x, rounds)]
  {
    forall x: nat | x < 4 * rounds + 4
      ensures now[x] == was[Mirror(x, rounds)]
    {
      if i <= x < j + 4 {
        assert i == j && x % 4 == x - i;
      }
    }
  }

  /** The reversal loop of AES_set_decrypt_key. */
  method ReverseKeys<W>(rk: array<W>, rounds: nat)
    requires 4 * rounds + 4 <= rk.Length
    modifies rk
    ensures forall x: nat :: x < 4 * rounds + 4 ==> rk[x] == old(rk[..])[Mirror(x, rounds)]
  {
    ghost var was := rk[..];
    var i, j := 0, 4 * rounds;
    ghost var n := 0;
    while i < j
      invariant 0 <= n && i == 4 * n && j == 4 * (rounds - n) && j >= i - 4
      invariant Mirrored(was, rk[..], rounds, i, j)
      decreases j - i
    {
      ghost var mid := rk[..];
      Fours(n);
      Fours(rounds - n);
      SwapKeys(rk, i, j);
      MirrorStep(was, mid, rk[..], rounds, i, j);
      i, j := i + 4, j - 4;
      n := n + 1;
    }
    Fours(n);
    MirrorDone(was, rk[..], rounds, i, j);
  }

  /** InvMixColumns of one key word, looked up: Td of Te4 cancels the S-box. */
  function UnmixWord<B(!new)>(p: Params<B>, w: Word<B>): Word<B> {
    p.Xor(p.Xor(p.Xor(Td0(p, Te4(p, w.b0).b3), Td1(p, Te4(p, w.b1).b3)), Td2(p, Te4(p, w.b2).b3)),
        Td3(p, Te4(p, w.b3).b3))
  }

  lemma UnmixWordIs<B(!new)>(p: Params<B>, w: Word<B>)
    requires p.Lawful()
    ensures UnmixWord(p, w) == p.InvMixColumn(w)
  {
    assert p.Undoes(w.b0) && p.Undoes(w.b1) && p.Undoes(w.b2) && p.Undoes(w.b3);
  }

  function UnmixFn<B(!new)>(p: Params<B>): Word<B> -> Word<B> {
    w => UnmixWord(p, w)
  }

  lemma UnmixFnIs<B(!new)>(p: Params<B>, w: Word<B>)
    requires p.Lawful()
    ensures UnmixFn(p)(w) == p.InvMixColumn(w)
  {
    UnmixWordIs(p, w);
  }

  /** The second loop of AES_set_decrypt_key: transform all round keys but the
      first and the last. */
  method TransformKeys<W>(f: W -> W, rk: array<W>, rounds: nat)
    requires 1 <= rounds && 4 * rounds + 4 <= rk.Length
    modifies rk
    ensures forall x :: 0 <= x < 4 * rounds + 4 ==> rk[x] == if 4 <= x < 4 * rounds then f(old(rk[x])) else old(rk[x])
  {
    var i, b := 1, 0;
    while i < rounds
      invariant 1 <= i <= rounds && b == 4 * (i - 1)
      invariant forall x :: 0 <= x < 4 * rounds + 4 ==> rk[x] == if 4 <= x < b + 4 then f(old(rk[x])) else old(rk[x])
    {
      b := b + 4;
      rk[b] := f(rk[b]);
      rk[b + 1] := f(rk[b + 1]);
      rk[b + 2] := f(rk[b + 2]);
      rk[b + 3] := f(rk[b + 3]);
      i := i + 1;
    }
  }

  lemma MirrorAt(r: nat, k: nat, rounds: nat)
    requires r <= rounds && k < 4
    ensures Mirror(4 * r + k, rounds) == 4 * (rounds - r) + k
  {
    WordInKey(4 * r + k, 4 * r);
  }

  lemma KeyFromLoops<B>(f: Word<B> -> Word<B>, rk: seq<Word<B>>, dk: seq<Word<B>>, rounds: nat, r: nat)
    requires r <= rounds && 4 * rounds + 4 <= |rk| == |dk|
    requires forall x :: 0 <= x < 4 * rounds + 4 ==>
      dk[x] == if 4 <= x < 4 * rounds then f(rk[Mirror(x, rounds)]) else rk[Mirror(x, rounds)]
    ensures var k := KeyAt(rk, rounds - r);
      KeyAt(dk, r) == if r == 0 || r == rounds then k else State(f(k.w0), f(k.w1), f(k.w2), f(k.w3))
  {
    MirrorAt(r, 0, rounds);
    MirrorAt(r, 1, rounds);
    MirrorAt(r, 2, rounds);
    MirrorAt(r, 3, rounds);
  }

  lemma UnmixKeyIs<B(!new)>(p: Params<B>, k: State<B>)
    requires p.Lawful()
    ensures State(UnmixFn(p)(k.w0), UnmixFn(p)(k.w1), UnmixFn(p)(k.w2), UnmixFn(p)(k.w3)) == InvMixColumns(p, k)
  {
    UnmixFnIs(p, k.w0);
    UnmixFnIs(p, k.w1);
    UnmixFnIs(p, k.w2);
    UnmixFnIs(p, k.w3);
  }

  lemma ScheduleFromLoops<B(!new)>(p: Params<B>, rk: seq<Word<B>>, dk: seq<Word<B>>, rounds: nat)
    requires p.Lawful() && 1 <= rounds && 4 * rounds + 4 <= |rk| == |dk|
    requires forall x :: 0 <= x < 4 * rounds + 4 ==>
      dk[x] == if 4 <= x < 4 * rounds then UnmixFn(p)(rk[Mirror(x, rounds)]) else rk[Mirror(x, rounds)]
    ensures DecryptSchedule(p, KeysOf(rk, rounds), KeysOf(dk, rounds))
  {
    var keys, dkeys := KeysOf(rk, rounds), KeysOf(dk, rounds);
    forall r | 0 <= r <= rounds
      ensures dkeys[r] == if r == 0 || r == rounds then keys[rounds - r] else InvMixColumns(p, keys[rounds - r])
    {
      KeyFromLoops(UnmixFn(p), rk, dk, rounds, r);
      UnmixKeyIs(p, KeyAt(rk, rounds - r));
    }
  }

  /** AES_set_decrypt_key: an encryption schedule, turned around in place. */
  method SetDecryptKey<B(0,!new)>(p: Params<B>, table: seq<Word<B>>, userKey: array?<B>, bits: int, key: AesKey<B>)
      returns (status: int, ghost rk: seq<Word<B>>)
    requires p.Lawful() && |table| == 10 && forall i :: 0 <= i < 10 ==> table[i] == Rcon(p, i)
    requires userKey != null && BitsOk(bits) ==> bits / 8 <= userKey.Length
    requires key.rdKey.Length == 60 && userKey as object? != key.rdKey
    modifies key, key.rdKey
    ensures status == if userKey == null then -1 else if !BitsOk(bits) then -2 else 0
    ensures |rk| == 60
    ensures status == 0 ==>
      && key.rounds == Rounds(bits) && HoldsExpansion(p, rk, userKey[..], bits)
      && DecryptSchedule(p, KeysOf(rk, key.rounds), KeysOf(key.rdKey[..], key.rounds))
  {
    status := SetEncryptKey(p, table, userKey, bits, key);
    rk := key.rdKey[..];
    if status < 0 {
      return;
    }
    ReverseKeys(key.rdKey, key.rounds);
    TransformKeys(UnmixFn(p), key.rdKey, key.rounds);
    ScheduleFromLoops(p, rk, key.rdKey[..], key.rounds);
  }

  /** The expansion leaves no freedom: two schedules of one key are the same. */
  lemma ExpansionUnique<B(!new)>(p: Params<B>, rk: seq<Word<B>>, other: seq<Word<B>>, u: seq<B>, bits: int)
    requires BitsOk(bits) && bits / 8 <= |u| && |rk| == |other| == 60
    requires HoldsExpansion(p, rk, u, bits) && HoldsExpansion(p, other, u, bits)
    ensures KeysOf(rk, Rounds(bits)) == KeysOf(other, Rounds(bits))
  {
    var n := 4 * Rounds(bits) + 4;
    assert forall x :: 0 <= x < n ==> rk[x] == other[x];
  }
}
