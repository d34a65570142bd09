/**
 encrypt_sectors: each 512-byte sector is enciphered on its own, by cipher
 block chaining with an initial vector made from the sector number.  This is
 the encryption that the image drivers ask to be invertible.
 */
module SectorCipher {
  import opened Cbc
  import opened Sectors

  const SECTOR_BYTES: nat := 512

  lemma {:induction false} WholeBlocks(n: nat)
    ensures Padded(16 * n) == 16 * n
  {
    if n > 0 {
      WholeBlocks(n - 1);
      assert 16 * n - BLOCK == 16 * (n - 1);
    }
  }

  // ----- the initial vector

  /** x shifted right by k bytes. */
  function Shifted(x: nat, k: nat): nat {
    if k == 0 then x else Shifted(x / 256, k - 1)
  }

  function Power256(n: nat): nat {
    if n == 0 then 1 else 256 * Power256(n - 1)
  }

  lemma {:induction false} ShiftDivides(x: nat, k: nat)
    ensures Power256(k) * Shifted(x, k) <= x < Power256(k) * (Shifted(x, k) + 1)
  {
    if k > 0 {
      ShiftDivides(x / 256, k - 1);
      TimesDistributes(256, Power256(k - 1), Shifted(x, k));
      TimesDistributes(256, Power256(k - 1), Shifted(x, k) + 1);
    }
  }

  lemma TimesDistributes(a: nat, b: nat, c: nat)
    ensures (a * b) * c == a * (b * c)
  {
  }

  /** The low n bytes of x, the lowest first. */
  function LittleEndian<B>(byteOf: nat -> B, x: nat, n: nat): (r: seq<B>)
    ensures |r| == n
  {
    seq(n, k requires 0 <= k < n => byteOf(Shifted(x, k) % 256))
  }

  /** ivec: the sector number in 64 bits, little endian, and 64 zero bits. */
  function Ivec<B>(byteOf: nat -> B, g: nat): (iv: seq<B>)
    ensures |iv| == BLOCK
  {
    LittleEndian(byteOf, g, 8) + LittleEndian(byteOf, 0, 8)
  }

  lemma {:induction false} PowerPositive(n: nat)
    ensures Power256(n) > 0
  {
    if n > 0 {
      PowerPositive(n - 1);
    }
  }

  lemma QuotientUnique(x: nat, p: nat, q: nat)
    requires p > 0 && p * q <= x < p * (q + 1)
    ensures x / p == q
  {
    var d := x / p;
    assert p * d <= x < p * (d + 1);
    TimesOrder(p, d + 1, q);
    TimesOrder(p, q + 1, d);
  }

  lemma TimesOrder(p: nat, a: nat, b: nat)
    ensures a <= b ==> p * a <= p * b
  {
  }

  lemma {:induction false} ShiftedZero(k: nat)
    ensures Shifted(0, k) == 0
  {
    if k > 0 {
      ShiftedZero(k - 1);
    }
  }

  /** Byte k of the vector. */
  lemma IvecByte<B>(byteOf: nat -> B, g: nat, k: nat)
    requires k < BLOCK
    ensures Power256(k) > 0 && Ivec(byteOf, g)[k] == byteOf(if k < 8 then g / Power256(k) % 256 else 0)
  {
    PowerPositive(k);
    ShiftDivides(g, k);
    QuotientUnique(g, Power256(k), Shifted(g, k));
    if k >= 8 {
      ShiftedZero(k - 8);
      assert Ivec(byteOf, g)[k] == LittleEndian(byteOf, 0, 8)[k - 8];
    }
  }

  lemma {:induction false} NumberFromBytes<B>(byteOf: nat -> B, x: nat, y: nat, n: nat)
    requires forall a: nat, b: nat :: a < 256 && b < 256 && byteOf(a) == byteOf(b) ==> a == b
    requires x < Power256(n) && y < Power256(n) && LittleEndian(byteOf, x, n) == LittleEndian(byteOf, y, n)
    ensures x == y
  {
    if n > 0 {
      var more, less := LittleEndian(byteOf, x, n), LittleEndian(byteOf, y, n);
      assert byteOf(x % 256) == more[0] == less[0] == byteOf(y % 256);
      assert more[1..] == LittleEndian(byteOf, x / 256, n - 1) && less[1..] == LittleEndian(byteOf, y / 256, n - 1);
      NumberFromBytes(byteOf, x / 256, y / 256, n - 1);
    }
  }

  /** No two sectors have the same vector. */
  lemma VectorsDiffer<B>(byteOf: nat -> B, g: nat, f: nat)
    requires forall a: nat, b: nat :: a < 256 && b < 256 && byteOf(a) == byteOf(b) ==> a == b
    requires g < Power256(8) && f < Power256(8) && g != f
    ensures Ivec(byteOf, g) != Ivec(byteOf, f)
  {
    if Ivec(byteOf, g) == Ivec(byteOf, f) {
      assert LittleEndian(byteOf, g, 8) == Ivec(byteOf, g)[..8];
      assert LittleEndian(byteOf, f, 8) == Ivec(byteOf, f)[..8];
      NumberFromBytes(byteOf, g, f, 8);
    }
  }

  // ----- one sector

  ghost function Enciphered<B(0,!new)>(chain: Chain<B>, iv: seq<B>, s: seq<B>): seq<B>
    requires chain.Lawful() && |iv| == BLOCK
  {
    if |s| == SECTOR_BYTES then chain.Encrypt(s, iv) else s
  }

  ghost function Deciphered<B(0,!new)>(chain: Chain<B>, iv: seq<B>, c: seq<B>): seq<B>
    requires chain.Lawful() && |iv| == BLOCK
  {
    WholeBlocks(32);
    if |c| == SECTOR_BYTES then chain.Decrypt(c, SECTOR_BYTES, iv) else c
  }

  /** A sector deciphers to what was enciphered. */
  lemma SectorRoundTrip<B(0,!new)>(chain: Chain<B>, iv: seq<B>, s: seq<B>)
    requires chain.Lawful() && |iv| == BLOCK
    ensures |Enciphered(chain, iv, s)| == |s| && Deciphered(chain, iv, Enciphered(chain, iv, s)) == s
  {
    if |s| == SECTOR_BYTES {
      WholeBlocks(32);
      chain.RoundTrip(s, iv);
    }
  }

  /** The sectors of an encrypted image: clusters of cs sectors, over a backing image. */
  ghost function CipherCodec<B(0,!new)>(chain: Chain<B>, byteOf: nat -> B, cs: nat, blank: seq<B>,
        backing: nat -> seq<B>): Codec<seq<B>>
    requires chain.Lawful()
  {
    Codec(cs, blank, backing, true,
      (g: nat, s: seq<B>) => Enciphered(chain, Ivec(byteOf, g), s),
      (g: nat, c: seq<B>) => Deciphered(chain, Ivec(byteOf, g), c))
  }

  /** With any lawful chain, AES among them, the drivers' demand is met. */
  lemma CipherCodecIsLawful<B(0,!new)>(chain: Chain<B>, byteOf: nat -> B, cs: nat, blank: seq<B>,
        backing: nat -> seq<B>)
    requires chain.Lawful() && cs > 0
    ensures CipherCodec(chain, byteOf, cs, blank, backing).Lawful()
  {
    var codec := CipherCodec(chain, byteOf, cs, blank, backing);
    forall g: nat, s: seq<B>
      ensures codec.Inverse(g, s)
    {
      SectorRoundTrip(chain, Ivec(byteOf, g), s);
      assert codec.enc(g, s) == Enciphered(chain, Ivec(byteOf, g), s);
    }
  }

  /** Sector g is chained from the vector of g, block by block, both ways. */
  lemma CodecIsChained<B(0,!new)>(chain: Chain<B>, byteOf: nat -> B, cs: nat, blank: seq<B>, backing: nat -> seq<B>,
        g: nat, s: seq<B>)
    requires chain.Lawful() && |s| == SECTOR_BYTES
    ensures var codec := CipherCodec(chain, byteOf, cs, blank, backing);
      && codec.crypt && |codec.enc(g, s)| == |codec.dec(g, s)| == SECTOR_BYTES
      && chain.EncryptsAll(s, Ivec(byteOf, g), codec.enc(g, s))
      && chain.DecryptsAll(s, Ivec(byteOf, g), codec.dec(g, s))
  {
    WholeBlocks(32);
    var iv := Ivec(byteOf, g);
    chain.EncryptSize(s, iv);
    chain.EncryptionIsChained(s, iv);
    chain.DecryptSize(s, SECTOR_BYTES, iv);
    chain.DecryptionIsChained(s, SECTOR_BYTES, iv);
  }

  // ----- encrypt_sectors

  /** r is sector s enciphered, or deciphered, from the vector iv: block by block. */
  ghost predicate Crypted<B(0,!new)>(chain: Chain<B>, iv: seq<B>, s: seq<B>, r: seq<B>, enc: bool)
    requires chain.Lawful() && |iv| == BLOCK && |s| == SECTOR_BYTES
  {
    && |r| == SECTOR_BYTES && (if enc then chain.EncryptsAll(s, iv, r) else chain.DecryptsAll(s, iv, r))
    && r == if enc then Enciphered(chain, iv, s) else Deciphered(chain, iv, s)
  }

  /** One call of AES_cbc_encrypt. */
  method CryptSector<B(0,!new)>(chain: Chain<B>, iv: seq<B>, s: seq<B>, enc: bool) returns (r: seq<B>)
    requires chain.Lawful() && |iv| == BLOCK && |s| == SECTOR_BYTES
    ensures Crypted(chain, iv, s, r, enc)
  {
    WholeBlocks(32);
    var buf := new B[SECTOR_BYTES](i requires 0 <= i < SECTOR_BYTES => s[i]);
    var ivec := new B[BLOCK](i requires 0 <= i < BLOCK => iv[i]);
    assert buf[..] == buf[..SECTOR_BYTES] == s && ivec[..] == iv;
    if enc {
      chain.EncryptBuffer(buf, buf, SECTOR_BYTES, ivec);
    } else {
      chain.DecryptBuffer(buf, buf, SECTOR_BYTES, ivec);
    }
    r := buf[..SECTOR_BYTES];
  }

  /** Each sector of the output so far is crypted with the vector of its own number. */
  ghost predicate AllCrypted<B(0,!new)>(chain: Chain<B>, byteOf: nat -> B, sector: nat, input: seq<seq<B>>,
        output: seq<seq<B>>, enc: bool)
    requires chain.Lawful() && forall i :: 0 <= i < |input| ==> |input[i]| == SECTOR_BYTES
  {
    |output| <= |input| &&
    forall i :: 0 <= i < |output| ==> Crypted(chain, Ivec(byteOf, sector + i), input[i], output[i], enc)
  }

  lemma CryptedMore<B(0,!new)>(chain: Chain<B>, byteOf: nat -> B, sector: nat, input: seq<seq<B>>,
        output: seq<seq<B>>, enc: bool, r: seq<B>)
    requires chain.Lawful() && forall i :: 0 <= i < |input| ==> |input[i]| == SECTOR_BYTES
    requires AllCrypted(chain, byteOf, sector, input, output, enc) && |output| < |input|
    requires Crypted(chain, Ivec(byteOf, sector + |output|), input[|output|], r, enc)
    ensures AllCrypted(chain, byteOf, sector, input, output + [r], enc)
  {
    var more := output + [r];
    forall i | 0 <= i < |more|
      ensures Crypted(chain, Ivec(byteOf, sector + i), input[i], more[i], enc)
    {
      assert more[i] == if i < |output| then output[i] else r;
    }
  }

  /** encrypt_sectors. */
  method EncryptSectors<B(0,!new)>(chain: Chain<B>, byteOf: nat -> B, sector: nat, input: seq<seq<B>>, enc: bool)
      returns (output: seq<seq<B>>)
    requires chain.Lawful() && forall i :: 0 <= i < |input| ==> |input[i]| == SECTOR_BYTES
    ensures |output| == |input| && AllCrypted(chain, byteOf, sector, input, output, enc)
  {
    output := [];
    var num := sector;
    while |output| < |input|
      invariant |output| <= |input| && num == sector + |output|
      invariant AllCrypted(chain, byteOf, sector, input, output, enc)
    {
      var r := CryptSector(chain, Ivec(byteOf, num), input[|output|], enc);
      CryptedMore(chain, byteOf, sector, input, output, enc, r);
      output := output + [r];
      num := num + 1;
    }
  }
}
