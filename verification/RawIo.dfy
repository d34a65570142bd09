/**
 Unaligned reads and writes over a file opened for direct access, which takes
 only offsets, sizes and buffer addresses that are multiples of 512.
 */
module RawIo {
  import opened Division

  const SECTOR: nat := 512
  const ALIGNED_BUFFER_SIZE: nat := 32 * SECTOR

  /** n is a whole number of sectors. */
  predicate Whole(n: nat) {
    Mod(n, SECTOR) == 0
  }

  function Down(n: nat): nat {
    Mul(Div(n, SECTOR), SECTOR)
  }

  function Up(n: nat): (r: nat)
    ensures Whole(r) && n <= r < n + SECTOR
  {
    RoundDown(n + SECTOR - 1);
    Down(n + SECTOR - 1)
  }

  lemma RoundDown(n: nat)
    ensures Whole(Down(n)) && Down(n) + Mod(n, SECTOR) == n
  {
    Split(n, SECTOR);
    QuotientIs(Down(n), SECTOR, Div(n, SECTOR));
  }

  lemma WholePlus(a: nat, b: nat)
    requires Whole(a)
    ensures Mod(a + b, SECTOR) == Mod(b, SECTOR)
  {
    DivFrom(a, b, SECTOR);
  }

  /** Rounding counts from any sector boundary. */
  lemma RoundFrom(at: nat, n: nat)
    requires Whole(at)
    ensures Up(at + n) == at + Up(n)
  {
    RoundDown(n + SECTOR - 1);
    RoundDown(at + n + SECTOR - 1);
    WholePlus(at, n + SECTOR - 1);
    assert at + (n + SECTOR - 1) == at + n + SECTOR - 1;
  }

  lemma BufferIsWhole()
    ensures Whole(ALIGNED_BUFFER_SIZE)
  {
    MulIs(32, SECTOR);
    QuotientIs(ALIGNED_BUFFER_SIZE, SECTOR, 32);
  }

  /** The sector boundaries around an offset that is not one. */
  lemma Boundaries(offset: nat)
    ensures Whole(offset - Mod(offset, SECTOR)) && Whole(offset - Mod(offset, SECTOR) + SECTOR) && Whole(SECTOR)
  {
    RoundDown(offset);
    QuotientIs(SECTOR, SECTOR, 1);
    WholePlus(offset - Mod(offset, SECTOR), SECTOR);
  }

  /** What fits into the aligned buffer. */
  function Clipped(n: nat): (r: nat)
    ensures r <= n && r <= ALIGNED_BUFFER_SIZE && (r == n || r == ALIGNED_BUFFER_SIZE) && (Whole(n) ==> Whole(r))
  {
    BufferIsWhole();
    if n > ALIGNED_BUFFER_SIZE then ALIGNED_BUFFER_SIZE else n
  }

  /** Less than a sector rounds up to one. */
  lemma UpSmall(n: nat)
    requires 0 < n < SECTOR
    ensures Up(n) == SECTOR
  {
    QuotientIs(n + SECTOR - 1, SECTOR, 1);
  }

  // ----- what the device does

  /** s with d in place of the bytes from at on. */
  function Spliced<B>(s: seq<B>, at: nat, d: seq<B>): (r: seq<B>)
    requires at + |d| <= |s|
    ensures |r| == |s| && forall k :: 0 <= k < |s| ==> r[k] == if at <= k < at + |d| then d[k - at] else s[k]
  {
    s[..at] + d + s[at + |d|..]
  }

  /** What a read of count bytes gives: fewer at the end of the file. */
  function Available<B>(s: seq<B>, at: nat, count: nat): (r: seq<B>)
    ensures |r| <= count && (|r| < count ==> at + |r| == |s| || (|s| <= at && r == []))
    ensures r != [] ==> at + |r| <= |s|
    ensures forall k :: 0 <= k < |r| ==> at + k < |s| && r[k] == s[at + k]
  {
    if |s| <= at then [] else if at + count <= |s| then s[at..at + count] else s[at..]
  }

  /** Part of a buffer that was read into: where the file has a byte, it is that. */
  lemma Sliced<B>(buffer: seq<B>, file: seq<B>, base: nat, size: nat, shift: nat, n: nat)
    requires shift + n <= size <= |buffer|
    ensures var part := Spliced(buffer, 0, Available(file, base, size))[shift..shift + n];
      forall k :: 0 <= k < n && base + shift + k < |file| ==> part[k] == file[base + shift + k]
  {
    var whole := Spliced(buffer, 0, Available(file, base, size));
    var part := whole[shift..shift + n];
    forall k | 0 <= k < n && base + shift + k < |file|
      ensures part[k] == file[base + shift + k]
    {
      assert part[k] == whole[shift + k];
    }
  }

  /** The length of a file of n bytes after a write that ends at end. */
  function Longer(n: nat, end: nat): nat {
    if n < end then end else n
  }

  /** The file after a write: longer if need be, a gap reading as zeros. */
  function Put<B>(s: seq<B>, at: nat, d: seq<B>, zero: B): (r: seq<B>)
    ensures |r| == if d == [] then |s| else Longer(|s|, at + |d|)
    ensures forall k :: 0 <= k < |r| ==>
      r[k] == if at <= k < at + |d| then d[k - at] else if k < |s| then s[k] else zero
  {
    if d == [] then s
    else
      seq(Longer(|s|, at + |d|), k requires 0 <= k =>
        if at <= k < at + |d| then d[k - at] else if k < |s| then s[k] else zero)
  }

  /** Two writes side by side are one. */
  lemma PutNext<B>(s: seq<B>, at: nat, a: seq<B>, b: seq<B>, zero: B)
    ensures Put(Put(s, at, a, zero), at + |a|, b, zero) == Put(s, at, a + b, zero)
  {
    var l, r := Put(Put(s, at, a, zero), at + |a|, b, zero), Put(s, at, a + b, zero);
    assert |l| == |r|;
    forall k | 0 <= k < |r|
      ensures l[k] == r[k]
    {
    }
  }

  /** The file after reading the sector at base into a buffer that held stale,
      changing it from `at` on, and writing it back. */
  function Patched<B>(s: seq<B>, base: nat, at: nat, d: seq<B>, stale: seq<B>, zero: B): (r: seq<B>)
    requires |stale| >= SECTOR && base <= at && at + |d| <= base + SECTOR
    ensures |r| == Longer(|s|, base + SECTOR)
  {
    seq(Longer(|s|, base + SECTOR), k requires 0 <= k < Longer(|s|, base + SECTOR) =>
      if at <= k < at + |d| then d[k - at] else if k < |s| then s[k] else if k < base then zero else stale[k - base])
  }

  // ----- when a partial sector is written exactly

  /** Between the end of the file, if it is in this sector or before, and `at`
      the buffer held zeros. */
  ghost predicate ZeroGap<B>(size: nat, base: nat, at: nat, stale: seq<B>, zero: B)
    requires |stale| >= SECTOR && base <= at <= base + SECTOR
  {
    forall i :: 0 <= i < at - base && size <= base + i ==> stale[i] == zero
  }

  /** The first sector of a write of n bytes at `at`: it is in the file, or the
      write fills it to its end and what is before it is zero. */
  ghost predicate FirstOk<B>(size: nat, base: nat, at: nat, n: nat, stale: seq<B>, zero: B)
    requires |stale| >= SECTOR && base <= at <= base + SECTOR
  {
    base + SECTOR <= size || (base + SECTOR <= at + n && ZeroGap(size, base, at, stale, zero))
  }

  lemma FirstIff<B>(s: seq<B>, base: nat, at: nat, d: seq<B>, n: nat, stale: seq<B>, zero: B)
    requires |stale| >= SECTOR && base < at < base + SECTOR && n <= |d|
    requires at + n <= base + SECTOR && (n < |d| ==> at + n == base + SECTOR)
    ensures Put(Patched(s, base, at, d[..n], stale, zero), at + n, d[n..], zero) == Put(s, at, d, zero)
      <==> FirstOk(|s|, base, at, |d|, stale, zero)
  {
    var f := Patched(s, base, at, d[..n], stale, zero);
    var l, r := Put(f, at + n, d[n..], zero), Put(s, at, d, zero);
    if FirstOk(|s|, base, at, |d|, stale, zero) {
      assert |l| == |r|;
      forall k | 0 <= k < |r|
        ensures l[k] == r[k]
      {
        if base <= k < at && |s| <= k {
          assert f[k] == stale[k - base];
        }
      }
    } else if base + SECTOR <= at + |d| {
      var i :| 0 <= i < at - base && |s| <= base + i && stale[i] != zero;
      assert l[base + i] == f[base + i] == stale[i] && r[base + i] == zero;
    } else {
      assert |l| == base + SECTOR > |r|;
    }
  }

  /** The last sector: it has to be in the file. */
  lemma LastIff<B>(s: seq<B>, at: nat, d: seq<B>, stale: seq<B>, zero: B)
    requires |stale| >= SECTOR && 0 < |d| < SECTOR
    ensures Patched(s, at, at, d, stale, zero) == Put(s, at, d, zero) <==> at + SECTOR <= |s|
    ensures |Patched(s, at, at, d, stale, zero)| > Longer(|s|, at + |d|) <==> |s| < at + SECTOR
  {
    var l, r := Patched(s, at, at, d, stale, zero), Put(s, at, d, zero);
    if at + SECTOR <= |s| {
      assert |l| == |r|;
      forall k | 0 <= k < |r|
        ensures l[k] == r[k]
      {
      }
    } else {
      assert |l| != |r|;
    }
  }

  /** What became of a read: the bytes; a loop that never ends; or a device call
      at an offset the device does not take. */
  datatype Outcome<B> = Done(bytes: seq<B>) | Stuck | Refused

  class RawFile<B(0)> {
    const direct: bool            // opened with O_DIRECT: there is an aligned buffer
    const zero: B
    const aligned: array<B>
    const alignedAddress: nat
    var file: seq<B>

    ghost predicate Valid()
      reads this
    {
      aligned.Length == ALIGNED_BUFFER_SIZE && Whole(alignedAddress)
    }

    constructor (direct: bool, file: seq<B>, zero: B, alignedAddress: nat)
      requires Whole(alignedAddress)
      ensures Valid() && this.direct == direct && this.file == file && this.zero == zero && fresh(aligned)
    {
      this.direct, this.file, this.zero, this.alignedAddress := direct, file, zero, alignedAddress;
      aligned := new B[ALIGNED_BUFFER_SIZE];
    }

    // ----- the device

    /** raw_pread_aligned into a buffer at that address. */
    method PreadAligned(offset: nat, count: nat, address: nat) returns (bytes: seq<B>)
      requires direct ==> Whole(offset) && Whole(count) && Whole(address)
      ensures bytes == Available(file, offset, count)
    {
      bytes := Available(file, offset, count);
    }

    /** raw_pwrite_aligned from a buffer at that address. */
    method PwriteAligned(offset: nat, bytes: seq<B>, address: nat) returns (ret: nat)
      requires direct ==> Whole(offset) && Whole(|bytes|) && Whole(address)
      modifies `file
      ensures file == Put(old(file), offset, bytes, zero) && ret == |bytes|
    {
      file := Put(file, offset, bytes, zero);
      ret := |bytes|;
    }

    // ----- the aligned buffer

    /** memcpy into the aligned buffer. */
    method CopyIn(at: nat, bytes: seq<B>)
      requires at + |bytes| <= aligned.Length
      modifies aligned
      ensures aligned[..] == Spliced(old(aligned[..]), at, bytes)
    {
      var i := 0;
      while i < |bytes|
        invariant i <= |bytes|
        invariant forall k :: 0 <= k < aligned.Length ==>
          aligned[k] == if at <= k < at + i then bytes[k - at] else old(aligned[k])
      {
        aligned[at + i] := bytes[i];
        i := i + 1;
      }
      assert |aligned[..]| == |Spliced(old(aligned[..]), at, bytes)|;
    }

    /** Read into the aligned buffer; how many bytes came. */
    method ReadAligned(offset: nat, size: nat) returns (ret: nat)
      requires Valid() && Whole(offset) && Whole(size) && size <= ALIGNED_BUFFER_SIZE
      modifies aligned
      ensures ret == |Available(file, offset, size)|
      ensures aligned[..] == Spliced(old(aligned[..]), 0, Available(file, offset, size))
    {
      var bytes := PreadAligned(offset, size, alignedAddress);
      CopyIn(0, bytes);
      ret := |bytes|;
    }

    /** Put bytes into the sector at base, shift bytes from its start. */
    method ModifySector(base: nat, shift: nat, bytes: seq<B>) returns (ret: nat)
      requires Valid() && Whole(base) && shift + |bytes| <= SECTOR
      modifies `file, aligned
      ensures file == Patched(old(file), base, base + shift, bytes, old(aligned[..]), zero) && ret == SECTOR
    {
      Boundaries(base);
      ret := ReadAligned(base, SECTOR);
      ghost var sector := aligned[..];
      CopyIn(shift, bytes);
      ghost var full := aligned[..];
      ret := PwriteAligned(base, aligned[..SECTOR], alignedAddress);
      ghost var want := Patched(old(file), base, base + shift, bytes, old(aligned[..]), zero);
      assert |file| == |want|;
      forall k | 0 <= k < |file|
        ensures file[k] == want[k]
      {
        if base <= k < base + SECTOR {
          assert file[k] == full[k - base];
          assert !(shift <= k - base < shift + |bytes|) ==> full[k - base] == sector[k - base];
        }
      }
    }

    // ----- raw_pread

    /** How many bytes come before the first sector boundary. */
    function First(offset: nat, count: nat): (n: nat)
      ensures n <= count && (n == count || Whole(offset + n))
    {
      Boundaries(offset);
      if Whole(offset) then 0 else if SECTOR - Mod(offset, SECTOR) > count then count else SECTOR - Mod(offset, SECTOR)
    }

    /** The rest goes through the aligned buffer. */
    predicate Buffers(offset: nat, count: nat, address: nat) {
      var n := First(offset, count);
      direct && n < count && (!Whole(count - n) || !Whole(address + n))
    }

    /** Every byte of buf that the file has at its place is the file's. */
    ghost predicate Agrees(buf: seq<B>, offset: nat)
      reads this
    {
      forall k :: 0 <= k < |buf| && offset + k < |file| ==> buf[k] == file[offset + k]
    }

    /** raw_pread.  It gives the bytes asked for if the file has them all.  If
        not, a read through the aligned buffer does not end, or makes a device
        call at an unaligned offset; another gives the bytes there are, but
        counts those up to the first boundary whether there are any or not. */
    method Pread(offset: nat, count: nat, address: nat) returns (r: Outcome<B>)
      requires Valid()
      modifies aligned
      ensures offset + count <= |file| ==> r == Done(file[offset..offset + count])
      ensures offset + count > |file| && Buffers(offset, count, address) ==>
        r == if |file| <= offset + First(offset, count) || Whole(|file|) then Stuck else Refused
      ensures offset + count > |file| && !Buffers(offset, count, address) ==>
        var n := if direct then First(offset, count) else 0;
        r.Done? && Agrees(r.bytes, offset) && |r.bytes| == n + |Available(file, offset + n, count - n)|
      ensures r == Stuck <==>
        && offset + count > |file| && Buffers(offset, count, address)
        && (|file| <= offset + First(offset, count) || Whole(|file|))
    {
      var buf: seq<B> := [];
      if direct && !Whole(offset) {
        buf := PreadFirst(offset, count);
        if |buf| == count {
          Exact(buf, offset, count);
          return Done(buf);
        }
      }
      r := PreadRest(offset, count, address, buf);
    }

    /** The part of raw_pread after the first sector. */
    method PreadRest(offset: nat, count: nat, address: nat, first: seq<B>) returns (r: Outcome<B>)
      requires Valid() && |first| <= count && Agrees(first, offset) && (direct ==> Whole(offset + |first|))
      modifies aligned
      ensures var buffers := direct && |first| < count && (!Whole(count - |first|) || !Whole(address + |first|));
        if offset + count <= |file| then r == Done(file[offset..offset + count])
        else if buffers then r == if |file| <= offset + |first| || Whole(|file|) then Stuck else Refused
        else (
          && r.Done? && Agrees(r.bytes, offset)
          && |r.bytes| == |first| + |Available(file, offset + |first|, count - |first|)|
        )
    {
      if direct && (!Whole(count - |first|) || !Whole(address + |first|)) {
        r := PreadBuffered(offset, count, first);
      } else {
        var rest := PreadAligned(offset + |first|, count - |first|, address + |first|);
        Exact(first + rest, offset, count);
        r := Done(first + rest);
      }
    }

    lemma Exact(buf: seq<B>, offset: nat, count: nat)
      requires Agrees(buf, offset)
      ensures offset + count <= |file| && |buf| == count ==> buf == file[offset..offset + count]
    {
    }

    /** The bytes up to the first sector boundary. */
    method PreadFirst(offset: nat, count: nat) returns (buf: seq<B>)
      requires Valid() && !Whole(offset)
      modifies aligned
      ensures |buf| == First(offset, count) && Agrees(buf, offset)
    {
      var shift := Mod(offset, SECTOR);
      var base := offset - shift;
      Boundaries(offset);
      var size := Clipped(Up(shift + count));
      var ret := ReadAligned(base, size);
      var n := SECTOR - shift;
      if n > count {
        n := count;
      }
      buf := aligned[..][shift..shift + n];
      Sliced(old(aligned[..]), file, base, size, shift, n);
    }

    /** Some of the left bytes at a sector boundary, through the aligned buffer. */
    method ReadSome(at: nat, left: nat) returns (bytes: seq<B>)
      requires Valid() && Whole(at) && left > 0
      modifies aligned
      ensures |bytes| <= left && Agrees(bytes, at) && (bytes == [] <==> |file| <= at)
      ensures bytes != [] ==> at + |bytes| <= |file|
      ensures |bytes| == left || Whole(at + |bytes|) || at + |bytes| == |file|
    {
      var size := Clipped(Up(left));
      WholePlus(at, size);
      var n := ReadAligned(at, size);
      if n > left {
        n := left;
      }
      bytes := aligned[..n];
      assert forall k :: 0 <= k < n ==> bytes[k] == aligned[..][k];
    }

    /** The rest, sectors at a time through the aligned buffer.  A read that
        gives nothing changes nothing, and is made again for ever. */
    method PreadBuffered(offset: nat, count: nat, first: seq<B>) returns (r: Outcome<B>)
      requires Valid() && |first| <= count && Agrees(first, offset) && Whole(offset + |first|)
      modifies aligned
      ensures offset + count <= |file| ==> r == Done(file[offset..offset + count])
      ensures offset + count > |file| && |first| < count ==>
        r == if |file| <= offset + |first| || Whole(|file|) then Stuck else Refused
      ensures |first| == count ==> r == Done(first)
    {
      var buf := first;
      while |buf| < count
        invariant |first| <= |buf| <= count && Agrees(buf, offset)
        invariant buf == first || offset + |buf| <= |file|
        invariant |buf| == count || Whole(offset + |buf|) || offset + |buf| == |file|
      {
        var at := offset + |buf|;
        if !Whole(at) {
          return Refused;
        }
        var bytes := ReadSome(at, count - |buf|);
        if bytes == [] {
          return Stuck;
        }
        buf := buf + bytes;
      }
      Exact(buf, offset, count);
      r := Done(buf);
    }

    // ----- raw_pwrite

    /** The last sector of a write from a boundary on, if it is written in part, is in a file of that size. */
    predicate LastOk(offset: nat, count: nat, size: nat) {
      direct && !Whole(count) ==> Up(offset + count) <= size
    }

    /** The sectors that are written in part are in the file, or the write fills
        the first to its end and the aligned buffer has zeros for a gap before it. */
    ghost predicate PartsOk(offset: nat, count: nat)
      reads this, aligned
      requires Valid()
    {
      var n := First(offset, count);
      direct ==>
        && (Whole(offset) || FirstOk(|file|, offset - Mod(offset, SECTOR), offset, count, aligned[..], zero))
        && LastOk(offset + n, count - n, |file|)
    }

    /** raw_pwrite.  It changes exactly the bytes of the range, making the file
        longer if need be, if and only if the sectors written in part are there.
        Either way it says that all bytes were written. */
    method Pwrite(offset: nat, buf: seq<B>, address: nat) returns (sum: nat)
      requires Valid()
      modifies `file, aligned
      ensures file == Put(old(file), offset, buf, zero) <==> old(PartsOk(offset, |buf|))
      ensures sum == |buf|
    {
      if direct && !Whole(offset) {
        sum := PwriteFirst(offset, buf);
        ghost var done, mid := sum, file;
        if sum < |buf| {
          var rest := PwriteRest(offset + sum, buf[sum..], address + sum);
          sum := sum + rest;
        }
        BothIff(old(file), offset, buf, done, old(aligned[..]), mid, file);
      } else {
        sum := PwriteRest(offset, buf, address);
      }
    }

    /** The first sector and the rest together. */
    lemma BothIff(was: seq<B>, offset: nat, buf: seq<B>, done: nat, stale: seq<B>, mid: seq<B>, now: seq<B>)
      requires direct && !Whole(offset) && done == First(offset, |buf|) && |stale| >= SECTOR
      requires mid == Patched(was, offset - Mod(offset, SECTOR), offset, buf[..done], stale, zero)
      requires done == |buf| ==> now == mid
      requires done < |buf| ==> Rested(mid, offset + done, buf[done..], now)
      ensures now == Put(was, offset, buf, zero) <==>
        && FirstOk(|was|, offset - Mod(offset, SECTOR), offset, |buf|, stale, zero)
        && LastOk(offset + done, |buf| - done, |was|)
    {
      Boundaries(offset);
      FirstIff(was, offset - Mod(offset, SECTOR), offset, buf, done, stale, zero);
      if done == |buf| {
        assert buf[done..] == [];
        QuotientIs(0, SECTOR, 0);
      }
    }

    /** A write from a boundary on: exact if the last sector is there, and too long otherwise. */
    ghost predicate Rested(was: seq<B>, offset: nat, buf: seq<B>, now: seq<B>) {
      if LastOk(offset, |buf|, |was|) then now == Put(was, offset, buf, zero)
      else |now| > Longer(|was|, offset + |buf|)
    }

    /** The part of raw_pwrite after the first sector. */
    method PwriteRest(offset: nat, buf: seq<B>, address: nat) returns (sum: nat)
      requires Valid() && (direct ==> Whole(offset))
      modifies `file, aligned
      ensures Rested(old(file), offset, buf, file) && sum == |buf|
    {
      if direct && (!Whole(|buf|) || !Whole(address)) {
        sum := PwriteBuffered(offset, buf);
      } else {
        sum := PwriteAligned(offset, buf, address);
      }
    }

    /** The bytes up to the first sector boundary. */
    method PwriteFirst(offset: nat, buf: seq<B>) returns (done: nat)
      requires Valid() && !Whole(offset)
      modifies `file, aligned
      ensures done == First(offset, |buf|)
      ensures var base := offset - Mod(offset, SECTOR);
        file == Patched(old(file), base, offset, buf[..done], old(aligned[..]), zero)
    {
      var shift := Mod(offset, SECTOR);
      done := SECTOR - shift;
      if done > |buf| {
        done := |buf|;
      }
      Boundaries(offset);
      var ret := ModifySector(offset - shift, shift, buf[..done]);
    }

    /** Whole sectors, as many as fit into the aligned buffer. */
    method WriteSome(at: nat, bytes: seq<B>) returns (n: nat)
      requires Valid() && Whole(at) && Down(|bytes|) != 0
      modifies `file, aligned
      ensures 0 < n <= |bytes| && Whole(n) && file == Put(old(file), at, bytes[..n], zero)
    {
      RoundDown(|bytes|);
      n := Clipped(Down(|bytes|));
      CopyIn(0, bytes[..n]);
      assert aligned[..n] == bytes[..n] by {
        assert aligned[..n] == aligned[..][..n];
      }
      n := PwriteAligned(at, aligned[..n], alignedAddress);
    }

    /** Whole sectors through the aligned buffer, as long as there are any. */
    method PwriteWhole(offset: nat, buf: seq<B>) returns (done: nat)
      requires Valid() && Whole(offset)
      modifies `file, aligned
      ensures done <= |buf| && Whole(offset + done) && Whole(done) && |buf| - done < SECTOR
      ensures file == Put(old(file), offset, buf[..done], zero)
    {
      done := 0;
      while Down(|buf| - done) != 0
        invariant done <= |buf| && Whole(done)
        invariant file == Put(old(file), offset, buf[..done], zero)
        decreases |buf| - done
      {
        WholePlus(offset, done);
        var n := WriteSome(offset + done, buf[done..]);
        WholePlus(done, n);
        PutNext(old(file), offset, buf[..done], buf[done..][..n], zero);
        assert buf[..done] + buf[done..][..n] == buf[..done + n];
        done := done + n;
      }
      RoundDown(|buf| - done);
      WholePlus(offset, done);
    }

    /** Whole sectors through the aligned buffer, then the last one in part. */
    method PwriteBuffered(offset: nat, buf: seq<B>) returns (sum: nat)
      requires Valid() && Whole(offset) && direct
      modifies `file, aligned
      ensures Rested(old(file), offset, buf, file) && sum == |buf|
    {
      sum := PwriteWhole(offset, buf);
      if sum < |buf| {
        ghost var mid, stale := file, aligned[..];
        var ret := ModifySector(offset + sum, 0, buf[sum..]);
        LastPart(old(file), mid, offset, buf, sum, stale);
        if |buf| - sum < ret {
          ret := |buf| - sum;
        }
        sum := sum + ret;
      } else {
        assert buf[..sum] == buf;
      }
    }

    lemma LastPart(was: seq<B>, mid: seq<B>, offset: nat, buf: seq<B>, done: nat, stale: seq<B>)
      requires Whole(offset + done) && Whole(done) && 0 < |buf| - done < SECTOR <= |stale|
      requires mid == Put(was, offset, buf[..done], zero)
      ensures direct ==> Rested(was, offset, buf, Patched(mid, offset + done, offset + done, buf[done..], stale, zero))
    {
      RoundFrom(offset + done, |buf| - done);
      UpSmall(|buf| - done);
      WholePlus(done, |buf| - done);
      LastIff(mid, offset + done, buf[done..], stale, zero);
      PutNext(was, offset, buf[..done], buf[done..], zero);
      assert buf[..done] + buf[done..] == buf;
    }
  }
}
