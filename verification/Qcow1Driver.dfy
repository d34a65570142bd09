/**
 The qcow version 1 driver: lookup with a cache of level-2 tables, allocation
 at the end of the file, and reads and writes a cluster at a time.
 */
module Qcow1Driver {
  import opened Collections
  import opened Division
  import opened L2Cache
  import opened Sectors
  import opened Qcow1Image

  // ----- what a write does to the content

  /** One of the n sectors from sector is in guest cluster x. */
  ghost predicate Touched(cs: nat, sector: nat, n: nat, x: nat) {
    exists g :: sector <= g < sector + n && Div(g, cs) == x
  }

  /** Guest sector g is not written, but its cluster is allocated by the write. */
  ghost predicate Exposed(cs: nat, s: Image, sector: nat, n: nat, g: nat) {
    !(sector <= g < sector + n) && s.Lookup(Div(g, cs)) == 0 && Touched(cs, sector, n, Div(g, cs))
  }

  /** What guest sector g reads after vals are written from sector on. */
  ghost function Written<S(!new)>(codec: Codec<S>, s: Image, data: map<Pos, S>, sector: nat, vals: seq<S>, g: nat): S {
    if sector <= g < sector + |vals| then vals[g - sector]
    else if Exposed(codec.cs, s, sector, |vals|, g) then codec.blank
    else Content(codec, s, data, g)
  }

  /** The content after a write, and which clusters are mapped then. */
  ghost predicate After<S(!new)>(codec: Codec<S>, s: Image, data: map<Pos, S>, m: Image, now: map<Pos, S>,
        sector: nat, vals: seq<S>) {
    && (forall g: nat :: Content(codec, m, now, g) == Written(codec, s, data, sector, vals, g))
    && (forall x: nat :: m.Lookup(x) != 0 <==> s.Lookup(x) != 0 || Touched(codec.cs, sector, |vals|, x))
  }

  /** What a flat array of sectors would read. */
  ghost function Flat<S(!new)>(codec: Codec<S>, s: Image, data: map<Pos, S>, sector: nat, vals: seq<S>, g: nat): S {
    if sector <= g < sector + |vals| then vals[g - sector] else Content(codec, s, data, g)
  }

  /** The driver behaves as a flat array exactly if the sectors it exposes read
      as zeroes in the backing image. */
  lemma FlatIff<S(!new)>(codec: Codec<S>, s: Image, data: map<Pos, S>, sector: nat, vals: seq<S>)
    ensures (forall g: nat :: Written(codec, s, data, sector, vals, g) == Flat(codec, s, data, sector, vals, g)) <==>
            (forall g: nat :: Exposed(codec.cs, s, sector, |vals|, g) ==> codec.backing(g) == codec.blank)
  {
    if forall g: nat :: Written(codec, s, data, sector, vals, g) == Flat(codec, s, data, sector, vals, g) {
      forall g: nat | Exposed(codec.cs, s, sector, |vals|, g)
        ensures codec.backing(g) == codec.blank
      {
        assert Written(codec, s, data, sector, vals, g) == Flat(codec, s, data, sector, vals, g);
      }
    }
  }

  /** Without a backing image, or with clusters of one sector, it always does. */
  lemma FlatWhenSafe<S(!new)>(codec: Codec<S>, s: Image, data: map<Pos, S>, sector: nat, vals: seq<S>, g: nat)
    requires codec.cs == 1 || codec.backing(g) == codec.blank
    ensures Written(codec, s, data, sector, vals, g) == Flat(codec, s, data, sector, vals, g)
  {
    if codec.cs == 1 && Exposed(codec.cs, s, sector, |vals|, g) {
      var f :| sector <= f < sector + |vals| && Div(f, codec.cs) == Div(g, codec.cs);
      Split(f, 1);
      Split(g, 1);
    }
  }

  /** Writing the first sector of an unmapped cluster of two loses the backing
      image's second. */
  lemma PartialWriteHidesBacking<S(!new)>(codec: Codec<S>, s: Image, data: map<Pos, S>, v: S)
    requires codec.cs == 2 && s.Lookup(0) == 0 && codec.backing(1) != codec.blank
    ensures Written(codec, s, data, 0, [v], 1) != Flat(codec, s, data, 0, [v], 1)
  {
    assert Div(0, 2) == 0 && Div(1, 2) == 0;
  }

  /** One part of a request after another. */
  lemma AfterChain<S(!new)>(codec: Codec<S>, s: Image, data: map<Pos, S>, m: Image, mid: map<Pos, S>, o: Image,
        now: map<Pos, S>,
                            sector: nat, vals: seq<S>, more: seq<S>)
    requires After(codec, s, data, m, mid, sector, vals) && After(codec, m, mid, o, now, sector + |vals|, more)
    ensures After(codec, s, data, o, now, sector, vals + more)
  {
    forall x: nat
      ensures Touched(codec.cs, sector, |vals + more|, x) <==>
        Touched(codec.cs, sector, |vals|, x) || Touched(codec.cs, sector + |vals|, |more|, x)
    {
      TouchedSplit(codec.cs, sector, |vals|, |more|, x);
    }
    forall g: nat
      ensures Content(codec, o, now, g) == Written(codec, s, data, sector, vals + more, g)
    {
      assert Content(codec, m, mid, g) == Written(codec, s, data, sector, vals, g);
      assert Content(codec, o, now, g) == Written(codec, m, mid, sector + |vals|, more, g);
      if sector <= g < sector + |vals| {
        assert Touched(codec.cs, sector, |vals|, Div(g, codec.cs));
      }
    }
  }

  lemma TouchedSplit(cs: nat, sector: nat, a: nat, b: nat, x: nat)
    ensures Touched(cs, sector, a + b, x) <==> Touched(cs, sector, a, x) || Touched(cs, sector + a, b, x)
  {
    if Touched(cs, sector, a + b, x) {
      var g :| sector <= g < sector + (a + b) && Div(g, cs) == x;
      assert (sector <= g < sector + a) || (sector + a <= g < sector + a + b);
    }
    if Touched(cs, sector, a, x) {
      var g :| sector <= g < sector + a && Div(g, cs) == x;
      assert sector <= g < sector + (a + b);
    }
    if Touched(cs, sector + a, b, x) {
      var g :| sector + a <= g < sector + a + b && Div(g, cs) == x;
      assert sector <= g < sector + (a + b);
    }
  }

  /** Nothing but unmapped tables were added. */
  lemma AfterNothing<S(!new)>(codec: Codec<S>, s: Image, data: map<Pos, S>, m: Image, sector: nat)
    requires m.l2Size == s.l2Size && forall y: nat, z: nat :: m.Walk(y, z) == s.Walk(y, z)
    ensures After(codec, s, data, m, data, sector, [])
  {
    forall x: nat
      ensures m.Lookup(x) == s.Lookup(x)
    {
      assert m.Walk(Div(x, s.l2Size), Mod(x, s.l2Size)) == s.Walk(Div(x, s.l2Size), Mod(x, s.l2Size));
    }
  }

  // ----- one cluster

  /** Guest cluster gc is mapped; if it was not before, its sectors outside
      nStart to nEnd are zeroes. */
  ghost predicate Prepared<S(!new)>(codec: Codec<S>, s: Image, data: map<Pos, S>, m: Image, mid: map<Pos, S>,
        gc: nat, nStart: nat, nEnd: nat) {
    var h := m.Lookup(gc);
    && h != 0
    && (forall x: nat :: x != gc ==> m.Lookup(x) == s.Lookup(x))
    && (s.Lookup(gc) != 0 ==> h == s.Lookup(gc) && mid == data)
    && (forall p: Pos :: p.cluster != h ==> codec.Get(mid, p) == codec.Get(data, p))
    && (s.Lookup(gc) == 0 ==> forall k :: 0 <= k < codec.cs && !(nStart <= k < nEnd) ==>
          codec.Get(mid, Pos(h, k)) == codec.Seal(Mul(gc, codec.cs) + k, codec.blank))
  }

  /** The file after sectors nStart on of the cluster at h have been written. */
  ghost predicate ClusterPut<S(!new)>(codec: Codec<S>, mid: map<Pos, S>, now: map<Pos, S>, h: nat, nStart: nat,
        sector: nat, vals: seq<S>) {
    forall p: Pos :: codec.Get(now, p) ==
      if p.cluster == h && nStart <= p.index < nStart + |vals|
      then codec.Seal(sector + (p.index - nStart), vals[p.index - nStart]) else codec.Get(mid, p)
  }

  lemma ClusterWritten<S(!new)>(codec: Codec<S>, s: Image, data: map<Pos, S>, m: Image, mid: map<Pos, S>,
        now: map<Pos, S>, sector: nat, vals: seq<S>)
    requires codec.Lawful() && m.Sound() && Mod(sector, codec.cs) + |vals| <= codec.cs && |vals| > 0
    requires Prepared(codec, s, data, m, mid, Div(sector, codec.cs), Mod(sector, codec.cs),
      Mod(sector, codec.cs) + |vals|)
    requires ClusterPut(codec, mid, now, m.Lookup(Div(sector, codec.cs)), Mod(sector, codec.cs), sector, vals)
    ensures After(codec, s, data, m, now, sector, vals)
  {
    var gc := Div(sector, codec.cs);
    forall x: nat
      ensures Touched(codec.cs, sector, |vals|, x) <==> x == gc
    {
      if Touched(codec.cs, sector, |vals|, x) {
        var g :| sector <= g < sector + |vals| && Div(g, codec.cs) == x;
        StepInside(sector, codec.cs, g - sector);
      }
      assert sector <= sector < sector + |vals|;
    }
    forall g: nat
      ensures Content(codec, m, now, g) == Written(codec, s, data, sector, vals, g)
    {
      if Div(g, codec.cs) == gc {
        SectorOfCluster(codec, s, data, m, mid, now, sector, vals, g);
      } else {
        OtherCluster(codec, s, data, m, mid, now, sector, vals, g);
      }
    }
  }

  lemma SectorOfCluster<S(!new)>(codec: Codec<S>, s: Image, data: map<Pos, S>, m: Image, mid: map<Pos, S>,
        now: map<Pos, S>, sector: nat, vals: seq<S>, g: nat)
    requires codec.Lawful() && Mod(sector, codec.cs) + |vals| <= codec.cs && |vals| > 0 &&
      Div(g, codec.cs) == Div(sector, codec.cs)
    requires Prepared(codec, s, data, m, mid, Div(sector, codec.cs), Mod(sector, codec.cs),
      Mod(sector, codec.cs) + |vals|)
    requires ClusterPut(codec, mid, now, m.Lookup(Div(sector, codec.cs)), Mod(sector, codec.cs), sector, vals)
    ensures Content(codec, m, now, g) == Written(codec, s, data, sector, vals, g)
  {
    var gc := Div(sector, codec.cs);
    Split(sector, codec.cs);
    Split(g, codec.cs);
    assert Touched(codec.cs, sector, |vals|, gc) by {
      assert sector <= sector < sector + |vals|;
    }
    var p := Pos(m.Lookup(gc), Mod(g, codec.cs));
    if sector <= g < sector + |vals| {
      assert codec.Get(now, p) == codec.Seal(g, vals[g - sector]);
      codec.OpenSeal(g, vals[g - sector]);
    } else {
      assert codec.Get(now, p) == codec.Get(mid, p);
      codec.OpenSeal(g, codec.blank);
    }
  }

  lemma OtherCluster<S(!new)>(codec: Codec<S>, s: Image, data: map<Pos, S>, m: Image, mid: map<Pos, S>,
        now: map<Pos, S>, sector: nat, vals: seq<S>, g: nat)
    requires codec.Lawful() && m.Sound() && Mod(sector, codec.cs) + |vals| <= codec.cs &&
      Div(g, codec.cs) != Div(sector, codec.cs)
    requires Prepared(codec, s, data, m, mid, Div(sector, codec.cs), Mod(sector, codec.cs),
      Mod(sector, codec.cs) + |vals|)
    requires ClusterPut(codec, mid, now, m.Lookup(Div(sector, codec.cs)), Mod(sector, codec.cs), sector, vals)
    ensures Content(codec, m, now, g) == Written(codec, s, data, sector, vals, g)
  {
    var x := Div(g, codec.cs);
    forall f | sector <= f < sector + |vals|
      ensures Div(f, codec.cs) != x
    {
      StepInside(sector, codec.cs, f - sector);
    }
    if s.Lookup(x) != 0 {
      DisjointRanges(m, x, Div(sector, codec.cs));
      var p := Pos(s.Lookup(x), Mod(g, codec.cs));
      assert codec.Get(now, p) == codec.Get(mid, p) == codec.Get(data, p);
    }
  }

  // ----- what a write leaves in the file

  /** Guest sector g is mapped, and its place in the file holds v: enciphered
      under its own number if the image is encrypted. */
  ghost predicate StoredAs<S(!new)>(codec: Codec<S>, m: Image, now: map<Pos, S>, g: nat, v: S) {
    var h := m.Lookup(Div(g, codec.cs));
    h != 0 && codec.Get(now, Pos(h, Mod(g, codec.cs))) == if codec.crypt then codec.enc(g, v) else v
  }

  /** A sector that is written is stored as its value.  Any other stays what and
      where it was if it was mapped; if it is mapped with another, it is stored
      as zeroes. */
  ghost predicate Stored<S(!new)>(codec: Codec<S>, s: Image, data: map<Pos, S>, m: Image, now: map<Pos, S>,
        sector: nat, vals: seq<S>, g: nat) {
    var x := Div(g, codec.cs);
    var p := Pos(s.Lookup(x), Mod(g, codec.cs));
    if sector <= g < sector + |vals| then StoredAs(codec, m, now, g, vals[g - sector])
    else if s.Lookup(x) != 0 then m.Lookup(x) == s.Lookup(x) && codec.Get(now, p) == codec.Get(data, p)
    else m.Lookup(x) == 0 || StoredAs(codec, m, now, g, codec.blank)
  }

  ghost predicate AllStored<S(!new)>(codec: Codec<S>, s: Image, data: map<Pos, S>, m: Image, now: map<Pos, S>,
        sector: nat, vals: seq<S>) {
    forall g: nat :: Stored(codec, s, data, m, now, sector, vals, g)
  }

  lemma ClusterStored<S(!new)>(codec: Codec<S>, s: Image, data: map<Pos, S>, m: Image, mid: map<Pos, S>,
        now: map<Pos, S>, sector: nat, vals: seq<S>)
    requires codec.Lawful() && m.Sound() && Mod(sector, codec.cs) + |vals| <= codec.cs && |vals| > 0
    requires Prepared(codec, s, data, m, mid, Div(sector, codec.cs), Mod(sector, codec.cs),
      Mod(sector, codec.cs) + |vals|)
    requires ClusterPut(codec, mid, now, m.Lookup(Div(sector, codec.cs)), Mod(sector, codec.cs), sector, vals)
    ensures AllStored(codec, s, data, m, now, sector, vals)
  {
    forall g: nat
      ensures Stored(codec, s, data, m, now, sector, vals, g)
    {
      if Div(g, codec.cs) == Div(sector, codec.cs) {
        StoredInCluster(codec, s, data, m, mid, now, sector, vals, g);
      } else {
        StoredElsewhere(codec, s, data, m, mid, now, sector, vals, g);
      }
    }
  }

  lemma StoredInCluster<S(!new)>(codec: Codec<S>, s: Image, data: map<Pos, S>, m: Image, mid: map<Pos, S>,
        now: map<Pos, S>, sector: nat, vals: seq<S>, g: nat)
    requires codec.cs > 0 && Mod(sector, codec.cs) + |vals| <= codec.cs && Div(g, codec.cs) == Div(sector, codec.cs)
    requires Prepared(codec, s, data, m, mid, Div(sector, codec.cs), Mod(sector, codec.cs),
      Mod(sector, codec.cs) + |vals|)
    requires ClusterPut(codec, mid, now, m.Lookup(Div(sector, codec.cs)), Mod(sector, codec.cs), sector, vals)
    ensures Stored(codec, s, data, m, now, sector, vals, g)
  {
    Split(sector, codec.cs);
    Split(g, codec.cs);
    var p := Pos(m.Lookup(Div(sector, codec.cs)), Mod(g, codec.cs));
    if sector <= g < sector + |vals| {
      assert codec.Get(now, p) == codec.Seal(g, vals[g - sector]);
    } else {
      assert codec.Get(now, p) == codec.Get(mid, p);
    }
  }

  lemma StoredElsewhere<S(!new)>(codec: Codec<S>, s: Image, data: map<Pos, S>, m: Image, mid: map<Pos, S>,
        now: map<Pos, S>, sector: nat, vals: seq<S>, g: nat)
    requires codec.cs > 0 && m.Sound() && Mod(sector, codec.cs) + |vals| <= codec.cs
    requires Div(g, codec.cs) != Div(sector, codec.cs)
    requires Prepared(codec, s, data, m, mid, Div(sector, codec.cs), Mod(sector, codec.cs),
      Mod(sector, codec.cs) + |vals|)
    requires ClusterPut(codec, mid, now, m.Lookup(Div(sector, codec.cs)), Mod(sector, codec.cs), sector, vals)
    ensures Stored(codec, s, data, m, now, sector, vals, g)
  {
    var x := Div(g, codec.cs);
    if sector <= g < sector + |vals| {
      StepInside(sector, codec.cs, g - sector);
      assert false;
    }
    if s.Lookup(x) != 0 {
      DisjointRanges(m, x, Div(sector, codec.cs));
      var p := Pos(s.Lookup(x), Mod(g, codec.cs));
      assert codec.Get(now, p) == codec.Get(mid, p) == codec.Get(data, p);
    }
  }

  /** One part of a request after another. */
  lemma StoredChain<S(!new)>(codec: Codec<S>, s: Image, data: map<Pos, S>, m: Image, mid: map<Pos, S>, o: Image,
        now: map<Pos, S>, sector: nat, vals: seq<S>, more: seq<S>)
    requires AllStored(codec, s, data, m, mid, sector, vals)
    requires AllStored(codec, m, mid, o, now, sector + |vals|, more)
    ensures AllStored(codec, s, data, o, now, sector, vals + more)
  {
    forall g: nat
      ensures Stored(codec, s, data, o, now, sector, vals + more, g)
    {
      assert Stored(codec, s, data, m, mid, sector, vals, g);
      assert Stored(codec, m, mid, o, now, sector + |vals|, more, g);
    }
  }

  /** The content and the file after a write. */
  ghost predicate Wrote<S(!new)>(codec: Codec<S>, s: Image, data: map<Pos, S>, m: Image, now: map<Pos, S>,
        sector: nat, vals: seq<S>) {
    After(codec, s, data, m, now, sector, vals) && AllStored(codec, s, data, m, now, sector, vals)
  }

  lemma WroteNothing<S(!new)>(codec: Codec<S>, s: Image, data: map<Pos, S>, sector: nat)
    ensures Wrote(codec, s, data, s, data, sector, [])
  {
    AfterNothing(codec, s, data, s, sector);
  }

  lemma WroteChain<S(!new)>(codec: Codec<S>, s: Image, data: map<Pos, S>, m: Image, mid: map<Pos, S>, o: Image,
        now: map<Pos, S>, sector: nat, vals: seq<S>, more: seq<S>)
    requires Wrote(codec, s, data, m, mid, sector, vals) && Wrote(codec, m, mid, o, now, sector + |vals|, more)
    ensures Wrote(codec, s, data, o, now, sector, vals + more)
  {
    AfterChain(codec, s, data, m, mid, o, now, sector, vals, more);
    StoredChain(codec, s, data, m, mid, o, now, sector, vals, more);
  }

  /** v is the backing image's sector g if g is unmapped, and otherwise what the
      file holds for g, deciphered under its own number if it is encrypted. */
  ghost predicate ReadFrom<S(!new)>(codec: Codec<S>, s: Image, data: map<Pos, S>, g: nat, v: S) {
    var h := s.Lookup(Div(g, codec.cs));
    var raw := codec.Get(data, Pos(h, Mod(g, codec.cs)));
    v == if h == 0 then codec.backing(g) else if codec.crypt then codec.dec(g, raw) else raw
  }

  ghost predicate AllReadFrom<S(!new)>(codec: Codec<S>, s: Image, data: map<Pos, S>, sector: nat, buf: seq<S>) {
    forall k :: 0 <= k < |buf| ==> ReadFrom(codec, s, data, sector + k, buf[k])
  }

  lemma ContentReadFrom<S(!new)>(codec: Codec<S>, s: Image, data: map<Pos, S>, sector: nat, buf: seq<S>)
    requires forall g :: sector <= g < sector + |buf| ==> buf[g - sector] == Content(codec, s, data, g)
    ensures AllReadFrom(codec, s, data, sector, buf)
  {
    forall k | 0 <= k < |buf|
      ensures ReadFrom(codec, s, data, sector + k, buf[k])
    {
      assert buf[(sector + k) - sector] == Content(codec, s, data, sector + k);
    }
  }

  /** The entry that the two levels of tables hold for guest cluster gc. */
  ghost function EntryOf(s: Image, gc: nat): nat
    requires s.l2Size > 0
  {
    var i, j := gc / s.l2Size, gc % s.l2Size;
    if i < |s.l1| && s.l1[i] in s.tables && s.l1[i] != 0 && j < |s.tables[s.l1[i]]| then s.tables[s.l1[i]][j] else 0
  }

  lemma LookupIsEntry(s: Image, gc: nat)
    requires s.l2Size > 0
    ensures s.Lookup(gc) == EntryOf(s, gc)
  {
    AreArithmetic(gc, s.l2Size);
  }

  /** Where and how sectors are stored, in so many words. */
  lemma StoredInFile<S(!new)>(codec: Codec<S>, m: Image, now: map<Pos, S>, g: nat, v: S)
    requires codec.cs > 0 && m.l2Size > 0
    ensures StoredAs(codec, m, now, g, v) <==>
      var h, p := EntryOf(m, g / codec.cs), Pos(EntryOf(m, g / codec.cs), g % codec.cs);
      h != 0 && (if codec.crypt then codec.enc(g, v) else v) == if p in now then now[p] else codec.blank
  {
    AreArithmetic(g, codec.cs);
    LookupIsEntry(m, g / codec.cs);
  }

  /** What a sector reads as, in so many words. */
  lemma ContentOfFile<S(!new)>(codec: Codec<S>, m: Image, now: map<Pos, S>, g: nat)
    requires codec.cs > 0 && m.l2Size > 0
    ensures var h, p := EntryOf(m, g / codec.cs), Pos(EntryOf(m, g / codec.cs), g % codec.cs);
      var raw := if p in now then now[p] else codec.blank;
      Content(codec, m, now, g) ==
        if h == 0 then codec.backing(g) else if codec.crypt then codec.dec(g, raw) else raw
  {
    AreArithmetic(g, codec.cs);
    LookupIsEntry(m, g / codec.cs);
  }

  const SECTOR_BYTES: nat := 512

  class Driver<S(!new)> {
    const codec: Codec<S>
    const clusterBytes: nat
    const tableBytes: nat
    const headEnd: nat
    const l2Size: nat
    const cache: Cache<Table>
    var length: nat
    var l1: Table
    var l1InFile: Table
    var tables: map<nat, Table>
    var data: map<Pos, S>

    ghost function I(): Image
      reads this
    {
      Image(clusterBytes, tableBytes, headEnd, length, l2Size, l1, tables)
    }

    /** Cached tables are those of the file. */
    ghost predicate CacheOk()
      reads this, cache, cache.offsets, cache.counts, cache.tables
    {
      cache.Valid() && cache.Coherent(tables) && forall s :: 0 <= s < SLOTS ==> cache.offsets[s] < length
    }

    ghost predicate Valid()
      reads this, cache, cache.offsets, cache.counts, cache.tables
    {
      && codec.Lawful() && I().Sound() && CacheOk() && l1InFile == l1
      && clusterBytes == Mul(codec.cs, SECTOR_BYTES)
      && forall p :: p in data ==> p.cluster < length
    }

    /** A new image: nothing mapped. */
    constructor (codec: Codec<S>, l2Size: nat, l1Size: nat, headEnd: nat)
      requires codec.Lawful() && l2Size > 0 && headEnd > 0
      ensures Valid() && |l1| == l1Size && this.codec == codec && this.l2Size == l2Size &&
        forall g: nat :: Content(codec, I(), data, g) == codec.backing(g)
      ensures fresh(cache) && fresh(cache.offsets) && fresh(cache.counts) && fresh(cache.tables)
    {
      this.codec, this.l2Size, this.headEnd, length := codec, l2Size, headEnd, headEnd;
      clusterBytes, tableBytes := Mul(codec.cs, SECTOR_BYTES), 8 * l2Size;
      l1, l1InFile, tables, data := Repeat(0, l1Size), Repeat(0, l1Size), map[], map[];
      cache := new Cache();
      new;
      MulLess(0, codec.cs, SECTOR_BYTES);
    }

    // ----- get_cluster_offset

    /** Find a table in the cache, or load it into the least used slot. */
    method Load(t: nat) returns (slot: nat)
      requires CacheOk() && t != 0 && t < length && t in tables
      modifies cache.offsets, cache.counts, cache.tables
      ensures CacheOk() && slot < SLOTS && cache.offsets[slot] == t && cache.tables[slot] == tables[t]
    {
      slot := cache.Seek(t);
      if slot == SLOTS {
        slot := cache.Victim();
        cache.Fill(slot, t, tables[t]);
        assert forall s :: 0 <= s < SLOTS ==>
          cache.offsets[s] == cache.offsets[..][s] && cache.tables[s] == cache.tables[..][s];
      }
    }

    /** A table of zeroes at the end of the file for level-1 entry i. */
    method AddTable(i: nat)
      requires Valid() && i < |l1| && l1[i] == 0
      modifies this`l1, this`l1InFile, this`tables, this`length
      ensures Valid() && I() == old(I()).WithTable(i)
    {
      ghost var s := I();
      NextFreeIsFree(s);
      TableKeepsSound(s, i);
      var at := Mul(RoundUp(length, clusterBytes), clusterBytes);
      l1 := l1[i := at];
      l1InFile := l1InFile[i := at];
      tables := tables[at := Repeat(0, l2Size)];
      length := at + tableBytes;
    }

    /** A cluster at the end of the file for entry j of a cached table. */
    method AddCluster(slot: nat, i: nat, j: nat) returns (h: nat)
      requires Valid() && i < |l1| && l1[i] != 0 && j < l2Size && slot < SLOTS && cache.offsets[slot] == l1[i]
      requires l1[i] in tables && |tables[l1[i]]| == l2Size
      modifies this`tables, this`length, cache.tables
      ensures Valid() && I() == old(I()).WithCluster(i, j) && h == old(I()).NextFree()
    {
      ghost var s := I();
      NextFreeIsFree(s);
      ClusterKeepsSound(s, i, j);
      h := Mul(RoundUp(length, clusterBytes), clusterBytes);
      var t: Table := cache.tables[slot][j := h];
      length := h + clusterBytes;
      cache.tables[slot] := t;
      tables := tables[l1[i] := t];
    }

    /** With encryption, zeroes for the sectors of a new cluster that will not be written. */
    method FillCluster(h: nat, gc: nat, nStart: nat, nEnd: nat)
      requires nStart < nEnd <= codec.cs
      requires h < length && forall p :: p in data ==> p.cluster < length && p.cluster != h
      modifies this`data
      ensures forall p :: p in data ==> p.cluster < length
      ensures forall p: Pos :: p.cluster != h ==> codec.Get(data, p) == codec.Get(old(data), p)
      ensures forall k :: 0 <= k < codec.cs && !(nStart <= k < nEnd) ==>
        codec.Get(data, Pos(h, k)) == codec.Seal(Mul(gc, codec.cs) + k, codec.blank)
    {
      if codec.crypt && nEnd - nStart < codec.cs {
        var k := 0;
        while k < codec.cs
          invariant k <= codec.cs && forall p :: p in data ==> p.cluster < length
          invariant forall p: Pos :: p.cluster != h ==> codec.Get(data, p) == codec.Get(old(data), p)
          invariant forall y :: 0 <= y < k && !(nStart <= y < nEnd) ==>
            codec.Get(data, Pos(h, y)) == codec.Seal(Mul(gc, codec.cs) + y, codec.blank)
        {
          if k < nStart || k >= nEnd {
            data := data[Pos(h, k) := codec.enc(Mul(gc, codec.cs) + k, codec.blank)];
          }
          k := k + 1;
        }
      }
    }

    /** get_cluster_offset with allocate 0: where guest cluster gc is, 0 if nowhere. */
    method FindCluster(gc: nat) returns (h: nat)
      requires Valid() && Div(gc, l2Size) < |l1|
      modifies cache.offsets, cache.counts, cache.tables
      ensures Valid() && h == I().Lookup(gc)
    {
      var i, j := Div(gc, l2Size), Mod(gc, l2Size);
      assert I().TableOk(i);
      if l1[i] == 0 {
        return 0;
      }
      var slot := Load(l1[i]);
      h := cache.tables[slot][j];
    }

    /** The first part of get_cluster_offset with allocate 1: the table for
        level-1 entry i, added if there is none. */
    method EnsureTable(i: nat) returns (slot: nat)
      requires Valid() && i < |l1|
      modifies this`l1, this`l1InFile, this`tables, this`length, cache.offsets, cache.counts, cache.tables
      ensures Valid() && |l1| == old(|l1|) && forall x: nat :: I().Lookup(x) == old(I()).Lookup(x)
      ensures length >= old(length) && slot < SLOTS && cache.offsets[slot] == l1[i] != 0
      ensures l1[i] in tables && |tables[l1[i]]| == l2Size && cache.tables[slot] == tables[l1[i]]
    {
      if l1[i] == 0 {
        NextFreeIsFree(I());
        TableWalks(I(), i);
        AddTable(i);
      }
      SameLookups(old(I()), I());
      assert I().TableOk(i);
      slot := Load(l1[i]);
    }

    /** The second part: a new cluster for guest cluster gc. */
    method MapCluster(slot: nat, gc: nat, nStart: nat, nEnd: nat) returns (h: nat)
      requires Valid() && Div(gc, l2Size) < |l1| && I().Lookup(gc) == 0 && nStart < nEnd <= codec.cs
      requires var i := Div(gc, l2Size);
        slot < SLOTS && cache.offsets[slot] == l1[i] != 0 && l1[i] in tables && |tables[l1[i]]| == l2Size
      modifies this`tables, this`length, this`data, cache.tables
      ensures Valid() && h == I().Lookup(gc)
      ensures Prepared(codec, old(I()), old(data), I(), data, gc, nStart, nEnd)
    {
      var i, j := Div(gc, l2Size), Mod(gc, l2Size);
      ghost var s := I();
      NextFreeIsFree(s);
      ClusterWalks(s, i, j);
      h := AddCluster(slot, i, j);
      OneLookup(s, I(), gc);
      FillCluster(h, gc, nStart, nEnd);
    }

    /** get_cluster_offset with allocate 1, for sectors nStart to nEnd of the cluster. */
    method AllocCluster(gc: nat, nStart: nat, nEnd: nat) returns (h: nat)
      requires Valid() && Div(gc, l2Size) < |l1| && nStart < nEnd <= codec.cs
      modifies this`l1, this`l1InFile, this`tables, this`length, this`data, cache.offsets, cache.counts, cache.tables
      ensures Valid() && |l1| == old(|l1|) && h == I().Lookup(gc)
      ensures Prepared(codec, old(I()), old(data), I(), data, gc, nStart, nEnd)
    {
      var slot := EnsureTable(Div(gc, l2Size));
      h := cache.tables[slot][Mod(gc, l2Size)];
      if h == 0 {
        h := MapCluster(slot, gc, nStart, nEnd);
      }
    }

    // ----- reading and writing

    /** Write sectors of one cluster, encrypted if need be. */
    method PutSectors(h: nat, nStart: nat, sector: nat, vals: seq<S>)
      requires h < length && forall p :: p in data ==> p.cluster < length
      modifies this`data
      ensures forall p :: p in data ==> p.cluster < length
      ensures ClusterPut(codec, old(data), data, h, nStart, sector, vals)
    {
      var k := 0;
      while k < |vals|
        invariant k <= |vals| && forall p :: p in data ==> p.cluster < length
        invariant ClusterPut(codec, old(data), data, h, nStart, sector, vals[..k])
      {
        data := data[Pos(h, nStart + k) := codec.Seal(sector + k, vals[k])];
        k := k + 1;
      }
      assert vals[..k] == vals;
    }

    /** One round of qcow_write. */
    method WriteStep(sector: nat, vals: seq<S>) returns (n: nat)
      requires Valid() && |vals| > 0 && Div(Div(sector, codec.cs), l2Size) < |l1|
      modifies this`l1, this`l1InFile, this`tables, this`length, this`data, cache.offsets, cache.counts, cache.tables
      ensures Valid() && |l1| == old(|l1|) && 0 < n <= |vals|
      ensures Wrote(codec, old(I()), old(data), I(), data, sector, vals[..n])
    {
      var gc, index := Div(sector, codec.cs), Mod(sector, codec.cs);
      n := codec.cs - index;
      if n > |vals| {
        n := |vals|;
      }
      var h := AllocCluster(gc, index, index + n);
      ghost var mid := data;
      assert I().ClusterOk(Div(gc, l2Size), Mod(gc, l2Size));
      PutSectors(h, index, sector, vals[..n]);
      ClusterWritten(codec, old(I()), old(data), I(), mid, data, sector, vals[..n]);
      ClusterStored(codec, old(I()), old(data), I(), mid, data, sector, vals[..n]);
    }

    /** The level-1 table covers the n sectors from sector. */
    ghost predicate Covers(sector: nat, n: nat)
      reads this
    {
      forall g :: sector <= g < sector + n ==> Div(Div(g, codec.cs), l2Size) < |l1|
    }

    /** qcow_write. */
    method Write(sector: nat, buf: seq<S>)
      requires Valid() && Covers(sector, |buf|)
      modifies this`l1, this`l1InFile, this`tables, this`length, this`data, cache.offsets, cache.counts, cache.tables
      ensures Valid() && |l1| == old(|l1|)
      ensures After(codec, old(I()), old(data), I(), data, sector, buf)
      ensures AllStored(codec, old(I()), old(data), I(), data, sector, buf)
    {
      WroteNothing(codec, I(), data, sector);
      var done := 0;
      while done < |buf|
        invariant done <= |buf| && Valid() && |l1| == old(|l1|)
        invariant Wrote(codec, old(I()), old(data), I(), data, sector, buf[..done])
      {
        ghost var s, was := I(), data;
        var n := WriteStep(sector + done, buf[done..]);
        assert buf[..done] + buf[done..][..n] == buf[..done + n];
        WroteChain(codec, old(I()), old(data), s, was, I(), data, sector, buf[..done], buf[done..][..n]);
        done := done + n;
      }
      assert buf[..done] == buf;
    }

    /** The read steps of qcow_aio_read_cb, run through; EIO if a cluster is not
        where a sector can start. */
    method Read(sector: nat, count: nat) returns (ok: bool, buf: seq<S>)
      requires Valid() && Covers(sector, count)
      modifies cache.offsets, cache.counts, cache.tables
      ensures Valid() && ok && |buf| == count
      ensures forall g :: sector <= g < sector + count ==> buf[g - sector] == Content(codec, I(), data, g)
      ensures AllReadFrom(codec, I(), data, sector, buf)
    {
      ok, buf := true, [];
      while |buf| < count
        invariant |buf| <= count && Valid() && ok
        invariant forall g :: sector <= g < sector + |buf| ==> buf[g - sector] == Content(codec, I(), data, g)
      {
        var at := sector + |buf|;
        var gc, index := Div(at, codec.cs), Mod(at, codec.cs);
        var n := codec.cs - index;
        if n > count - |buf| {
          n := count - |buf|;
        }
        var h := FindCluster(gc);
        ClusterIsAligned(gc);
        if h % SECTOR_BYTES != 0 {
          return false, buf;
        }
        var part := ReadCluster(h, at, n);
        buf := buf + part;
      }
      ContentReadFrom(codec, I(), data, sector, buf);
    }

    lemma ClusterIsAligned(gc: nat)
      requires Valid()
      ensures I().Lookup(gc) % SECTOR_BYTES == 0
    {
      var h := I().Lookup(gc);
      assert I().ClusterOk(Div(gc, l2Size), Mod(gc, l2Size));
      if h != 0 {
        Split(h, clusterBytes);
        MulOfMul(Div(h, clusterBytes), codec.cs);
      }
    }

    /** Some sectors of one cluster. */
    method ReadCluster(h: nat, at: nat, n: nat) returns (part: seq<S>)
      requires Valid() && h == I().Lookup(Div(at, codec.cs)) && Mod(at, codec.cs) + n <= codec.cs
      ensures |part| == n && forall g :: at <= g < at + n ==> part[g - at] == Content(codec, I(), data, g)
    {
      var c, d := codec, data;
      if h == 0 {
        part := seq(n, k requires 0 <= k => c.backing(at + k));
      } else {
        part := seq(n, k requires 0 <= k => c.Open(at + k, c.Get(d, Pos(h, Mod(at + k, c.cs)))));
      }
      forall g | at <= g < at + n
        ensures part[g - at] == Content(codec, I(), data, g)
      {
        StepInside(at, codec.cs, g - at);
      }
    }
  }

  lemma SameLookups(s: Image, m: Image)
    requires m.l2Size == s.l2Size && forall y: nat, z: nat :: m.Walk(y, z) == s.Walk(y, z)
    ensures forall x: nat :: m.Lookup(x) == s.Lookup(x)
  {
  }

  /** If one walk changed, one lookup did. */
  lemma OneLookup(s: Image, m: Image, gc: nat)
    requires m.l2Size == s.l2Size > 0
    requires forall y: nat, z: nat :: !(y == Div(gc, s.l2Size) && z == Mod(gc, s.l2Size)) ==>
      m.Walk(y, z) == s.Walk(y, z)
    ensures forall x: nat :: x != gc ==> m.Lookup(x) == s.Lookup(x)
  {
    forall x: nat | x != gc
      ensures m.Lookup(x) == s.Lookup(x)
    {
      DivModDiffer(x, gc, s.l2Size);
    }
  }

  /** A multiple of a multiple of the sector size is one. */
  lemma {:induction false} MulOfMul(q: nat, cs: nat)
    ensures Mul(q, Mul(cs, SECTOR_BYTES)) % SECTOR_BYTES == 0
  {
    SectorMultiple(cs);
    if q > 0 {
      MulOfMul(q - 1, cs);
    }
  }

  lemma {:induction false} SectorMultiple(cs: nat)
    ensures Mul(cs, SECTOR_BYTES) % SECTOR_BYTES == 0
  {
    if cs > 0 {
      SectorMultiple(cs - 1);
    }
  }
}
