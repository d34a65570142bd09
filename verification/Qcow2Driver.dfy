/**
 The qcow2 driver: reads, copy-on-write writes, and snapshots, over the
 level-1 table, the level-2 cache, the reference counts and the image file.
 */
module Qcow2Driver {
  import opened Collections
  import opened Division
  import opened L2Cache
  import opened Qcow2Tables
  import opened Qcow2Layout
  import opened Qcow2Snapshots
  import opened Qcow2Goto
  import opened Qcow2Ids
  import opened Qcow2Cow
  import opened Qcow2Link
  import opened Qcow2Runs
  import opened Qcow2Content
  import opened Sectors
  import opened Qcow2Overlay
  import opened Qcow2Stored
  import opened Qcow2Refcounts
  import opened Qcow2SnapshotReads

  const ENOENT: int := 2
  const MAX_CRYPT_CLUSTERS: nat := 32

  /** A write request. */
  datatype Request<S> = Request(sector: nat, buf: seq<S>)

  /** What sector g holds after the requests, if it held s before. */
  ghost function LastWritten<S>(requests: seq<Request<S>>, g: nat, s: S): S {
    if requests == [] then s
    else
      var r := requests[|requests| - 1];
      if r.sector <= g < r.sector + |r.buf| then r.buf[g - r.sector]
      else LastWritten(requests[..|requests| - 1], g, s)
  }

  /** Each sector of the active image reads as the last request for it said. */
  ghost predicate Latest<S(!new)>(codec: Codec<S>, l: Layout, data: map<Pos, S>, m: Layout, now: map<Pos, S>,
        requests: seq<Request<S>>)
    requires codec.cs > 0 && m.l2Size == l.l2Size > 0
  {
    forall g: nat :: ReadAt(codec, m.l1, m.tables, m.l2Size, now, g) ==
      LastWritten(requests, g, ReadAt(codec, l.l1, l.tables, l.l2Size, data, g))
  }

  lemma LatestNext<S(!new)>(codec: Codec<S>, l: Layout, data: map<Pos, S>, mid: Layout, was: map<Pos, S>, m: Layout,
        now: map<Pos, S>, requests: seq<Request<S>>, n: nat)
    requires codec.cs > 0 && m.l2Size == mid.l2Size == l.l2Size > 0 && n < |requests|
    requires Latest(codec, l, data, mid, was, requests[..n])
    requires Overlaid(codec, mid, was, m, now, requests[n].sector, requests[n].buf)
    ensures Latest(codec, l, data, m, now, requests[..n + 1])
  {
    assert requests[..n + 1][..n] == requests[..n];
  }

  /** Guest sector g as read from a contiguous run that starts at guest cluster gc. */
  function InRun<S(!new)>(codec: Codec<S>, data: map<Pos, S>, h: nat, gc: nat, g: nat): S
    requires codec.cs > 0
  {
    codec.Open(g, codec.Get(data, codec.Place(h, gc, g)))
  }

  lemma RunReads<S(!new)>(codec: Codec<S>, l1: Table, tables: map<nat, Table>, l2Size: nat, data: map<Pos, S>,
                          h: nat, at: nat, n: nat, g: nat)
    requires codec.cs > 0 && l2Size > 0 && h != 0
    requires SectorRun(l1, tables, l2Size, codec.cs, h, at, n) && at <= g < at + n
    ensures InRun(codec, data, h, Div(at, codec.cs), g) == ReadAt(codec, l1, tables, l2Size, data, g)
  {
    DivMonotone(at, g, codec.cs);
    assert Lookup(l1, tables, l2Size, Div(g, codec.cs)) == h + (Div(g, codec.cs) - Div(at, codec.cs));
  }

  /** How many sectors, from the start of the first cluster, get_cluster_offset
      looks for: the num wanted, within the clusters left in the level-2 table. */
  method SectorsWanted(cs: nat, sector: nat, num: nat, clusters: nat) returns (needed: nat)
    requires cs > 0 && num > 0 && clusters > 0
    ensures Mod(sector, cs) < needed <= Mul(clusters, cs) && needed <= num + Mod(sector, cs)
  {
    MulLess(0, clusters, cs);
    needed := num + Mod(sector, cs);
    var available := Mul(clusters, cs);
    if needed > available {
      needed := available;
    }
  }

  /** How many sectors, from sector on, the clusters found give. */
  method SectorsFound(cs: nat, sector: nat, needed: nat, clusters: nat) returns (n: nat)
    requires cs > 0 && Mod(sector, cs) < needed && clusters > 0
    ensures 0 < n && Mod(sector, cs) + n <= Mul(clusters, cs) && Mod(sector, cs) + n <= needed
    ensures Mod(sector, cs) + n == Mul(clusters, cs) || Mod(sector, cs) + n == needed
  {
    MulLess(0, clusters, cs);
    var available := Mul(clusters, cs);
    if available > needed {
      available := needed;
    }
    n := available - Mod(sector, cs);
  }

  class Driver<S(!new)> {
    const codec: Codec<S>
    const l2Size: nat
    ghost const meta: set<nat>   // header, refcount table and refcount blocks
    const store: Refcounts
    const cache: Cache<Table>
    var l1At: nat
    var l1: Table
    var disk: map<nat, Table>
    var snaps: seq<Snapshot>
    var snapAt: nat
    var snapN: nat
    var data: map<Pos, S>
    var stale: Table             // entries of the file's level-1 table past the end of l1
    ghost var fixed: set<nat>    // those, and lost clusters: counted, and referred to by nothing

    /** Open a sound image. */
    constructor (codec: Codec<S>, l: Layout, rc: map<nat, nat>, data: map<Pos, S>)
      requires codec.Lawful() && l.Sound(rc)
      ensures Valid() && L() == l && store.rc == rc && this.data == data && this.codec == codec
      ensures stale == [] && meta == l.fixed
      ensures fresh(store) && fresh(cache) && fresh(cache.offsets) && fresh(cache.counts) && fresh(cache.tables)
    {
      this.codec, l2Size, meta, fixed := codec, l.l2Size, l.fixed, l.fixed;
      l1At, l1, disk, snaps, snapAt, snapN := l.l1At, l.l1, l.disk, l.snaps, l.snapAt, l.snapN;
      this.data, stale := data, [];
      store := new Refcounts(rc, l.tables);
      cache := new Cache();
    }

    ghost function L(): Layout
      reads this, store
    {
      Layout(l2Size, fixed, l1At, l1, disk, snaps, snapAt, snapN, store.tables)
    }

    /** Cached tables are those of the file. */
    ghost predicate CacheTrue()
      reads store, cache, cache.offsets, cache.counts, cache.tables
    {
      cache.Valid() && cache.Coherent(store.tables)
    }

    /** They are also in use: their clusters are not up for allocation. */
    ghost predicate CacheOk()
      reads this, store, cache, cache.offsets, cache.counts, cache.tables
    {
      l2Size > 0 && CacheTrue() && AllLive(L(), cache.offsets[..])
    }

    /** How the file's level-1 table and the lost clusters stand to the image in memory. */
    ghost predicate FileOk()
      reads this
    {
      0 in meta && meta <= fixed && l2Size > 0 && TailFits(fixed, l1At, |l1|, stale, l2Size)
    }

    ghost predicate Valid()
      reads this, store, cache, cache.offsets, cache.counts, cache.tables
    {
      codec.Lawful() && L().Sound(store.rc) && CacheOk() && FileOk()
    }

    /** Enough to read: also holds while an allocated run is not linked yet. */
    ghost predicate Readable()
      reads this, store, cache, cache.offsets, cache.counts, cache.tables
    {
      codec.Lawful() && L().TreesOk() && CacheOk()
    }

    /** The image that the file's header describes is sound. */
    ghost predicate FileSound()
      reads this, store
      requires l2Size > 0
    {
      InFile(L(), stale).Sound(store.rc)
    }

    /** Guest sector g of the active image. */
    ghost function Content(g: nat): S
      reads this, store
      requires codec.cs > 0 && l2Size > 0
    {
      ReadAt(codec, l1, store.tables, l2Size, data, g)
    }

    // ----- the cache

    /** l2_load. */
    method L2Load(c: nat) returns (slot: nat)
      requires CacheOk() && c != 0 && c in store.tables && L().Refs(Level2, c) >= 1
      modifies cache.offsets, cache.counts, cache.tables
      ensures CacheOk() && slot < SLOTS && cache.offsets[slot] == c && cache.tables[slot] == store.tables[c]
    {
      slot := cache.Seek(c);
      if slot < SLOTS {
        return;
      }
      slot := cache.Victim();
      cache.Fill(slot, c, store.tables[c]);
      assert forall s :: 0 <= s < SLOTS ==>
        cache.offsets[s] == cache.offsets[..][s] && cache.tables[s] == cache.tables[..][s];
    }

    // ----- reading

    /** get_cluster_offset: the host cluster of a sector, and how many of the
        num sectors from it are found without another lookup. */
    method GetClusterOffset(sector: nat, num: nat) returns (h: nat, n: nat)
      requires Readable() && num > 0
      modifies cache.offsets, cache.counts, cache.tables
      ensures Readable() && 0 < n <= num && SectorRun(l1, store.tables, l2Size, codec.cs, h, sector, n)
    {
      var i, j := Div(Div(sector, codec.cs), l2Size), Mod(Div(sector, codec.cs), l2Size);
      var clusters := l2Size - j;
      var needed := SectorsWanted(codec.cs, sector, num, clusters);
      h := 0;
      if i < |l1| && l1[i].cluster != 0 {
        h, clusters := TableClusters(i, j, RoundUp(needed, codec.cs), needed);
      }
      n := SectorsFound(codec.cs, sector, needed, clusters);
      TableRunIsSectorRun(l1, store.tables, l2Size, codec.cs, h, sector, clusters, n);
    }

    /** The part of get_cluster_offset that looks into the level-2 table. */
    method TableClusters(i: nat, j: nat, nb: nat, ghost needed: nat) returns (h: nat, clusters: nat)
      requires Readable() && i < |l1| && l1[i].cluster != 0 && j < l2Size
      requires 0 < needed <= Mul(l2Size - j, codec.cs) && nb == RoundUp(needed, codec.cs)
      modifies cache.offsets, cache.counts, cache.tables
      ensures Readable() && 0 < clusters <= l2Size - j && TableRun(l1, store.tables, i, j, h, clusters)
    {
      RoundUpLeast(needed, codec.cs, l2Size - j);
      L().EntryCounts(l1, i);
      var slot := L2Load(l1[i].cluster);
      var t := cache.tables[slot];
      h := t[j].cluster;
      if h == 0 {
        assert Clean(Reached(l1[i], store.tables));
        clusters := CountFree(nb, t, j);
      } else {
        assert Follows(t, j, 0, true);
        clusters := CountContiguous(nb, t, j, 0, true);
        FollowsIsTableRun(l1, store.tables, i, j, clusters, true);
      }
    }

    /** qcow_read. */
    method Read(sector: nat, count: nat) returns (buf: seq<S>)
      requires Readable()
      modifies cache.offsets, cache.counts, cache.tables
      ensures Readable() && |buf| == count && ReadsAs(codec, l1, store.tables, l2Size, data, sector, buf)
      ensures AllReadFrom(codec, l1, store.tables, l2Size, data, sector, buf)
    {
      buf := [];
      while |buf| < count
        invariant |buf| <= count && Readable() && ReadsAs(codec, l1, store.tables, l2Size, data, sector, buf)
      {
        var at := sector + |buf|;
        var h, n := GetClusterOffset(at, count - |buf|);
        var part := ReadRun(h, at, n);
        ReadsAppend(codec, l1, store.tables, l2Size, data, sector, buf, part);
        buf := buf + part;
      }
      ReadsReadFrom(codec, l1, store.tables, l2Size, data, sector, buf);
    }

    /** Fetch a run: from the backing image, or from the file and decrypted. */
    method ReadRun(h: nat, at: nat, n: nat) returns (part: seq<S>)
      requires Readable() && SectorRun(l1, store.tables, l2Size, codec.cs, h, at, n)
      ensures |part| == n && ReadsAs(codec, l1, store.tables, l2Size, data, at, part)
    {
      var c, d := codec, data;
      if h == 0 {
        part := seq(n, k requires 0 <= k => c.backing(at + k));
      } else {
        var gc := Div(at, c.cs);
        part := seq(n, k requires 0 <= k => InRun(c, d, h, gc, at + k));
        forall g | at <= g < at + n
          ensures part[g - at] == ReadAt(codec, l1, store.tables, l2Size, data, g)
        {
          RunReads(c, l1, store.tables, l2Size, d, h, at, n, g);
        }
      }
    }

    // ----- writing

    /** Give back the shared table, if any, and allocate a cluster for its copy. */
    method TakeTable(i: nat) returns (x: nat)
      requires Valid() && i < |l1| && !l1[i].copied
      modifies store`rc, store`freeIndex
      ensures Rc(old(store.rc), x) == 0 && CopyCounted(L(), old(store.rc), store.rc, i, x)
    {
      var shared := l1[i].cluster;
      if shared != 0 {
        SharedTable(L(), store.rc, i);
        store.FreeRange(shared, 1);
      }
      x := store.Alloc(1);
      assert Within(x, 1, x);
      FreshTable(L(), old(store.rc), store.rc, i, x);
    }

    /** l2_allocate: fill the new cluster with a copy of the old table, or with
        zeros, and cache it. */
    method L2Allocate(i: nat, x: nat) returns (slot: nat)
      requires CacheTrue() && i < |l1| && x != 0 && !cache.Holds(x)
      requires l1[i].cluster == 0 || l1[i].cluster in store.tables
      modifies this`l1, this`disk, store`tables, cache.offsets, cache.counts, cache.tables
      ensures CacheTrue() && L() == WithCopy(old(L()), i, x)
      ensures slot < SLOTS && cache.offsets[slot] == x && cache.tables[slot] == store.tables[x]
      ensures cache.offsets[..] == old(cache.offsets[..])[slot := x]
    {
      var shared := l1[i].cluster;
      l1 := l1[i := Entry(x, true)];
      disk := disk[l1At := l1];
      slot := cache.Victim();
      var table := if shared == 0 then Zeros(l2Size) else store.tables[shared];
      store.tables := store.tables[x := table];
      cache.Fill(slot, x, table);
      assert forall s :: 0 <= s < SLOTS ==>
        cache.offsets[s] == cache.offsets[..][s] && cache.tables[s] == cache.tables[..][s];
    }

    /** The copying branch of get_cluster_table. */
    method PrivateCopy(i: nat) returns (slot: nat)
      requires Valid() && i < |l1| && !l1[i].copied
      modifies this`l1, this`disk, store, cache.offsets, cache.counts, cache.tables
      ensures Valid() && SameImage(old(L()), L()) && Private(L(), i)
      ensures slot < SLOTS && cache.offsets[slot] == l1[i].cluster && cache.tables[slot] == store.tables[l1[i].cluster]
    {
      ghost var l, rc := L(), store.rc;
      var x := TakeTable(i);
      NotLive(l, rc, cache.offsets[..], x);
      ghost var was := cache.offsets[..];
      slot := L2Allocate(i, x);
      CopyIsSound(l, rc, store.rc, i, x);
      CopySnaps(l, rc, i, x);
      CopyTree(l, rc, i, x);
      CopyAllLive(l, rc, i, x, was, cache.offsets[..]);
    }

    /** grow_l1_table, for a table that has an entry. */
    method GrowL1Table(min: nat) returns (ghost mid: map<nat, nat>)
      requires l2Size > 0 && |l1| > 0
      requires forall c: nat :: Within(l1At, L1Clusters(|l1|, l2Size), c) ==> Rc(store.rc, c) == 1
      modifies this`l1At, this`l1, this`disk, this`stale, store`rc, store`freeIndex
      ensures |l1| >= min
      ensures min <= |old(l1)| ==> L() == old(L()) && store.rc == old(store.rc) && stale == old(stale)
      ensures min > |old(l1)| ==> |l1| > |old(l1)| && stale == []
      ensures min > |old(l1)| ==> L() == Grown(old(L()), l1At, |l1| - |old(l1)|)
      ensures min > |old(l1)| ==> Moved(old(L()), old(store.rc), mid, store.rc, l1At, |l1| - |old(l1)|)
    {
      mid := store.rc;
      if min > |l1| {
        var size := NewSize(|l1|, min);
        var longer := l1 + Zeros(size - |l1|);
        var at := store.Alloc(L1Clusters(size, l2Size));
        mid := store.rc;
        store.FreeRange(l1At, L1Clusters(|l1|, l2Size));
        disk := (disk - {l1At})[at := longer];
        l1At, l1, stale := at, longer, [];
      }
    }

    /** The growing branch of get_cluster_table. */
    method Extend(min: nat)
      requires Valid() && min > |l1|
      modifies this`l1At, this`l1, this`disk, this`stale, store`rc, store`freeIndex
      ensures Valid() && SameImage(old(L()), L()) && |l1| >= min && stale == []
    {
      ghost var l, rc := L(), store.rc;
      ActiveTableCounted(l, rc);
      ghost var mid := GrowL1Table(min);
      ghost var n := |l1| - |l.l1|;
      GrownIsSound(l, rc, mid, store.rc, l1At, n);
      GrownWalks(l, rc, l1At, n);
      GrownAllLive(l, rc, l1At, n, cache.offsets[..]);
    }

    /** get_cluster_table: the level-2 table under level-1 entry i, made private. */
    method GetClusterTable(i: nat) returns (slot: nat)
      requires Readable() && (Valid() || Private(L(), i))
      modifies this`l1At, this`l1, this`disk, this`stale, store, cache.offsets, cache.counts, cache.tables
      ensures old(Valid()) ==> Valid()
      ensures old(!Private(L(), i)) ==> SameImage(old(L()), L())
      ensures old(Private(L(), i)) ==> L() == old(L()) && store.rc == old(store.rc) && stale == old(stale)
      ensures Private(L(), i) && CacheOk()
      ensures slot < SLOTS && cache.offsets[slot] == l1[i].cluster && l1[i].cluster in store.tables
      ensures cache.tables[slot] == store.tables[l1[i].cluster]
    {
      if i >= |l1| {
        Extend(i + 1);
      }
      ghost var mid := L();
      if l1[i].copied {
        L().EntryCounts(l1, i);
        slot := L2Load(l1[i].cluster);
      } else {
        slot := PrivateCopy(i);
        if i >= |old(l1)| {
          SameImageChain(old(L()), mid, L());
        }
      }
    }

    /** alloc_cluster_offset: where to write the sectors from sector on, up to
        nEnd sectors from the start of its cluster.  Either clusters of the
        active image's own, or new ones still to be linked. */
    method AllocClusterOffset(sector: nat, nEnd: nat) returns (h: nat, clusters: nat, n: nat, isNew: bool,
          ghost rc: map<nat, nat>)
      requires Valid() && Mod(sector, codec.cs) < nEnd
      modifies this`l1At, this`l1, this`disk, this`stale, store, cache.offsets, cache.counts, cache.tables
      ensures SameImage(old(L()), L()) && CacheOk() && FileOk() && L().Sound(rc)
      ensures 0 < n && Room(codec.cs, sector, nEnd, clusters, n) && Mod(sector, codec.cs) + n <= nEnd
      ensures Target(rc, sector, h, clusters, isNew)
    {
      var i, j := Div(Div(sector, codec.cs), l2Size), Mod(Div(sector, codec.cs), l2Size);
      var slot := GetClusterTable(i);
      rc := store.rc;
      var nb := RoundUp(nEnd, codec.cs);
      if nb > l2Size - j {
        nb := l2Size - j;
      }
      h, clusters, isNew := ChooseRun(i, j, nb, cache.tables[slot]);
      n := SectorsFound(codec.cs, sector, nEnd, clusters);
    }

    /** The choice alloc_cluster_offset makes from the level-2 table: keep
        COPIED clusters, else allocate for as long as there is none. */
    method ChooseRun(i: nat, j: nat, nb: nat, t: Table) returns (h: nat, clusters: nat, isNew: bool)
      requires Valid() && Private(L(), i) && t == Reached(l1[i], store.tables) && nb > 0 && j + nb <= l2Size
      modifies store`rc, store`freeIndex
      ensures CacheOk() && 0 < clusters <= nb
      ensures !isNew ==> store.rc == old(store.rc) && OwnRun(L(), i, j, h, clusters)
      ensures isNew ==> Pending(old(store.rc), i, j, h, clusters)
    {
      PrivateTable(L(), store.rc, i);
      assert Clean(Reached(l1[i], store.tables));
      isNew := !t[j].copied;
      if isNew {
        clusters := SelectRun(nb, t, j);
        h := AllocRun(i, j, clusters);
      } else {
        clusters := CountContiguous(nb, t, j, 0, false);
        h := t[j].cluster;
        OwnRunFound(L(), i, j, nb, clusters);
      }
    }

    /** The run to write sector's cluster to: the active image's own, or one to be linked. */
    ghost predicate Target(rc: map<nat, nat>, sector: nat, h: nat, clusters: nat, isNew: bool)
      requires codec.cs > 0 && l2Size > 0
      reads this, store
    {
      var gc := Div(sector, codec.cs);
      if isNew then Pending(rc, Div(gc, l2Size), Mod(gc, l2Size), h, clusters)
      else rc == store.rc && OwnRun(L(), Div(gc, l2Size), Mod(gc, l2Size), h, clusters)
    }

    /** An allocated run waits to be linked; rc are the counts without it. */
    ghost predicate Pending(rc: map<nat, nat>, i: nat, j: nat, h: nat, clusters: nat)
      reads this, store
    {
      CanLink(L(), rc, i, j, h, clusters) && Added(rc, store.rc, h, clusters)
    }

    method AllocRun(i: nat, j: nat, clusters: nat) returns (h: nat)
      requires Valid() && Private(L(), i) && j + clusters <= l2Size &&
        NoneCopied(Reached(l1[i], store.tables), j, clusters)
      modifies store`rc, store`freeIndex
      ensures CacheOk() && Pending(old(store.rc), i, j, h, clusters)
    {
      h := store.Alloc(clusters);
    }

    /** Write sectors into a run of the file. */
    method PutRun(h: nat, gc: nat, from: nat, vals: seq<S>)
      requires codec.cs > 0 && gc <= Div(from, codec.cs)
      modifies this`data
      ensures Put(codec, old(data), data, h, gc, from, vals)
    {
      var k := 0;
      while k < |vals|
        invariant k <= |vals| && Put(codec, old(data), data, h, gc, from, vals[..k])
      {
        PutOneMore(codec, old(data), data, h, gc, from, vals[..k], vals[k]);
        assert vals[..k] + [vals[k]] == vals[..k + 1];
        data := data[codec.Place(h, gc, from + k) := vals[k]];
        k := k + 1;
      }
      assert vals[..k] == vals;
    }

    /** copy_sectors: read sectors of the active image and write them into the run. */
    method CopySectors(h: nat, gc: nat, from: nat, count: nat) returns (buf: seq<S>)
      requires Readable() && gc <= Div(from, codec.cs)
      modifies this`data, cache.offsets, cache.counts, cache.tables
      ensures CacheOk() && |buf| == count
      ensures ReadsAs(codec, l1, store.tables, l2Size, old(data), from, buf)
      ensures Put(codec, old(data), data, h, gc, from, Sealed(codec, from, buf))
    {
      buf := Read(from, count);
      PutRun(h, gc, from, Sealed(codec, from, buf));
    }

    /** An allocated run is being filled. */
    ghost predicate Filling(fill: Fill<S>)
      reads this, store, cache, cache.offsets, cache.counts, cache.tables
    {
      && CacheOk() && FileOk() && fill.codec == codec && fill.l == L() && fill.Ok()
      && Added(fill.rc, store.rc, fill.h, fill.clusters)
    }

    /** Copy the sectors on one side of those already in the run. */
    method CopyPart(ghost fill: Fill<S>, h: nat, gc: nat, ghost lo: nat, ghost hi: nat, from: nat, count: nat)
      requires Filling(fill) && fill.Holds(data, lo, hi) && fill.h == h && fill.gc == gc
      requires gc <= Div(from, codec.cs) && from + count <= Mul(gc + fill.clusters, codec.cs)
      requires from + count == lo || from == hi
      modifies this`data, cache.offsets, cache.counts, cache.tables
      ensures Filling(fill) && fill.Holds(data, if from == hi then lo else from, if from == hi then hi + count else hi)
    {
      ghost var before := data;
      var buf := CopySectors(h, gc, from, count);
      fill.More(before, data, lo, hi, from, buf);
    }

    /** The first half of alloc_cluster_link_l2: copy what the write leaves of
        its first and last cluster. */
    method FillRun(ghost fill: Fill<S>, h: nat, sector: nat, n: nat, ghost nEnd: nat)
      requires Filling(fill) && fill.h == h && fill.sector == sector && n == |fill.vals| > 0
      requires fill.Holds(data, sector, sector + n)
      requires Room(codec.cs, sector, nEnd, fill.clusters, n)
      modifies this`data, cache.offsets, cache.counts, cache.tables
      ensures Filling(fill) && fill.Holds(data, Mul(fill.gc, codec.cs), Mul(fill.gc + fill.clusters, codec.cs))
    {
      RunBounds(codec.cs, sector, n, fill.clusters, nEnd);
      FillHead(fill, h, sector, n);
      FillTail(fill, h, sector, n);
    }

    method FillHead(ghost fill: Fill<S>, h: nat, sector: nat, n: nat)
      requires Filling(fill) && fill.h == h && fill.sector == sector && n == |fill.vals|
      requires fill.Holds(data, sector, sector + n)
      modifies this`data, cache.offsets, cache.counts, cache.tables
      ensures Filling(fill) && fill.Holds(data, Mul(fill.gc, codec.cs), sector + n)
    {
      var cs, gc := codec.cs, Div(sector, codec.cs);
      Split(sector, cs);
      FirstOf(gc, cs);
      if Mod(sector, cs) != 0 {
        CopyPart(fill, h, gc, sector, sector + n, Mul(gc, cs), Mod(sector, cs));
      }
    }

    method FillTail(ghost fill: Fill<S>, h: nat, sector: nat, n: nat)
      requires Filling(fill) && fill.h == h && fill.sector == sector && n == |fill.vals|
      requires fill.Holds(data, Mul(fill.gc, codec.cs), sector + n)
      requires sector + n + Rest(codec.cs, Mod(sector, codec.cs) + n) == Mul(fill.gc + fill.clusters, codec.cs)
      modifies this`data, cache.offsets, cache.counts, cache.tables
      ensures Filling(fill) && fill.Holds(data, Mul(fill.gc, codec.cs), Mul(fill.gc + fill.clusters, codec.cs))
    {
      var cs, gc := codec.cs, Div(sector, codec.cs);
      var avail := Mod(sector, cs) + n;
      if Mod(avail, cs) != 0 {
        DivMonotone(sector, sector + n, cs);
        CopyPart(fill, h, gc, Mul(gc, cs), sector + n, sector + n, cs - Mod(avail, cs));
      }
    }

    /** Write a level-2 table back, to the cache and to the file. */
    method StoreTable(slot: nat, x: nat, t: Table)
      requires CacheTrue() && slot < SLOTS && x != 0 && cache.offsets[slot] == x
      modifies store`tables, cache.tables
      ensures CacheTrue() && store.tables == old(store.tables)[x := t]
    {
      cache.tables[slot] := t;
      store.tables := store.tables[x := t];
    }

    /** Put the run into the level-2 table; the mapped entries it replaces. */
    method LinkTable(ghost fill: Fill<S>, h: nat, gc: nat, clusters: nat) returns (olds: Table)
      requires Filling(fill) && fill.h == h && fill.gc == gc && fill.clusters == clusters
      modifies this`l1At, this`l1, this`disk, this`stale, store, cache.offsets, cache.counts, cache.tables
      ensures CacheOk() && FileOk() && store.rc == old(store.rc) && ReplacedAre(fill, olds)
      ensures L() == WithRun(fill.l, Div(gc, l2Size), Mod(gc, l2Size), h, clusters)
    {
      var i, j := Div(gc, l2Size), Mod(gc, l2Size);
      PrivateTable(fill.l, fill.rc, i);
      assert Clean(Reached(fill.l.l1[i], fill.l.tables));
      var slot := GetClusterTable(i);
      var r;
      r, olds := LinkEntries(cache.tables[slot], j, h, clusters);
      StoreTable(slot, l1[i].cluster, r);
      RunAllLive(fill.l, fill.rc, i, j, h, clusters, cache.offsets[..]);
    }

    /** The second half of alloc_cluster_link_l2: link the run and give back
        the clusters it replaces. */
    method LinkRun(ghost fill: Fill<S>, h: nat, gc: nat, clusters: nat)
      requires Filling(fill) && fill.h == h && fill.gc == gc && fill.clusters == clusters
      modifies this`l1At, this`l1, this`disk, this`stale, store, cache.offsets, cache.counts, cache.tables
      ensures Valid()
      ensures L() == WithRun(fill.l, Div(gc, l2Size), Mod(gc, l2Size), h, clusters)
    {
      ghost var mid := store.rc;
      var olds := LinkTable(fill, h, gc, clusters);
      PrivateTable(fill.l, fill.rc, Div(gc, l2Size));
      FreeRun(fill, mid, olds);
      RunIsSound(fill.l, fill.rc, mid, store.rc, Div(gc, l2Size), Mod(gc, l2Size), h, clusters);
    }

    /** Free the replaced clusters. */
    method FreeRun(ghost fill: Fill<S>, ghost mid: map<nat, nat>, olds: Table)
      requires fill.Ok() && ReplacedAre(fill, olds)
      requires mid == store.rc && Added(fill.rc, mid, fill.h, fill.clusters)
      modifies store`rc, store`freeIndex
      ensures |fill.OldTable()| == fill.l.l2Size
      ensures GivenBack(fill.OldTable(), Mod(fill.gc, fill.l.l2Size), fill.clusters, mid, store.rc)
    {
      PrivateTable(fill.l, fill.rc, Div(fill.gc, fill.l.l2Size));
      forall c: nat
        ensures CountTable(olds, c) <= Rc(store.rc, c) <= 0xffff
      {
        ReplacedCount(fill, mid, olds, c);
      }
      store.FreeAll(olds);
    }

    /** One round of qcow_write: the first n sectors of vals. */
    method WriteStep(sector: nat, vals: seq<S>) returns (n: nat)
      requires Valid() && |vals| > 0
      modifies this`l1At, this`l1, this`disk, this`stale, this`data, store, cache.offsets, cache.counts, cache.tables
      ensures Valid() && 0 < n <= |vals|
      ensures Wrote(codec, old(L()), old(data), L(), data, sector, vals[..n])
    {
      var nEnd := WriteEnd(codec.cs, codec.crypt, sector, |vals|);
      var h, clusters, isNew;
      ghost var rc;
      h, clusters, n, isNew, rc := AllocClusterOffset(sector, nEnd);
      ghost var mid := L();
      PutAndLink(h, clusters, isNew, rc, sector, vals[..n], nEnd);
      WroteAfterTables(codec, old(L()), old(data), mid, L(), data, sector, vals[..n]);
    }

    /** Write the sectors where alloc_cluster_offset said, and link if need be. */
    method PutAndLink(h: nat, clusters: nat, isNew: bool, ghost rc: map<nat, nat>, sector: nat, part: seq<S>,
          ghost nEnd: nat)
      requires codec.Lawful() && CacheOk() && FileOk() && L().Sound(rc) && |part| > 0
      requires Target(rc, sector, h, clusters, isNew) && Room(codec.cs, sector, nEnd, clusters, |part|)
      modifies this`l1At, this`l1, this`disk, this`stale, this`data, store, cache.offsets, cache.counts, cache.tables
      ensures Valid()
      ensures Wrote(codec, old(L()), old(data), L(), data, sector, part)
    {
      var gc := Div(sector, codec.cs);
      ghost var l, was := L(), data;
      PutRun(h, gc, sector, Sealed(codec, sector, part));
      if isNew {
        ghost var fill := Fill(codec, l, rc, was, sector, part, h, gc, clusters);
        RunBounds(codec.cs, sector, |part|, clusters, nEnd);
        fill.Start(data);
        FillRun(fill, h, sector, |part|, nEnd);
        LinkRun(fill, h, gc, clusters);
        FreshWrote(fill, data, L());
      } else {
        OwnWrote(codec, l, rc, was, data, sector, h, clusters, part);
      }
    }

    /** qcow_write. */
    method Write(sector: nat, buf: seq<S>)
      requires Valid()
      modifies this`l1At, this`l1, this`disk, this`stale, this`data, store, cache.offsets, cache.counts, cache.tables
      ensures Valid()
      ensures Overlaid(codec, old(L()), old(data), L(), data, sector, buf)
      ensures Isolated(codec, old(L()), old(data), L(), data)
      ensures AllStored(codec, old(L()), old(data), L(), data, sector, buf)
    {
      WroteSame(codec, L(), data, sector);
      var done := 0;
      while done < |buf|
        invariant done <= |buf| && Valid()
        invariant Wrote(codec, old(L()), old(data), L(), data, sector, buf[..done])
      {
        ghost var mid, was := L(), data;
        var n := WriteStep(sector + done, buf[done..]);
        assert buf[..done] + buf[done..][..n] == buf[..done + n];
        WroteChain(codec, old(L()), old(data), mid, was, L(), data, sector, buf[..done], buf[done..][..n]);
        done := done + n;
      }
      assert buf[..done] == buf;
    }

    /** Any sequence of writes: each sector of the active image reads as the
        last write to it said, and no snapshot changes. */
    method WriteAll(requests: seq<Request<S>>)
      requires Valid()
      modifies this`l1At, this`l1, this`disk, this`stale, this`data, store, cache.offsets, cache.counts, cache.tables
      ensures Valid()
      ensures forall g: nat :: Content(g) == LastWritten(requests, g, old(Content(g)))
      ensures Isolated(codec, old(L()), old(data), L(), data)
    {
      var done := 0;
      while done < |requests|
        invariant done <= |requests| && Valid()
        invariant Latest(codec, old(L()), old(data), L(), data, requests[..done])
        invariant Isolated(codec, old(L()), old(data), L(), data)
      {
        ghost var mid, was := L(), data;
        Write(requests[done].sector, requests[done].buf);
        IsolatedChain(codec, old(L()), old(data), mid, was, L(), data);
        LatestNext(codec, old(L()), old(data), mid, was, L(), data, requests, done);
        done := done + 1;
      }
      assert requests[..done] == requests;
    }

    // ----- snapshots

    /** update_snapshot_refcount on the level-1 table at `at`, which is the
        active one if it is the one in memory. */
    method UpdateSnapshotRefcount(at: nat, addend: int)
      requires cache.Valid() && at in disk && (at == l1At ==> disk[at] == l1)
      requires Pass(store.rc, addend, disk[at], store.tables).Ok(l2Size)
      modifies this`l1, this`disk, store, cache.offsets, cache.counts
      ensures var pass := Pass(old(store.rc), addend, old(disk[at]), old(store.tables));
        && CacheEmpty() && Counted(pass, store.rc)
        && L() == old(L()).(l1 := if at == l1At then pass.FlagTable(old(l1)) else old(l1),
                            disk := old(disk)[at := pass.FlagTable(old(disk[at]))], tables := pass.ResultTables())
    {
      cache.Reset();
      var table := if at == l1At then l1 else disk[at];
      var u := store.WalkTree(table, addend, l2Size);
      if at == l1At {
        l1 := u;
      }
      disk := disk[at := u];
    }

    ghost predicate CacheEmpty()
      reads this, cache, cache.offsets, cache.counts
    {
      cache.Valid() && forall s :: 0 <= s < SLOTS ==> cache.offsets[s] == 0
    }

    lemma EmptyCacheIsValid()
      requires codec.Lawful() && L().Sound(store.rc) && CacheEmpty() && FileOk()
      ensures Valid()
    {
    }

    /** qcow_write_snapshots: the list goes to new clusters, the old ones are freed. */
    method WriteSnapshots(ghost l: Layout)
      requires l == L() && l2Size > 0 && forall c: nat :: Within(snapAt, snapN, c) ==> Rc(store.rc, c) == 1
      modifies this`snapAt, this`snapN, store`rc, store`freeIndex
      ensures snapN == RoundUp(ListBytes(snaps, |snaps|), Mul(8, l2Size))
      ensures L() == l.(snapAt := snapAt, snapN := snapN)
      ensures l.Sound(old(store.rc)) ==> L().Sound(store.rc)
    {
      ghost var rc := store.rc;
      var size := ListSize(snaps);
      var n := RoundUp(size, Mul(8, l2Size));
      var at := store.Alloc(n);
      ghost var mid := store.rc;
      store.FreeRange(snapAt, snapN);
      if l.Sound(rc) {
        SnapListMoves(l, rc, mid, store.rc, at, n);
      }
      snapAt, snapN := at, n;
    }

    /** qcow_snapshot_create, for an id that is not taken. */
    method AddSnapshot(tag: Tag)
      requires Valid()
      modifies this`l1, this`disk, this`snaps, store, cache.offsets, cache.counts
      ensures CacheEmpty() && FileOk() && forall c: nat :: Within(snapAt, snapN, c) ==> Rc(store.rc, c) == 1
      ensures CreatedSound(old(L()), old(store.rc), L(), store.rc) && CreatedWalks(old(L()), L())
      ensures exists at :: snaps == old(snaps) + [Snapshot(at, |l1|, tag)]
    {
      ghost var l, rc := L(), store.rc;
      UpdateSnapshotRefcount(l1At, 1);
      ghost var mid := store.rc;
      var at := store.Alloc(L1Clusters(|l1|, l2Size));
      snaps := snaps + [Snapshot(at, |l1|, tag)];
      disk := disk[at := l1];
      NewTableApart(l, rc, mid, at);
      CreateWalks(l, Pass(rc, 1, l.l1, l.tables), at, tag);
      ListStays(l, rc, mid, store.rc, at);
      CreateIff(l, rc, mid, store.rc, at, tag);
    }

    /** qcow_snapshot_create. */
    method SnapshotCreate(id: string, name: string) returns (r: int)
      requires Valid()
      modifies this`l1, this`disk, this`snaps, this`snapAt, this`snapN, store, cache.offsets, cache.counts
      ensures r == if IndexOfId(Tags(old(snaps)), IdFor(Tags(old(snaps)), id)) < |old(snaps)| then -ENOENT else 0
      ensures r != 0 ==> Valid() && L() == old(L()) && store.rc == old(store.rc)
      ensures r == 0 ==> (Valid() <==> CanCount(old(store.rc), old(l1), old(store.tables)))
      ensures r == 0 ==> exists at :: snaps == old(snaps) + [Snapshot(at, |l1|, Tag(IdFor(Tags(old(snaps)), id), name))]
      ensures r == 0 ==> CreatedReads(codec, data, old(L()), L())
    {
      var given := id;
      if given == "" {
        given := FindNewSnapshotId(Tags(snaps));
      }
      if IndexOfId(Tags(snaps), given) < |snaps| {
        return -ENOENT;
      }
      AddListed(Tag(given, name));
      return 0;
    }

    /** Add the snapshot and rewrite the list. */
    method AddListed(tag: Tag)
      requires Valid()
      modifies this`l1, this`disk, this`snaps, this`snapAt, this`snapN, store, cache.offsets, cache.counts
      ensures Valid() <==> CanCount(old(store.rc), old(l1), old(store.tables))
      ensures exists at :: snaps == old(snaps) + [Snapshot(at, |l1|, tag)]
      ensures CreatedReads(codec, data, old(L()), L())
    {
      ghost var l := L();
      AddSnapshot(tag);
      ghost var mid := L();
      CreatedWalksAreReads(codec, data, l, mid);
      WriteSnapshots(mid);
      CreatedListed(codec, data, l, mid, snapAt, snapN);
      if Overfull(mid) {
        SnapListOverfull(mid, snapAt, snapN);
        OverfullIsUnsound(L(), store.rc);
      } else {
        EmptyCacheIsValid();
      }
    }

    /** qcow_snapshot_goto. */
    method SnapshotGoto(name: string) returns (r: int)
      requires Valid()
      modifies this`l1At, this`l1, this`disk, this`stale, this`fixed, store, cache.offsets, cache.counts
      ensures r == if IndexOf(Tags(snaps), name) < |snaps| then 0 else -ENOENT
      ensures r != 0 ==> Valid() && L() == old(L()) && store.rc == old(store.rc)
      ensures r == 0 ==> (Valid() <==> CanReturn(old(L()), old(store.rc), IndexOf(Tags(snaps), name)))
      ensures r == 0 ==> GoneReads(codec, data, old(L()), L(), IndexOf(Tags(snaps), name))
      ensures r == 0 && Valid() ==>
        (FileSound() <==> DropsNothing(old(l1) + old(stale), |old(l1)|, snaps[IndexOf(Tags(snaps), name)].size))
      ensures r == 0 ==> LosesOnly(|old(l1)|, snaps[IndexOf(Tags(snaps), name)].size, old(fixed))
    {
      var k := IndexOf(Tags(snaps), name);
      if k == |snaps| {
        return -ENOENT;
      }
      ghost var l := L();
      Restore(k);
      GoneWalksAreReads(codec, data, l, L(), k);
      if L().Sound(store.rc) {
        InFileIff(L(), store.rc, stale);
        EmptyCacheIsValid();
      }
      return 0;
    }

    /** Take the active tree's references away, make the active table as long as
        the snapshot's, copy that over it, and add its references. */
    method Restore(k: nat)
      requires Valid() && k < |snaps|
      modifies this`l1At, this`l1, this`disk, this`stale, this`fixed, store, cache.offsets, cache.counts
      ensures CacheEmpty() && FileOk() && GoneWalks(old(L()), L(), k)
      ensures GoneSound(old(L()), old(store.rc), old(stale), k, L(), store.rc, stale)
      ensures LosesOnly(|old(l1)|, snaps[k].size, old(fixed))
    {
      ghost var l, rc := L(), store.rc;
      TakeReferences();
      ghost var m, mid, t := L(), store.rc, stale;
      ghost var x := Replace(k);
      ghost var half, left := store.rc, stale;
      AddReferences(k, x);
      GotoFacts(l, rc, t, mid, half, m, x, k, L(), store.rc, left);
    }

    /** The first step: the references of the active tree. */
    method TakeReferences()
      requires Valid()
      modifies this`l1, this`disk, store, cache.offsets, cache.counts
      ensures CacheEmpty() && FileOk() && L().TreesOk() && Emptied(L()).Sound(store.rc)
      ensures var first := Pass(old(store.rc), -1, old(l1), old(store.tables));
        L() == AfterActivePass(old(L()), first) && Counted(first, store.rc)
    {
      ghost var l, rc := L(), store.rc;
      UpdateSnapshotRefcount(l1At, -1);
      ActivePassKeeps(l, Pass(rc, -1, l.l1, l.tables));
      EmptiedIsSound(l, rc, store.rc);
    }

    /** The last step: the references of the snapshot's entries, now the active ones. */
    method AddReferences(k: nat, ghost x: Layout)
      requires cache.Valid() && FileOk() && k < |snaps| == |x.snaps|
      requires x.Sound(store.rc) && x.l1 == Zeros(x.snaps[k].size) && L() == Restored(x, k)
      modifies this`l1, this`disk, store, cache.offsets, cache.counts
      ensures CacheEmpty() && FileOk()
      ensures L() == AfterActivePass(Restored(x, k), Pass(old(store.rc), 1, x.SnapL1(k), x.tables))
      ensures L().Sound(store.rc) <==> CanCount(old(store.rc), x.SnapL1(k), x.tables)
    {
      assert x.SnapOk(k);
      UpdateSnapshotRefcount(l1At, 1);
      RestoredIff(x, old(store.rc), store.rc, k);
    }

    /** Going from a table of n entries to one of size entries, no longer, loses
        clusters if and only if it takes fewer. */
    ghost predicate LosesOnly(n: nat, size: nat, was: set<nat>)
      reads this
      requires l2Size > 0
    {
      size <= n ==> (fixed == was <==> L1Clusters(size, l2Size) == L1Clusters(n, l2Size))
    }

    /** grow_l1_table if need be; then the snapshot's size and its entries. */
    method Replace(k: nat) returns (ghost x: Layout)
      requires k < |snaps| && L().TreesOk() && Emptied(L()).Sound(store.rc) && FileOk()
      modifies this`l1At, this`l1, this`disk, this`stale, this`fixed, store`rc, store`freeIndex
      ensures SameSnaps(old(L()), x) && x.Sound(store.rc) && x.l1 == Zeros(x.snaps[k].size) && L() == Restored(x, k)
      ensures FileOk() && KeptCounts(Emptied(old(L())), old(store.rc), store.rc)
      ensures NoneMapped(stale) <==> DropsNothing(old(l1) + old(stale), |old(l1)|, snaps[k].size)
      ensures LosesOnly(|old(l1)|, snaps[k].size, old(fixed))
    {
      assert L().SnapOk(k);
      MakeRoom(snaps[k].size);
      x := Cut(Emptied(L()), snaps[k].size);
      CutIsSound(Emptied(L()), store.rc, snaps[k].size);
      CutSnaps(L(), snaps[k].size);
      NothingLost(fixed, l1At, snaps[k].size, |l1|, l2Size);
      DropsRest(old(l1), l1, old(stale), stale, snaps[k].size);
      TakeEntries(k);
    }

    /** The table in memory becomes that of the snapshot, size included. */
    method TakeEntries(k: nat)
      requires k < |snaps| && L().TreesOk() && snaps[k].size <= |l1| && FileOk()
      modifies this`l1, this`disk, this`stale, this`fixed
      ensures L() == Restored(Cut(Emptied(old(L())), snaps[k].size), k)
      ensures FileOk() && stale == old(l1)[snaps[k].size..] + old(stale)
      ensures fixed == old(fixed) + Surplus(l1At, snaps[k].size, |old(l1)|, l2Size)
    {
      var size := snaps[k].size;
      assert L().SnapOk(k);
      TailCut(L(), stale, size);
      stale := l1[size..] + stale;
      fixed := fixed + Surplus(l1At, size, |l1|, l2Size);
      l1 := disk[snaps[k].at];
      disk := disk[l1At := l1];
    }

    method MakeRoom(size: nat)
      requires L().TreesOk() && Emptied(L()).Sound(store.rc) && FileOk()
      modifies this`l1At, this`l1, this`disk, this`stale, store`rc, store`freeIndex
      ensures |l1| >= size && L().TreesOk() && Emptied(L()).Sound(store.rc) && FileOk()
      ensures SameSnaps(old(L()), L()) && KeptCounts(Emptied(old(L())), old(store.rc), store.rc)
      ensures if size > |old(l1)| then stale == [] && NoneMapped(l1[size..]) else l1 == old(l1) && stale == old(stale)
    {
      if size > |l1| {
        ghost var m, rc := L(), store.rc;
        ActiveTableCounted(Emptied(m), rc);
        ghost var mid := GrowL1Table(size);
        RoomMade(m, rc, mid, store.rc, l1At, |l1| - |m.l1|);
      }
    }

    /** qcow_snapshot_delete. */
    method SnapshotDelete(name: string) returns (r: int)
      requires Valid()
      modifies this`l1, this`disk, this`snaps, this`snapAt, this`snapN, store, cache.offsets, cache.counts
      ensures Valid() && r == if IndexOf(Tags(old(snaps)), name) < |old(snaps)| then 0 else -ENOENT
      ensures r != 0 ==> L() == old(L()) && store.rc == old(store.rc)
      ensures r == 0 ==> DeletedReads(codec, data, old(L()), L(), IndexOf(Tags(old(snaps)), name))
    {
      var k := IndexOf(Tags(snaps), name);
      if k == |snaps| {
        return -ENOENT;
      }
      ghost var l := L();
      Remove(k);
      ghost var mid := L();
      DeletedWalksAreReads(codec, data, l, mid, k);
      ListCounted(mid, store.rc);
      WriteSnapshots(mid);
      DeletedListed(codec, data, l, mid, k, snapAt, snapN);
      EmptyCacheIsValid();
      return 0;
    }

    /** Take the snapshot's references away, redo the active flags, free its
        level-1 table and drop it from the list. */
    method Remove(k: nat)
      requires Valid() && k < |snaps|
      modifies this`l1, this`disk, this`snaps, store, cache.offsets, cache.counts
      ensures CacheEmpty() && L().Sound(store.rc) && FileOk() && DeletedWalks(old(L()), L(), k)
    {
      ghost var l, rc := L(), store.rc;
      assert l.SnapOk(k);
      DeletePassOk(l, rc, rc, k);
      UpdateSnapshotRefcount(snaps[k].at, -1);
      ghost var mid := store.rc;
      DeletePassOk(l, rc, mid, k);
      UpdateSnapshotRefcount(l1At, 0);
      assert L() == AfterPasses(l, rc, mid, k);
      assert forall c: nat :: Rc(store.rc, c) == Rc(mid, c);
      SnapTableCounted(l, rc, mid, k);
      store.FreeRange(snaps[k].at, L1Clusters(snaps[k].size, l2Size));
      DeleteIsSound(l, rc, mid, store.rc, k);
      snaps := Without(snaps, k);
      DeleteWalks(l, rc, mid, k);
    }
  }

  /** The clusters of the snapshot's level-1 table still count one reference each. */
  lemma SnapTableCounted(l: Layout, rc: map<nat, nat>, mid: map<nat, nat>, k: nat)
    requires l.TreesOk() && l.Exact(rc) && k < |l.snaps|
    requires Counted(Pass(rc, -1, l.SnapL1(k), l.tables), mid)
    ensures forall c: nat :: Within(l.snaps[k].at, L1Clusters(l.snaps[k].size, l.l2Size), c) ==>
      1 <= Rc(mid, c) <= 0xffff
  {
    forall c: nat | Within(l.snaps[k].at, L1Clusters(l.snaps[k].size, l.l2Size), c)
      ensures 1 <= Rc(mid, c) <= 0xffff
    {
      assert l.CountedRight(rc, c) && l.OneUse(c);
      l.SnapShare(k, c);
      CountKept(Pass(rc, -1, l.SnapL1(k), l.tables), mid, c);
      assert l.SnapRefs(Metadata, k, c) == 1 && l.Refs(Metadata, c) >= 1;
      assert l.SnapRefs(Level2, k, c) == 0 && l.SnapRefs(GuestData, k, c) == 0;
    }
  }

  lemma ListCounted(l: Layout, rc: map<nat, nat>)
    requires l.TreesOk() && l.Exact(rc)
    ensures forall c: nat :: Within(l.snapAt, l.snapN, c) ==> Rc(rc, c) == 1
  {
    forall c: nat | Within(l.snapAt, l.snapN, c)
      ensures Rc(rc, c) == 1
    {
      assert l.CountedRight(rc, c) && l.OneUse(c);
      assert l.ActiveRefs(Metadata, c) >= 1;
    }
  }

  /** The clusters of the active level-1 table count one reference each. */
  lemma ActiveTableCounted(l: Layout, rc: map<nat, nat>)
    requires l.TreesOk() && l.Exact(rc)
    ensures forall c: nat :: Within(l.l1At, L1Clusters(|l.l1|, l.l2Size), c) ==> Rc(rc, c) == 1
  {
    forall c: nat | Within(l.l1At, L1Clusters(|l.l1|, l.l2Size), c)
      ensures Rc(rc, c) == 1
    {
      assert l.CountedRight(rc, c) && l.OneUse(c);
      assert l.ActiveRefs(Metadata, c) >= 1;
    }
  }

  /** What going to a snapshot does, seen from before it. */
  lemma GotoFacts(l: Layout, rc: map<nat, nat>, stale: Table, mid: map<nat, nat>, half: map<nat, nat>, m: Layout,
        x: Layout, k: nat, q: Layout, now: map<nat, nat>, left: Table)
    requires l.Sound(rc) && k < |l.snaps| && Counted(Pass(rc, -1, l.l1, l.tables), mid)
    requires m == AfterActivePass(l, Pass(rc, -1, l.l1, l.tables)) && KeptCounts(Emptied(m), mid, half)
    requires x.TreesOk() && SameSnaps(m, x)
    requires q == AfterActivePass(Restored(x, k), Pass(half, 1, x.SnapL1(k), x.tables))
    requires q.Sound(now) <==> CanCount(half, x.SnapL1(k), x.tables)
    requires NoneMapped(left) <==> DropsNothing(m.l1 + stale, |m.l1|, l.snaps[k].size)
    ensures GoneSound(l, rc, stale, k, q, now, left) && GoneWalks(l, q, k)
  {
    SameDrops(l.l1 + stale, m.l1 + stale, |l.l1|, l.snaps[k].size);
    ReturnIff(l, rc, mid, half, m, k);
    GotoWalks(l, m, x, k, Pass(rc, -1, l.l1, l.tables), Pass(half, 1, x.SnapL1(k), x.tables));
  }

  /** The clusters of the snapshot list keep their counts when a snapshot is created. */
  lemma ListStays(l: Layout, rc: map<nat, nat>, mid: map<nat, nat>, now: map<nat, nat>, a: nat)
    requires l.TreesOk() && l.Exact(rc) && Counted(Pass(rc, 1, l.l1, l.tables), mid)
    requires Unused(mid, a, L1Clusters(|l.l1|, l.l2Size)) && Added(mid, now, a, L1Clusters(|l.l1|, l.l2Size))
    ensures forall c: nat :: Within(l.snapAt, l.snapN, c) ==> Rc(now, c) == 1
  {
    forall c: nat | Within(l.snapAt, l.snapN, c)
      ensures Rc(now, c) == 1
    {
      assert l.CountedRight(rc, c) && l.OneUse(c);
      assert l.ActiveRefs(Metadata, c) >= 1;
      CountKept(Pass(rc, 1, l.l1, l.tables), mid, c);
    }
  }

  // ----- cached tables are in use

  /** Every table that is cached is in use. */
  ghost predicate AllLive(l: Layout, offsets: seq<nat>)
    requires l.l2Size > 0
  {
    forall s :: 0 <= s < |offsets| && offsets[s] != 0 ==> l.Refs(Level2, offsets[s]) >= 1
  }

  lemma NotLive(l: Layout, rc: map<nat, nat>, offsets: seq<nat>, x: nat)
    requires l.l2Size > 0 && l.Exact(rc) && AllLive(l, offsets) && Rc(rc, x) == 0
    ensures x != 0 && x !in offsets
  {
    l.Unreferenced(rc, x);
  }

  /** A private copy leaves every table in use that was. */
  lemma CopyLive(l: Layout, rc: map<nat, nat>, i: nat, x: nat, c: nat)
    requires l.Sound(rc) && Rc(rc, x) == 0 && i < |l.l1| && !l.l1[i].copied && c != 0 &&
      (c == x || l.Refs(Level2, c) >= 1)
    ensures WithCopy(l, i, x).Refs(Level2, c) >= 1
  {
    CopyRefs(l, rc, i, x, Level2, c);
    if l.l1[i].cluster == c {
      SharedTable(l, rc, i);
      assert l.CountedRight(rc, c) && l.OneUse(c);
      l.EntryCounts(l.l1, i);
    }
  }

  lemma CopyAllLive(l: Layout, rc: map<nat, nat>, i: nat, x: nat, was: seq<nat>, offsets: seq<nat>)
    requires l.Sound(rc) && Rc(rc, x) == 0 && i < |l.l1| && !l.l1[i].copied && AllLive(l, was)
    requires |offsets| == |was| && forall s :: 0 <= s < |was| ==> offsets[s] == x || offsets[s] == was[s]
    ensures AllLive(WithCopy(l, i, x), offsets)
  {
    forall s | 0 <= s < |offsets| && offsets[s] != 0
      ensures WithCopy(l, i, x).Refs(Level2, offsets[s]) >= 1
    {
      CopyLive(l, rc, i, x, offsets[s]);
    }
  }

  lemma GrownAllLive(l: Layout, rc: map<nat, nat>, a: nat, n: nat, offsets: seq<nat>)
    requires l.TreesOk() && l.Exact(rc) && Unused(rc, a, L1Clusters(|l.l1| + n, l.l2Size)) && AllLive(l, offsets)
    ensures AllLive(Grown(l, a, n), offsets)
  {
    GrownApart(l, rc, a, n);
    GrownTrees(l, a, n);
    ZerosAddTree(l.l1, n, l.tables, l.l2Size);
  }

  lemma RunAllLive(l: Layout, rc: map<nat, nat>, i: nat, idx: nat, a: nat, n: nat, offsets: seq<nat>)
    requires CanLink(l, rc, i, idx, a, n) && AllLive(l, offsets)
    ensures AllLive(WithRun(l, i, idx, a, n), offsets)
  {
    RunTree(l, rc, i, idx, a, n);
  }

  /** Where one round of qcow_write ends, in sectors from the start of its first
      cluster; with encryption a round is limited by the buffer. */
  method WriteEnd(cs: nat, crypt: bool, sector: nat, count: nat) returns (nEnd: nat)
    requires cs > 0 && count > 0
    ensures Mod(sector, cs) < nEnd <= Mod(sector, cs) + count && (crypt ==> nEnd <= Mul(MAX_CRYPT_CLUSTERS, cs))
    ensures nEnd == Mod(sector, cs) + count || (crypt && nEnd == Mul(MAX_CRYPT_CLUSTERS, cs))
  {
    nEnd := Mod(sector, cs) + count;
    if crypt && nEnd > Mul(MAX_CRYPT_CLUSTERS, cs) {
      nEnd := Mul(MAX_CRYPT_CLUSTERS, cs);
    }
  }

  /** olds are the mapped entries that the run replaces. */
  ghost predicate ReplacedAre<S(!new)>(fill: Fill<S>, olds: Table)
    requires fill.Ok()
  {
    var j := Mod(fill.gc, fill.l.l2Size);
    && j + fill.clusters <= |fill.OldTable()|
    && (forall k :: 0 <= k < |olds| ==> olds[k].cluster != 0)
    && (forall c: nat ::
        CountTable(olds, c) == if c == 0 then 0 else CountTable(fill.OldTable()[j..j + fill.clusters], c))
  }

  lemma ReplacedCount<S(!new)>(fill: Fill<S>, mid: map<nat, nat>, olds: Table, c: nat)
    requires fill.Ok() && ReplacedAre(fill, olds) && Added(fill.rc, mid, fill.h, fill.clusters)
    ensures CountTable(olds, c) <= Rc(mid, c) <= 0xffff
  {
    var i, j := Div(fill.gc, fill.l.l2Size), Mod(fill.gc, fill.l.l2Size);
    PrivateTable(fill.l, fill.rc, i);
    Replaced(fill.l, fill.rc, i, j, fill.h, fill.clusters, c);
    assert fill.l.CountedRight(fill.rc, c);
  }

  /** n sectors from sector on end with the clusters, or at nEnd inside the last of them. */
  ghost predicate Room(cs: nat, sector: nat, nEnd: nat, clusters: nat, n: nat)
    requires cs > 0
  {
    && Mod(sector, cs) + n <= Mul(clusters, cs) && clusters <= RoundUp(nEnd, cs)
    && (Mod(sector, cs) + n == Mul(clusters, cs) || Mod(sector, cs) + n == nEnd)
  }

  lemma RunBounds(cs: nat, sector: nat, n: nat, clusters: nat, nEnd: nat)
    requires cs > 0 && Room(cs, sector, nEnd, clusters, n)
    ensures sector + n + Rest(cs, Mod(sector, cs) + n) == Mul(Div(sector, cs) + clusters, cs)
  {
    Split(sector, cs);
    TailEnds(cs, Mod(sector, cs) + n, clusters, nEnd);
    MulAdd(Div(sector, cs), clusters, cs);
  }

  /** A table that is not COPIED has another reference. */
  lemma SharedTable(l: Layout, rc: map<nat, nat>, i: nat)
    requires l.Sound(rc) && i < |l.l1| && l.l1[i].cluster != 0 && !l.l1[i].copied
    ensures 2 <= Rc(rc, l.l1[i].cluster) <= 0xffff && l.l1[i].cluster in l.tables
  {
    assert l.FlagOk(l.l1[i], rc);
    l.EntryCounts(l.l1, i);
    assert l.CountedRight(rc, l.l1[i].cluster);
  }

  lemma FreshTable(l: Layout, rc: map<nat, nat>, now: map<nat, nat>, i: nat, x: nat)
    requires l.Sound(rc) && i < |l.l1| && !l.l1[i].copied
    requires forall c: nat :: Rc(now, c) == Rc(rc, c) + One(Within(x, 1, c)) - One(l.l1[i].cluster == c && c != 0)
    requires Rc(now, x) == 1
    ensures Rc(rc, x) == 0 && CopyCounted(l, rc, now, i, x)
  {
    if l.l1[i].cluster != 0 {
      SharedTable(l, rc, i);
    }
    assert Within(x, 1, x);
  }

  lemma OwnRunFound(l: Layout, i: nat, j: nat, nb: nat, clusters: nat)
    requires i < |l.l1| && j + nb <= |Reached(l.l1[i], l.tables)| && clusters <= nb && nb > 0
    requires Reached(l.l1[i], l.tables)[j].copied && Clean(Reached(l.l1[i], l.tables))
    requires forall k :: 0 <= k < clusters ==> Follows(Reached(l.l1[i], l.tables), j, k, false)
    requires clusters < nb ==> !Follows(Reached(l.l1[i], l.tables), j, clusters, false)
    ensures clusters > 0 && OwnRun(l, i, j, Reached(l.l1[i], l.tables)[j].cluster, clusters)
  {
    var t := Reached(l.l1[i], l.tables);
    assert Follows(t, j, 0, false);
    forall y | j <= y < j + clusters
      ensures t[y] == Entry(t[j].cluster + (y - j), true)
    {
      assert Follows(t, j, y - j, false);
    }
  }

  // ----- the list of snapshots

  function Tags(snaps: seq<Snapshot>): (tags: seq<Tag>)
    ensures |tags| == |snaps|
  {
    seq(|snaps|, i requires 0 <= i < |snaps| => snaps[i].tag)
  }

  const SNAPSHOT_HEADER: nat := 40

  /** The size in bytes of the first n records of the snapshot list: each is
      aligned to 8, with a header, the id and the name. */
  function ListBytes(snaps: seq<Snapshot>, n: nat): nat
    requires n <= |snaps|
  {
    if n == 0 then 0
    else (ListBytes(snaps, n - 1) + 7) / 8 * 8 + SNAPSHOT_HEADER + |snaps[n - 1].tag.id| + |snaps[n - 1].tag.name|
  }

  /** Each record starts at the first multiple of 8 after the one before. */
  lemma RecordFits(snaps: seq<Snapshot>, n: nat) returns (start: nat)
    requires n < |snaps|
    ensures start % 8 == 0 && ListBytes(snaps, n) <= start < ListBytes(snaps, n) + 8
    ensures ListBytes(snaps, n + 1) == start + 40 + |snaps[n].tag.id| + |snaps[n].tag.name|
  {
    start := (ListBytes(snaps, n) + 7) / 8 * 8;
  }

  method ListSize(snaps: seq<Snapshot>) returns (size: nat)
    ensures size == ListBytes(snaps, |snaps|)
  {
    size := 0;
    for i := 0 to |snaps|
      invariant size == ListBytes(snaps, i)
    {
      size := (size + 7) / 8 * 8;
      size := size + SNAPSHOT_HEADER + |snaps[i].tag.id| + |snaps[i].tag.name|;
    }
  }
}
