/**
 What a write changes: the sectors it covers, in the active image only.
 In-place writes reach clusters that only the active tables refer to; other
 writes go to clusters no one refers to, which are then linked.
 */
module Qcow2Overlay {
  import opened Division
  import opened Qcow2Tables
  import opened Qcow2Layout
  import opened Qcow2Snapshots
  import opened Qcow2Cow
  import opened Qcow2Link
  import opened Qcow2Runs
  import opened Qcow2Content
  import opened Sectors

  // ----- writing to the file

  /** Position p is that of one of n guest sectors from `from`. */
  ghost predicate Hit<S(!new)>(codec: Codec<S>, h: nat, gc: nat, from: nat, n: nat, p: Pos)
    requires codec.cs > 0
  {
    exists g :: from <= g < from + n && codec.Place(h, gc, g) == p
  }

  /** The file after writing vals for the guest sectors from `from`, guest cluster gc being at h. */
  ghost predicate Put<S(!new)>(codec: Codec<S>, data: map<Pos, S>, now: map<Pos, S>, h: nat, gc: nat, from: nat,
        vals: seq<S>)
    requires codec.cs > 0
  {
    && (forall g :: from <= g < from + |vals| ==> codec.Get(now, codec.Place(h, gc, g)) == vals[g - from])
    && (forall p: Pos :: codec.Get(now, p) == codec.Get(data, p) || Hit(codec, h, gc, from, |vals|, p))
  }

  lemma PutOneMore<S(!new)>(codec: Codec<S>, data: map<Pos, S>, now: map<Pos, S>, h: nat, gc: nat, from: nat,
        vals: seq<S>, s: S)
    requires codec.cs > 0 && gc <= Div(from, codec.cs) && Put(codec, data, now, h, gc, from, vals)
    ensures Put(codec, data, now[codec.Place(h, gc, from + |vals|) := s], h, gc, from, vals + [s])
  {
    var last := codec.Place(h, gc, from + |vals|);
    var next := now[last := s];
    var more := vals + [s];
    forall g | from <= g < from + |more|
      ensures codec.Get(next, codec.Place(h, gc, g)) == more[g - from]
    {
      if g != from + |vals| {
        LaterPlace(codec, h, gc, from, g, from + |vals|);
      }
    }
    forall p: Pos
      ensures codec.Get(next, p) == codec.Get(data, p) || Hit(codec, h, gc, from, |more|, p)
    {
      HitMore(codec, h, gc, from, |vals|, p);
    }
  }

  lemma LaterPlace<S(!new)>(codec: Codec<S>, h: nat, gc: nat, from: nat, g: nat, f: nat)
    requires codec.cs > 0 && gc <= Div(from, codec.cs) && from <= g && from <= f && g != f
    ensures codec.Place(h, gc, g) != codec.Place(h, gc, f)
  {
    DivMonotone(from, g, codec.cs);
    DivMonotone(from, f, codec.cs);
    codec.PlaceInjective(h, gc, g, f);
  }

  lemma HitMore<S(!new)>(codec: Codec<S>, h: nat, gc: nat, from: nat, n: nat, p: Pos)
    requires codec.cs > 0
    ensures Hit(codec, h, gc, from, n + 1, p) <==> Hit(codec, h, gc, from, n, p) || codec.Place(h, gc, from + n) == p
  {
    if Hit(codec, h, gc, from, n + 1, p) {
      var g :| from <= g < from + (n + 1) && codec.Place(h, gc, g) == p;
      assert g < from + n || g == from + n;
    }
    if Hit(codec, h, gc, from, n, p) {
      var g :| from <= g < from + n && codec.Place(h, gc, g) == p;
      assert from <= g < from + (n + 1);
    }
  }

  /** A hit lies in the clusters the sectors span. */
  lemma HitWithin<S(!new)>(codec: Codec<S>, h: nat, gc: nat, from: nat, n: nat, nb: nat, p: Pos)
    requires codec.cs > 0 && gc <= Div(from, codec.cs) && from + n <= Mul(gc + nb, codec.cs)
    requires Hit(codec, h, gc, from, n, p)
    ensures Within(h, nb, p.cluster)
  {
    var g :| from <= g < from + n && codec.Place(h, gc, g) == p;
    DivMonotone(from, g, codec.cs);
    DivBelow(g, codec.cs, gc + nb);
  }

  // ----- data that a write leaves alone

  /** The files differ in n clusters from a only. */
  ghost predicate DiffersWithin<S(!new)>(codec: Codec<S>, data: map<Pos, S>, now: map<Pos, S>, a: nat, n: nat) {
    forall p: Pos :: codec.Get(now, p) == codec.Get(data, p) || Within(a, n, p.cluster)
  }

  lemma PutDiffers<S(!new)>(codec: Codec<S>, first: map<Pos, S>, data: map<Pos, S>, now: map<Pos, S>,
                            h: nat, gc: nat, from: nat, vals: seq<S>, nb: nat)
    requires codec.cs > 0 && gc <= Div(from, codec.cs) && from + |vals| <= Mul(gc + nb, codec.cs)
    requires DiffersWithin(codec, first, data, h, nb) && Put(codec, data, now, h, gc, from, vals)
    ensures DiffersWithin(codec, first, now, h, nb)
  {
    forall p: Pos
      ensures codec.Get(now, p) == codec.Get(first, p) || Within(h, nb, p.cluster)
    {
      if Hit(codec, h, gc, from, |vals|, p) {
        HitWithin(codec, h, gc, from, |vals|, nb, p);
      }
    }
  }

  /** Trees do not see changes in clusters they do not refer to. */
  lemma DiffersKeeps<S(!new)>(codec: Codec<S>, l1: Table, tables: map<nat, Table>, data: map<Pos, S>,
        now: map<Pos, S>, a: nat, n: nat)
    requires DiffersWithin(codec, data, now, a, n)
    requires forall c: nat :: Within(a, n, c) ==> TreeRefs(GuestData, l1, tables, c) == 0
    ensures DataKept(codec, l1, tables, data, now)
  {
  }

  // ----- writing to a fresh run

  lemma FreshKeepsActive<S(!new)>(codec: Codec<S>, l: Layout, rc: map<nat, nat>, data: map<Pos, S>,
        now: map<Pos, S>, a: nat, n: nat)
    requires l.Sound(rc) && Unused(rc, a, n) && DiffersWithin(codec, data, now, a, n)
    ensures DataKept(codec, l.l1, l.tables, data, now)
  {
    forall c: nat | Within(a, n, c)
      ensures TreeRefs(GuestData, l.l1, l.tables, c) == 0
    {
      l.Unreferenced(rc, c);
      assert l.ActiveRefs(GuestData, c) == 0;
    }
    DiffersKeeps(codec, l.l1, l.tables, data, now, a, n);
  }

  lemma FreshKeepsSnap<S(!new)>(codec: Codec<S>, l: Layout, rc: map<nat, nat>, data: map<Pos, S>,
        now: map<Pos, S>, a: nat, n: nat, k: nat)
    requires l.Sound(rc) && Unused(rc, a, n) && DiffersWithin(codec, data, now, a, n) && k < |l.snaps|
    ensures DataKept(codec, l.SnapL1(k), l.tables, data, now)
  {
    forall c: nat | Within(a, n, c)
      ensures TreeRefs(GuestData, l.SnapL1(k), l.tables, c) == 0
    {
      l.Unreferenced(rc, c);
      assert l.SnapRefs(GuestData, k, c) == 0;
    }
    DiffersKeeps(codec, l.SnapL1(k), l.tables, data, now, a, n);
  }

  /** The clusters of the run, as guest clusters. */
  lemma RunClusters(l2Size: nat, gc: nat, nb: nat, x: nat)
    requires l2Size > 0 && Mod(gc, l2Size) + nb <= l2Size
    ensures gc <= x < gc + nb <==>
      Div(x, l2Size) == Div(gc, l2Size) && Mod(gc, l2Size) <= Mod(x, l2Size) < Mod(gc, l2Size) + nb
    ensures gc <= x < gc + nb ==> Mod(x, l2Size) - Mod(gc, l2Size) == x - gc
  {
    if gc <= x < gc + nb {
      StepInside(gc, l2Size, x - gc);
    } else {
      Split(gc, l2Size);
      Split(x, l2Size);
    }
  }

  lemma FreshNotZero(l: Layout, rc: map<nat, nat>, a: nat, nb: nat, c: nat)
    requires l.l2Size > 0 && l.Exact(rc) && Unused(rc, a, nb) && Within(a, nb, c)
    ensures c != 0
  {
    l.Unreferenced(rc, c);
  }

  lemma LinkedLookup(l: Layout, rc: map<nat, nat>, tables: map<nat, Table>, gc: nat, a: nat, nb: nat, x: nat)
    requires l.l2Size > 0 && CanLink(l, rc, Div(gc, l.l2Size), Mod(gc, l.l2Size), a, nb)
    requires tables == WithRun(l, Div(gc, l.l2Size), Mod(gc, l.l2Size), a, nb).tables
    ensures Lookup(l.l1, tables, l.l2Size, x) ==
      if gc <= x < gc + nb then a + (x - gc) else Lookup(l.l1, l.tables, l.l2Size, x)
  {
    RunWalks(l, rc, Div(gc, l.l2Size), Mod(gc, l.l2Size), a, nb, Div(x, l.l2Size), Mod(x, l.l2Size));
    RunClusters(l.l2Size, gc, nb, x);
  }

  /** Once linked, the run reads as written and the rest as before. */
  lemma LinkedReads<S(!new)>(codec: Codec<S>, l: Layout, rc: map<nat, nat>, tables: map<nat, Table>,
                             data: map<Pos, S>, now: map<Pos, S>, gc: nat, a: nat, nb: nat, want: S, g: nat)
    requires codec.Lawful() && l.l2Size > 0
    requires CanLink(l, rc, Div(gc, l.l2Size), Mod(gc, l.l2Size), a, nb) && DiffersWithin(codec, data, now, a, nb)
    requires tables == WithRun(l, Div(gc, l.l2Size), Mod(gc, l.l2Size), a, nb).tables
    requires gc <= Div(g, codec.cs) < gc + nb ==> codec.Get(now, codec.Place(a, gc, g)) == codec.Seal(g, want)
    ensures ReadAt(codec, l.l1, tables, l.l2Size, now, g) ==
            if gc <= Div(g, codec.cs) < gc + nb then want else ReadAt(codec, l.l1, l.tables, l.l2Size, data, g)
  {
    var x := Div(g, codec.cs);
    LinkedLookup(l, rc, tables, gc, a, nb, x);
    if gc <= x < gc + nb {
      FreshNotZero(l, rc, a, nb, a + (x - gc));
      codec.OpenSeal(g, want);
    } else {
      FreshKeepsActive(codec, l, rc, data, now, a, nb);
      ReadKept(codec, l.l1, l.tables, l.l2Size, data, now, g);
    }
  }

  // ----- writing in place

  /** c entries from j of the active table under i are COPIED and name the clusters from h. */
  ghost predicate OwnRun(l: Layout, i: nat, j: nat, h: nat, c: nat) {
    && i < |l.l1| && j + c <= |Reached(l.l1[i], l.tables)| && h != 0
    && forall y :: j <= y < j + c ==> Reached(l.l1[i], l.tables)[y] == Entry(h + (y - j), true)
  }

  /** No snapshot refers to a cluster that may be written in place. */
  lemma OwnKeepsSnap<S(!new)>(codec: Codec<S>, l: Layout, rc: map<nat, nat>, data: map<Pos, S>, now: map<Pos, S>,
                              i: nat, j: nat, h: nat, n: nat, k: nat)
    requires l.Sound(rc) && OwnRun(l, i, j, h, n) && DiffersWithin(codec, data, now, h, n) && k < |l.snaps|
    ensures DataKept(codec, l.SnapL1(k), l.tables, data, now)
  {
    var t := Reached(l.l1[i], l.tables);
    assert l.TableFlagsOk(t, rc);
    forall c: nat | Within(h, n, c)
      ensures TreeRefs(GuestData, l.SnapL1(k), l.tables, c) == 0
    {
      var y := j + (c - h);
      assert t[y] == Entry(c, true) && l.FlagOk(t[y], rc);
      l.DataCounts(l.l1, i, y);
      l.ActiveOnly(rc, GuestData, c, k);
    }
    DiffersKeeps(codec, l.SnapL1(k), l.tables, data, now, h, n);
  }

  /** In place, the sectors written read as written and the rest as before. */
  lemma OwnReads<S(!new)>(codec: Codec<S>, l: Layout, rc: map<nat, nat>, data: map<Pos, S>, now: map<Pos, S>,
                          sector: nat, h: nat, c: nat, vals: seq<S>, g: nat)
    requires codec.Lawful() && l.Sound(rc)
    requires var gc := Div(sector, codec.cs);
      && OwnRun(l, Div(gc, l.l2Size), Mod(gc, l.l2Size), h, c)
      && Mod(sector, codec.cs) + |vals| <= Mul(c, codec.cs)
      && Put(codec, data, now, h, gc, sector, Sealed(codec, sector, vals))
    ensures ReadAt(codec, l.l1, l.tables, l.l2Size, now, g) ==
            if sector <= g < sector + |vals| then vals[g - sector] else ReadAt(codec, l.l1, l.tables, l.l2Size, data, g)
  {
    OwnIsRun(l, codec.cs, sector, h, c, |vals|);
    if sector <= g < sector + |vals| {
      RunPlace(codec, l.l1, l.tables, l.l2Size, h, sector, |vals|, g);
      codec.OpenSeal(g, vals[g - sector]);
    } else if Lookup(l.l1, l.tables, l.l2Size, Div(g, codec.cs)) != 0 {
      RunMisses(codec, l.l1, l.tables, l.l2Size, h, sector, |vals|, g);
    }
  }

  /** Values encrypted for the sectors they go to. */
  function Sealed<S(!new)>(codec: Codec<S>, sector: nat, vals: seq<S>): (r: seq<S>)
    ensures |r| == |vals| && forall k :: 0 <= k < |r| ==> r[k] == codec.Seal(sector + k, vals[k])
  {
    seq(|vals|, k requires 0 <= k < |vals| => codec.Seal(sector + k, vals[k]))
  }

  lemma OwnIsRun(l: Layout, cs: nat, sector: nat, h: nat, c: nat, n: nat)
    requires cs > 0 && l.l2Size > 0 && TreeOk(l.l1, l.tables, l.l2Size) && Mod(sector, cs) + n <= Mul(c, cs)
    requires OwnRun(l, Div(Div(sector, cs), l.l2Size), Mod(Div(sector, cs), l.l2Size), h, c)
    ensures SectorRun(l.l1, l.tables, l.l2Size, cs, h, sector, n)
  {
    TableRunIsSectorRun(l.l1, l.tables, l.l2Size, cs, h, sector, c, n);
  }

  lemma RunPlace<S(!new)>(codec: Codec<S>, l1: Table, tables: map<nat, Table>, l2Size: nat, h: nat, sector: nat,
        n: nat, g: nat)
    requires codec.cs > 0 && l2Size > 0 && h != 0 && SectorRun(l1, tables, l2Size, codec.cs, h, sector, n)
    requires sector <= g < sector + n
    ensures Pos(Lookup(l1, tables, l2Size, Div(g, codec.cs)), Mod(g, codec.cs)) ==
      codec.Place(h, Div(sector, codec.cs), g)
    ensures codec.Place(h, Div(sector, codec.cs), g).cluster != 0
  {
    DivMonotone(sector, g, codec.cs);
  }

  /** Guest clusters have host clusters of their own. */
  lemma LookupInjective(l1: Table, tables: map<nat, Table>, l2Size: nat, x: nat, y: nat)
    requires l2Size > 0 && TreeOk(l1, tables, l2Size) && x != y && Lookup(l1, tables, l2Size, x) != 0
    ensures Lookup(l1, tables, l2Size, x) != Lookup(l1, tables, l2Size, y)
  {
    DivModDiffer(x, y, l2Size);
    WalkInjective(l1, tables, l2Size, Div(x, l2Size), Mod(x, l2Size), Div(y, l2Size), Mod(y, l2Size));
  }

  /** Different sectors read through a tree are in different places. */
  lemma PlacesDiffer(l1: Table, tables: map<nat, Table>, l2Size: nat, cs: nat, g: nat, f: nat)
    requires cs > 0 && l2Size > 0 && TreeOk(l1, tables, l2Size) && g != f && Lookup(l1, tables, l2Size, Div(g, cs)) != 0
    ensures Pos(Lookup(l1, tables, l2Size, Div(g, cs)), Mod(g, cs)) !=
      Pos(Lookup(l1, tables, l2Size, Div(f, cs)), Mod(f, cs))
  {
    DivModDiffer(g, f, cs);
    if Div(g, cs) != Div(f, cs) {
      LookupInjective(l1, tables, l2Size, Div(g, cs), Div(f, cs));
    }
  }

  /** A sector that is not written is not at the place of one that is. */
  lemma RunMisses<S(!new)>(codec: Codec<S>, l1: Table, tables: map<nat, Table>, l2Size: nat, h: nat, sector: nat,
        n: nat, g: nat)
    requires codec.cs > 0 && l2Size > 0 && h != 0 && SectorRun(l1, tables, l2Size, codec.cs, h, sector, n)
    requires TreeOk(l1, tables, l2Size) && !(sector <= g < sector + n) &&
      Lookup(l1, tables, l2Size, Div(g, codec.cs)) != 0
    ensures !Hit(codec, h, Div(sector, codec.cs), sector, n,
      Pos(Lookup(l1, tables, l2Size, Div(g, codec.cs)), Mod(g, codec.cs)))
  {
    forall f | sector <= f < sector + n
      ensures codec.Place(h, Div(sector, codec.cs), f) !=
        Pos(Lookup(l1, tables, l2Size, Div(g, codec.cs)), Mod(g, codec.cs))
    {
      RunPlace(codec, l1, tables, l2Size, h, sector, n, f);
      PlacesDiffer(l1, tables, l2Size, codec.cs, g, f);
    }
  }

  // ----- filling a run

  /** What guest sector g is to read after vals are written from sector on. */
  ghost function Want<S(!new)>(codec: Codec<S>, l: Layout, data: map<Pos, S>, sector: nat, vals: seq<S>, g: nat): S
    requires codec.cs > 0 && l.l2Size > 0
  {
    if sector <= g < sector + |vals| then vals[g - sector] else ReadAt(codec, l.l1, l.tables, l.l2Size, data, g)
  }

  /** The run holds what is wanted for the guest sectors from lo to hi. */
  ghost predicate Filled<S(!new)>(codec: Codec<S>, l: Layout, data: map<Pos, S>, sector: nat, vals: seq<S>,
                                  now: map<Pos, S>, h: nat, gc: nat, lo: nat, hi: nat)
    requires codec.cs > 0 && l.l2Size > 0
  {
    forall g :: lo <= g < hi ==>
      codec.Get(now, codec.Place(h, gc, g)) == codec.Seal(g, Want(codec, l, data, sector, vals, g))
  }

  /** The sectors being put are those wanted. */
  ghost predicate Wanted<S(!new)>(codec: Codec<S>, l: Layout, data: map<Pos, S>, sector: nat, vals: seq<S>,
        from: nat, part: seq<S>)
    requires codec.cs > 0 && l.l2Size > 0
  {
    forall g :: from <= g < from + |part| ==> part[g - from] == Want(codec, l, data, sector, vals, g)
  }

  lemma NotHit<S(!new)>(codec: Codec<S>, h: nat, gc: nat, lo: nat, from: nat, n: nat, g: nat)
    requires codec.cs > 0 && gc <= Div(from, codec.cs) && gc <= Div(lo, codec.cs) && lo <= g && !(from <= g < from + n)
    ensures !Hit(codec, h, gc, from, n, codec.Place(h, gc, g))
  {
    var least := if lo < from then lo else from;
    forall f | from <= f < from + n
      ensures codec.Place(h, gc, f) != codec.Place(h, gc, g)
    {
      LaterPlace(codec, h, gc, least, f, g);
    }
  }

  /** Putting more sectors into the run keeps those already there. */
  lemma FillMore<S(!new)>(codec: Codec<S>, l: Layout, data: map<Pos, S>, sector: nat, vals: seq<S>,
                          was: map<Pos, S>, now: map<Pos, S>, h: nat, gc: nat, lo: nat, hi: nat, from: nat,
                              part: seq<S>, g: nat)
    requires codec.cs > 0 && l.l2Size > 0 && gc <= Div(from, codec.cs) && gc <= Div(lo, codec.cs)
    requires Filled(codec, l, data, sector, vals, was, h, gc, lo, hi)
    requires Put(codec, was, now, h, gc, from, Sealed(codec, from, part)) &&
      Wanted(codec, l, data, sector, vals, from, part)
    requires lo <= g < hi || from <= g < from + |part|
    ensures codec.Get(now, codec.Place(h, gc, g)) == codec.Seal(g, Want(codec, l, data, sector, vals, g))
  {
    if from <= g < from + |part| {
      assert Sealed(codec, from, part)[g - from] == codec.Seal(from + (g - from), part[g - from]);
    } else {
      NotHit(codec, h, gc, lo, from, |part|, g);
    }
  }

  /** What is missing from n to a whole number of clusters. */
  function Rest(cs: nat, n: nat): nat
    requires cs > 0
  {
    if Mod(n, cs) == 0 then 0 else cs - Mod(n, cs)
  }

  /** Where the sectors copied after the written ones end. */
  lemma TailEnds(cs: nat, avail: nat, nb: nat, end: nat)
    requires cs > 0 && nb <= RoundUp(end, cs) && avail <= Mul(nb, cs) && (avail == Mul(nb, cs) || avail == end)
    ensures avail + Rest(cs, avail) == Mul(nb, cs)
  {
    if avail < Mul(nb, cs) {
      Split(avail, cs);
      var q := Div(avail, cs);
      DivBelow(avail, cs, nb);
      if Mod(avail, cs) == 0 {
        RoundUpLeast(end, cs, q);
      } else {
        assert Mul(q + 1, cs) == Mul(q, cs) + cs;
        RoundUpLeast(end, cs, q + 1);
        assert nb == q + 1;
      }
    } else {
      QuotientIs(avail, cs, nb);
    }
  }

  /** A write into a fresh run under way: layout, counts and file before it,
      what is written, and the run at h for the guest clusters from gc. */
  datatype Fill<!S(!new)> = Fill(codec: Codec<S>, l: Layout, rc: map<nat, nat>, was: map<Pos, S>,
                                 sector: nat, vals: seq<S>, h: nat, gc: nat, clusters: nat)
  {
    ghost predicate Ok() {
      && codec.Lawful() && l.l2Size > 0 && gc == Div(sector, codec.cs)
      && CanLink(l, rc, Div(gc, l.l2Size), Mod(gc, l.l2Size), h, clusters)
    }

    /** The level-2 table the run is to be linked into. */
    ghost function OldTable(): Table
      requires Ok()
    {
      Reached(l.l1[Div(gc, l.l2Size)], l.tables)
    }

    /** The run holds what sectors lo to hi are to read, and nothing else changed. */
    ghost predicate Holds(now: map<Pos, S>, lo: nat, hi: nat)
      requires Ok()
    {
      && gc <= Div(lo, codec.cs) && hi <= Mul(gc + clusters, codec.cs) && lo <= sector && sector + |vals| <= hi
      && DiffersWithin(codec, was, now, h, clusters)
      && Filled(codec, l, was, sector, vals, now, h, gc, lo, hi)
    }

    /** The sectors written are in the run. */
    lemma Start(now: map<Pos, S>)
      requires Ok() && sector + |vals| <= Mul(gc + clusters, codec.cs)
      requires Put(codec, was, now, h, gc, sector, Sealed(codec, sector, vals))
      ensures Holds(now, sector, sector + |vals|)
    {
      PutDiffers(codec, was, was, now, h, gc, sector, Sealed(codec, sector, vals), clusters);
      forall g | sector <= g < sector + |vals|
        ensures codec.Get(now, codec.Place(h, gc, g)) == codec.Seal(g, Want(codec, l, was, sector, vals, g))
      {
        assert Sealed(codec, sector, vals)[g - sector] == codec.Seal(sector + (g - sector), vals[g - sector]);
      }
    }

    /** Sectors read through the active tables and put beside the run so far. */
    lemma More(before: map<Pos, S>, now: map<Pos, S>, lo: nat, hi: nat, from: nat, buf: seq<S>)
      requires Ok() && Holds(before, lo, hi) && gc <= Div(from, codec.cs) &&
        from + |buf| <= Mul(gc + clusters, codec.cs)
      requires from + |buf| == lo || from == hi
      requires ReadsAs(codec, l.l1, l.tables, l.l2Size, before, from, buf)
      requires Put(codec, before, now, h, gc, from, Sealed(codec, from, buf))
      ensures Holds(now, if from == hi then lo else from, if from == hi then hi + |buf| else hi)
    {
      FreshKeepsActive(codec, l, rc, was, before, h, clusters);
      ReadsKept(codec, l.l1, l.tables, l.l1, l.tables, l.l2Size, was, before);
      assert Wanted(codec, l, was, sector, vals, from, buf);
      PutDiffers(codec, was, before, now, h, gc, from, Sealed(codec, from, buf), clusters);
      forall g | (if from == hi then lo else from) <= g < (if from == hi then hi + |buf| else hi)
        ensures codec.Get(now, codec.Place(h, gc, g)) == codec.Seal(g, Want(codec, l, was, sector, vals, g))
      {
        FillMore(codec, l, was, sector, vals, before, now, h, gc, lo, hi, from, buf, g);
      }
    }

    /** The whole run is filled: linked, it reads as the old content overlaid with vals. */
    lemma Done(now: map<Pos, S>, tables: map<nat, Table>, g: nat)
      requires Ok() && Holds(now, Mul(gc, codec.cs), Mul(gc + clusters, codec.cs))
      requires tables == WithRun(l, Div(gc, l.l2Size), Mod(gc, l.l2Size), h, clusters).tables
      ensures ReadAt(codec, l.l1, tables, l.l2Size, now, g) == Want(codec, l, was, sector, vals, g)
    {
      var want := Want(codec, l, was, sector, vals, g);
      DivBelow(g, codec.cs, gc);
      DivBelow(g, codec.cs, gc + clusters);
      LinkedReads(codec, l, rc, tables, was, now, gc, h, clusters, want, g);
    }
  }

  // ----- what a write promises

  /** The active image reads as before, overlaid with vals from sector on. */
  ghost predicate Overlaid<S(!new)>(codec: Codec<S>, l: Layout, data: map<Pos, S>, m: Layout, now: map<Pos, S>,
        sector: nat, vals: seq<S>)
    requires codec.cs > 0 && m.l2Size == l.l2Size > 0
  {
    forall g: nat :: ReadAt(codec, m.l1, m.tables, l.l2Size, now, g) == Want(codec, l, data, sector, vals, g)
  }

  /** Every snapshot reads as before. */
  ghost predicate Isolated<S(!new)>(codec: Codec<S>, l: Layout, data: map<Pos, S>, m: Layout, now: map<Pos, S>)
    requires codec.cs > 0 && m.l2Size == l.l2Size > 0
  {
    && m.snaps == l.snaps
    && forall k, g: nat :: 0 <= k < |l.snaps| ==>
        ReadAt(codec, m.SnapL1(k), m.tables, l.l2Size, now, g) ==
            ReadAt(codec, l.SnapL1(k), l.tables, l.l2Size, data, g)
  }

  lemma IsolatedChain<S(!new)>(codec: Codec<S>, l: Layout, data: map<Pos, S>, m: Layout, mid: map<Pos, S>,
        o: Layout, now: map<Pos, S>)
    requires codec.cs > 0 && o.l2Size == m.l2Size == l.l2Size > 0
    requires Isolated(codec, l, data, m, mid) && Isolated(codec, m, mid, o, now)
    ensures Isolated(codec, l, data, o, now)
  {
    forall k, g: nat | 0 <= k < |l.snaps|
      ensures ReadAt(codec, o.SnapL1(k), o.tables, l.l2Size, now, g) ==
        ReadAt(codec, l.SnapL1(k), l.tables, l.l2Size, data, g)
    {
      assert ReadAt(codec, m.SnapL1(k), m.tables, l.l2Size, mid, g) ==
        ReadAt(codec, l.SnapL1(k), l.tables, l.l2Size, data, g);
    }
  }

  /** One write after another, each where the one before stopped. */
  lemma OverlaidChain<S(!new)>(codec: Codec<S>, l: Layout, data: map<Pos, S>, m: Layout, mid: map<Pos, S>,
        o: Layout, now: map<Pos, S>,
                               sector: nat, vals: seq<S>, more: seq<S>)
    requires codec.cs > 0 && o.l2Size == m.l2Size == l.l2Size > 0
    requires Overlaid(codec, l, data, m, mid, sector, vals) && Overlaid(codec, m, mid, o, now, sector + |vals|, more)
    ensures Overlaid(codec, l, data, o, now, sector, vals + more)
  {
    forall g: nat
      ensures ReadAt(codec, o.l1, o.tables, l.l2Size, now, g) == Want(codec, l, data, sector, vals + more, g)
    {
      assert ReadAt(codec, m.l1, m.tables, l.l2Size, mid, g) == Want(codec, l, data, sector, vals, g);
      assert ReadAt(codec, o.l1, o.tables, l.l2Size, now, g) == Want(codec, m, mid, sector + |vals|, more, g);
    }
  }

  /** Walks and file unchanged: nothing written. */
  lemma TablesOnly<S(!new)>(codec: Codec<S>, l: Layout, m: Layout, data: map<Pos, S>, sector: nat)
    requires codec.cs > 0 && m.l2Size == l.l2Size > 0 && m.snaps == l.snaps
    requires SameWalks(l.l1, l.tables, m.l1, m.tables)
    requires forall k :: 0 <= k < |l.snaps| ==> SameWalks(l.SnapL1(k), l.tables, m.SnapL1(k), m.tables)
    ensures Overlaid(codec, l, data, m, data, sector, []) && Isolated(codec, l, data, m, data)
  {
    ReadsKept(codec, l.l1, l.tables, m.l1, m.tables, l.l2Size, data, data);
    forall k, g: nat | 0 <= k < |l.snaps|
      ensures ReadAt(codec, m.SnapL1(k), m.tables, l.l2Size, data, g) ==
        ReadAt(codec, l.SnapL1(k), l.tables, l.l2Size, data, g)
    {
      ReadsKept(codec, l.SnapL1(k), l.tables, m.SnapL1(k), m.tables, l.l2Size, data, data);
    }
  }

  lemma FreshWrite<S(!new)>(fill: Fill<S>, now: map<Pos, S>, m: Layout)
    requires fill.Ok() && fill.Holds(now, Mul(fill.gc, fill.codec.cs), Mul(fill.gc + fill.clusters, fill.codec.cs))
    requires m == WithRun(fill.l, Div(fill.gc, fill.l.l2Size), Mod(fill.gc, fill.l.l2Size), fill.h, fill.clusters)
    ensures Overlaid(fill.codec, fill.l, fill.was, m, now, fill.sector, fill.vals)
    ensures Isolated(fill.codec, fill.l, fill.was, m, now)
  {
    forall g: nat
      ensures ReadAt(fill.codec, m.l1, m.tables, fill.l.l2Size, now, g) ==
        Want(fill.codec, fill.l, fill.was, fill.sector, fill.vals, g)
    {
      fill.Done(now, m.tables, g);
    }
    FreshIsolated(fill, now, m);
  }

  lemma FreshIsolated<S(!new)>(fill: Fill<S>, now: map<Pos, S>, m: Layout)
    requires fill.Ok() && DiffersWithin(fill.codec, fill.was, now, fill.h, fill.clusters)
    requires m == WithRun(fill.l, Div(fill.gc, fill.l.l2Size), Mod(fill.gc, fill.l.l2Size), fill.h, fill.clusters)
    ensures Isolated(fill.codec, fill.l, fill.was, m, now)
  {
    var l := fill.l;
    RunTree(l, fill.rc, Div(fill.gc, l.l2Size), Mod(fill.gc, l.l2Size), fill.h, fill.clusters);
    forall k, g: nat | 0 <= k < |l.snaps|
      ensures ReadAt(fill.codec, m.SnapL1(k), m.tables, l.l2Size, now, g) ==
        ReadAt(fill.codec, l.SnapL1(k), l.tables, l.l2Size, fill.was, g)
    {
      FreshKeepsSnap(fill.codec, l, fill.rc, fill.was, now, fill.h, fill.clusters, k);
      ReadsKept(fill.codec, l.SnapL1(k), l.tables, m.SnapL1(k), m.tables, l.l2Size, fill.was, now);
    }
  }

  lemma OwnWrite<S(!new)>(codec: Codec<S>, l: Layout, rc: map<nat, nat>, data: map<Pos, S>, now: map<Pos, S>,
                          sector: nat, h: nat, c: nat, vals: seq<S>)
    requires codec.Lawful() && l.Sound(rc)
    requires OwnRun(l, Div(Div(sector, codec.cs), l.l2Size), Mod(Div(sector, codec.cs), l.l2Size), h, c)
    requires Mod(sector, codec.cs) + |vals| <= Mul(c, codec.cs)
    requires Put(codec, data, now, h, Div(sector, codec.cs), sector, Sealed(codec, sector, vals))
    ensures Overlaid(codec, l, data, l, now, sector, vals) && Isolated(codec, l, data, l, now)
  {
    forall g: nat
      ensures ReadAt(codec, l.l1, l.tables, l.l2Size, now, g) == Want(codec, l, data, sector, vals, g)
    {
      OwnReads(codec, l, rc, data, now, sector, h, c, vals, g);
    }
    var gc := Div(sector, codec.cs);
    assert sector + |vals| <= Mul(gc + c, codec.cs) by {
      Split(sector, codec.cs);
      MulAdd(gc, c, codec.cs);
    }
    PutDiffers(codec, data, data, now, h, gc, sector, Sealed(codec, sector, vals), c);
    forall k, g: nat | 0 <= k < |l.snaps|
      ensures ReadAt(codec, l.SnapL1(k), l.tables, l.l2Size, now, g) ==
        ReadAt(codec, l.SnapL1(k), l.tables, l.l2Size, data, g)
    {
      OwnKeepsSnap(codec, l, rc, data, now, Div(gc, l.l2Size), Mod(gc, l.l2Size), h, c, k);
      ReadsKept(codec, l.SnapL1(k), l.tables, l.SnapL1(k), l.tables, l.l2Size, data, now);
    }
  }
}
