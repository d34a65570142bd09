/**
 What is read through the active tables and through each snapshot after
 creating, applying or deleting a snapshot.  The file's data clusters are not
 touched by any of them, so it is enough to follow the walks.
 */
module Qcow2SnapshotReads {
  import opened Collections
  import opened Qcow2Tables
  import opened Qcow2Layout
  import opened Qcow2Snapshots
  import opened Qcow2Cow
  import opened Qcow2Goto
  import opened Qcow2Content
  import opened Sectors

  /** The first snapshots of m read as those of l. */
  ghost predicate SnapsWalk(l: Layout, m: Layout) {
    |l.snaps| <= |m.snaps| && forall k :: 0 <= k < |l.snaps| ==> SameWalks(l.SnapL1(k), l.tables, m.SnapL1(k), m.tables)
  }

  lemma ActivePassWalks(l: Layout, pass: Pass)
    requires l.TreesOk() && pass.l1 == l.l1 && pass.tables == l.tables
    ensures var m := AfterActivePass(l, pass);
      SameWalks(l.l1, l.tables, m.l1, m.tables) && SnapsWalk(l, m)
  {
    var m := AfterActivePass(l, pass);
    PassKeepsWalks(pass, l.l1, m.l1);
    forall k | 0 <= k < |l.snaps|
      ensures SameWalks(l.SnapL1(k), l.tables, m.SnapL1(k), m.tables)
    {
      PassKeepsWalks(pass, l.SnapL1(k), l.SnapL1(k));
    }
  }

  lemma SnapPassWalks(l: Layout, k: nat, pass: Pass)
    requires l.TreesOk() && k < |l.snaps| && pass.l1 == l.SnapL1(k) && pass.tables == l.tables
    ensures var m := AfterSnapPass(l, k, pass);
      SameWalks(l.l1, l.tables, m.l1, m.tables) && SnapsWalk(l, m)
  {
    var m := AfterSnapPass(l, k, pass);
    PassKeepsWalks(pass, l.l1, l.l1);
    forall j | 0 <= j < |l.snaps|
      ensures SameWalks(l.SnapL1(j), l.tables, m.SnapL1(j), m.tables)
    {
      PassKeepsWalks(pass, l.SnapL1(j), m.SnapL1(j));
    }
  }

  /** There is one more snapshot, which reads as the active image did; the rest as before. */
  ghost predicate CreatedWalks(l: Layout, p: Layout) {
    && |p.snaps| == |l.snaps| + 1 && SnapsWalk(l, p)
    && SameWalks(l.l1, l.tables, p.l1, p.tables) && SameWalks(l.l1, l.tables, p.SnapL1(|l.snaps|), p.tables)
  }

  ghost predicate CreatedReads<S(!new)>(codec: Codec<S>, data: map<Pos, S>, l: Layout, p: Layout)
    requires codec.cs > 0 && l.l2Size > 0
  {
    && |p.snaps| == |l.snaps| + 1 && SnapsRead(codec, data, l, p)
    && SameReads(codec, l.l2Size, data, l.l1, l.tables, p.l1, p.tables)
    && SameReads(codec, l.l2Size, data, l.l1, l.tables, p.SnapL1(|l.snaps|), p.tables)
  }

  lemma CreatedWalksAreReads<S(!new)>(codec: Codec<S>, data: map<Pos, S>, l: Layout, p: Layout)
    requires codec.cs > 0 && l.l2Size > 0 && CreatedWalks(l, p)
    ensures CreatedReads(codec, data, l, p)
  {
    WalksAreReads(codec, l.l2Size, data, l.l1, l.tables, p.l1, p.tables);
    WalksAreReads(codec, l.l2Size, data, l.l1, l.tables, p.SnapL1(|l.snaps|), p.tables);
    SnapWalksAreReads(codec, data, l, p);
  }

  /** Where the snapshot list is does not matter to what is read. */
  lemma CreatedListed<S(!new)>(codec: Codec<S>, data: map<Pos, S>, l: Layout, p: Layout, at: nat, n: nat)
    requires codec.cs > 0 && l.l2Size > 0 && CreatedReads(codec, data, l, p)
    ensures CreatedReads(codec, data, l, p.(snapAt := at, snapN := n))
  {
    var q := p.(snapAt := at, snapN := n);
    assert forall k :: 0 <= k < |p.snaps| ==> q.SnapL1(k) == p.SnapL1(k);
  }

  lemma CreateWalks(l: Layout, pass: Pass, a: nat, tag: Tag)
    requires l.TreesOk() && pass.l1 == l.l1 && pass.tables == l.tables
    requires a != l.l1At && forall k :: 0 <= k < |l.snaps| ==> l.snaps[k].at != a
    ensures CreatedWalks(l, WithSnapshot(AfterActivePass(l, pass), a, tag))
  {
    ActivePassWalks(l, pass);
    var p := AfterActivePass(l, pass);
    var m := WithSnapshot(p, a, tag);
    forall k | 0 <= k < |l.snaps|
      ensures SameWalks(l.SnapL1(k), l.tables, m.SnapL1(k), m.tables)
    {
      assert m.SnapL1(k) == p.SnapL1(k);
    }
  }

  /** A longer table changes no walk. */
  lemma GrownWalks(l: Layout, rc: map<nat, nat>, a: nat, n: nat)
    requires l.TreesOk() && l.Exact(rc) && Unused(rc, a, L1Clusters(|l.l1| + n, l.l2Size))
    ensures SameImage(l, Grown(l, a, n))
  {
    GrownApart(l, rc, a, n);
    GrownTrees(l, a, n);
    var m := Grown(l, a, n);
    forall k | 0 <= k < |l.snaps|
      ensures m.SnapOk(k) && SameWalks(l.SnapL1(k), l.tables, m.SnapL1(k), m.tables)
    {
      assert m.SnapL1(k) == l.SnapL1(k);
    }
  }

  /** The active image reads as snapshot k did; the snapshots as before. */
  ghost predicate GoneWalks(l: Layout, q: Layout, k: nat)
    requires k < |l.snaps|
  {
    q.snaps == l.snaps && SnapsWalk(l, q) && SameWalks(l.SnapL1(k), l.tables, q.l1, q.tables)
  }

  ghost predicate GoneReads<S(!new)>(codec: Codec<S>, data: map<Pos, S>, l: Layout, q: Layout, k: nat)
    requires codec.cs > 0 && l.l2Size > 0 && k < |l.snaps|
  {
    && q.snaps == l.snaps && SnapsRead(codec, data, l, q)
    && SameReads(codec, l.l2Size, data, l.SnapL1(k), l.tables, q.l1, q.tables)
  }

  lemma GoneWalksAreReads<S(!new)>(codec: Codec<S>, data: map<Pos, S>, l: Layout, q: Layout, k: nat)
    requires codec.cs > 0 && l.l2Size > 0 && k < |l.snaps| && GoneWalks(l, q, k)
    ensures GoneReads(codec, data, l, q, k)
  {
    WalksAreReads(codec, l.l2Size, data, l.SnapL1(k), l.tables, q.l1, q.tables);
    SnapWalksAreReads(codec, data, l, q);
  }

  /** x is the layout between the passes, with an active table of the right size. */
  lemma GotoWalks(l: Layout, m: Layout, x: Layout, k: nat, first: Pass, pass: Pass)
    requires l.TreesOk() && k < |l.snaps| && first.l1 == l.l1 && first.tables == l.tables &&
      m == AfterActivePass(l, first)
    requires x.TreesOk() && SameSnaps(m, x)
    requires pass.l1 == x.SnapL1(k) && pass.tables == x.tables
    ensures GoneWalks(l, AfterActivePass(Restored(x, k), pass), k)
  {
    ActivePassWalks(l, first);
    assert x.SnapOk(k);
    WithActiveKeeps(x, x.SnapL1(k));
    var p := Restored(x, k);
    ActivePassWalks(p, pass);
    var q := AfterActivePass(p, pass);
    WalksChain(l.SnapL1(k), l.tables, m.SnapL1(k), m.tables, q.l1, q.tables);
    forall j | 0 <= j < |l.snaps|
      ensures SameWalks(l.SnapL1(j), l.tables, q.SnapL1(j), q.tables)
    {
      assert p.SnapL1(j) == m.SnapL1(j);
      WalksChain(l.SnapL1(j), l.tables, m.SnapL1(j), m.tables, q.SnapL1(j), q.tables);
    }
  }

  /** The snapshot that is at place j once snapshot k is gone. */
  function Kept(k: nat, j: nat): nat {
    if j < k then j else j + 1
  }

  /** Snapshot k is gone; the active image and the others read as before. */
  ghost predicate DeletedWalks(l: Layout, o: Layout, k: nat)
    requires k < |l.snaps|
  {
    && o.snaps == Without(l.snaps, k) && SameWalks(l.l1, l.tables, o.l1, o.tables)
    && forall j :: 0 <= j < |o.snaps| ==> SameWalks(l.SnapL1(Kept(k, j)), l.tables, o.SnapL1(j), o.tables)
  }

  ghost predicate DeletedReads<S(!new)>(codec: Codec<S>, data: map<Pos, S>, l: Layout, o: Layout, k: nat)
    requires codec.cs > 0 && l.l2Size > 0 && k < |l.snaps|
  {
    && o.snaps == Without(l.snaps, k) && SameReads(codec, l.l2Size, data, l.l1, l.tables, o.l1, o.tables)
    && forall j :: 0 <= j < |o.snaps| ==>
        SameReads(codec, l.l2Size, data, l.SnapL1(Kept(k, j)), l.tables, o.SnapL1(j), o.tables)
  }

  lemma DeletedWalksAreReads<S(!new)>(codec: Codec<S>, data: map<Pos, S>, l: Layout, o: Layout, k: nat)
    requires codec.cs > 0 && l.l2Size > 0 && k < |l.snaps| && DeletedWalks(l, o, k)
    ensures DeletedReads(codec, data, l, o, k)
  {
    WalksAreReads(codec, l.l2Size, data, l.l1, l.tables, o.l1, o.tables);
    forall j | 0 <= j < |o.snaps|
      ensures SameReads(codec, l.l2Size, data, l.SnapL1(Kept(k, j)), l.tables, o.SnapL1(j), o.tables)
    {
      WalksAreReads(codec, l.l2Size, data, l.SnapL1(Kept(k, j)), l.tables, o.SnapL1(j), o.tables);
    }
  }

  lemma DeletedListed<S(!new)>(codec: Codec<S>, data: map<Pos, S>, l: Layout, o: Layout, k: nat, at: nat, n: nat)
    requires codec.cs > 0 && l.l2Size > 0 && k < |l.snaps| && DeletedReads(codec, data, l, o, k)
    ensures DeletedReads(codec, data, l, o.(snapAt := at, snapN := n), k)
  {
    var q := o.(snapAt := at, snapN := n);
    assert forall j :: 0 <= j < |o.snaps| ==> q.SnapL1(j) == o.SnapL1(j);
  }

  lemma DeleteWalks(l: Layout, rc: map<nat, nat>, mid: map<nat, nat>, k: nat)
    requires l.TreesOk() && k < |l.snaps|
    ensures DeletedWalks(l, AfterPasses(l, rc, mid, k).(snaps := Without(l.snaps, k)), k)
  {
    var first := Pass(rc, -1, l.SnapL1(k), l.tables);
    var m := AfterSnapPass(l, k, first);
    SnapPassKeeps(l, k, first);
    SnapPassWalks(l, k, first);
    var n := AfterPasses(l, rc, mid, k);
    ActivePassWalks(m, Pass(mid, 0, m.l1, m.tables));
    WalksChain(l.l1, l.tables, m.l1, m.tables, n.l1, n.tables);
    var o := n.(snaps := Without(l.snaps, k));
    forall j | 0 <= j < |o.snaps|
      ensures SameWalks(l.SnapL1(Kept(k, j)), l.tables, o.SnapL1(j), o.tables)
    {
      var y := Kept(k, j);
      assert o.SnapL1(j) == n.SnapL1(y);
      WalksChain(l.SnapL1(y), l.tables, m.SnapL1(y), m.tables, n.SnapL1(y), n.tables);
    }
  }
}
