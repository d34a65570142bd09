/**
 What creating and deleting a snapshot do to a layout: each keeps it sound,
 that is, keeps every count equal to the number of references and every COPIED
 flag of the active tables equal to "the count is one".  Creating one does so
 if and only if no cluster of the active tree has as many references as a
 count can say.
 */
module Qcow2Snapshots {
  import opened Collections
  import opened Qcow2Tables
  import opened Qcow2Layout

  /** n unused clusters from at. */
  ghost predicate Unused(rc: map<nat, nat>, at: nat, n: nat) {
    forall c: nat :: Within(at, n, c) ==> Rc(rc, c) == 0
  }

  /** The counts after one more reference to each of n clusters from at. */
  ghost predicate Added(rc: map<nat, nat>, now: map<nat, nat>, at: nat, n: nat) {
    forall c: nat :: Rc(now, c) == Rc(rc, c) + One(Within(at, n, c))
  }

  /** The counts after a pass. */
  ghost predicate Counted(pass: Pass, now: map<nat, nat>) {
    && (forall c: nat :: c != 0 ==> Rc(now, c) == pass.Final(c))
    && Rc(now, 0) == Rc(pass.rc, 0)
  }

  ghost function TreeSum(l1: Table, tables: map<nat, Table>, c: nat): nat {
    TreeRefs(Level2, l1, tables, c) + TreeRefs(GuestData, l1, tables, c)
  }

  lemma CountedIs(pass: Pass, now: map<nat, nat>, c: nat)
    requires Counted(pass, now) && (c != 0 ==> pass.InRange(c))
    ensures Rc(now, c) == Rc(pass.rc, c) + Times(pass.addend, TreeSum(pass.l1, pass.tables, c))
  {
  }

  /** A cluster unused after references were added was so before. */
  lemma UnusedBefore(pass: Pass, now: map<nat, nat>, c: nat)
    requires Counted(pass, now) && pass.addend >= 0 && Rc(now, c) == 0
    ensures Rc(pass.rc, c) == 0
  {
  }

  /** A cluster that the tree does not refer to keeps its count. */
  lemma CountKept(pass: Pass, now: map<nat, nat>, c: nat)
    requires Counted(pass, now) && TreeSum(pass.l1, pass.tables, c) == 0
    ensures Rc(now, c) == Rc(pass.rc, c)
  {
  }

  /** References of the active tree, taken away or looked up, leave counts in range. */
  lemma ActiveInRange(l: Layout, rc: map<nat, nat>, addend: int, c: nat)
    requires l.TreesOk() && l.Exact(rc) && -1 <= addend <= 0 && c != 0
    ensures Pass(rc, addend, l.l1, l.tables).InRange(c)
  {
    assert l.CountedRight(rc, c);
  }

  /** So do those of a snapshot. */
  lemma SnapInRange(l: Layout, rc: map<nat, nat>, k: nat, c: nat)
    requires l.TreesOk() && l.Exact(rc) && k < |l.snaps| && c != 0
    ensures Pass(rc, -1, l.SnapL1(k), l.tables).InRange(c)
  {
    assert l.CountedRight(rc, c);
    l.SnapShare(k, c);
    assert l.SnapRefs(Level2, k, c) <= l.Refs(Level2, c) && l.SnapRefs(GuestData, k, c) <= l.Refs(GuestData, c);
  }

  /** More references to a cluster than a count can say. */
  ghost predicate Overflows(l: Layout, c: nat)
    requires l.l2Size > 0
  {
    l.Refs(Level2, c) + l.Refs(GuestData, c) > 0xffff
  }

  ghost predicate Overfull(l: Layout) {
    l.l2Size > 0 && exists c: nat :: Overflows(l, c)
  }

  lemma OverfullIsUnsound(l: Layout, rc: map<nat, nat>)
    requires Overfull(l)
    ensures !l.Sound(rc)
  {
    var c: nat :| Overflows(l, c);
    assert !l.CountedRight(rc, c);
  }

  // ----- the snapshot list

  lemma SnapListMoves(l: Layout, rc: map<nat, nat>, mid: map<nat, nat>, now: map<nat, nat>, at: nat, n: nat)
    requires l.Sound(rc) && Unused(rc, at, n) && Added(rc, mid, at, n) && Added(now, mid, l.snapAt, l.snapN)
    ensures l.(snapAt := at, snapN := n).Sound(now)
  {
    var m := l.(snapAt := at, snapN := n);
    forall k | 0 <= k < |l.snaps|
      ensures m.SnapOk(k)
    {
      assert l.SnapOk(k);
    }
    forall c: nat
      ensures m.CountedRight(now, c) && m.OneUse(c) && m.ActiveSame(rc, now, c)
    {
      assert l.CountedRight(rc, c) && l.OneUse(c);
      forall kind
        ensures m.SnapsRefs(kind, |m.snaps|, c) == l.SnapsRefs(kind, |l.snaps|, c)
      {
        SnapsRefsSame(l, m, kind, |l.snaps|, c);
      }
      if Within(at, n, c) {
        l.Unreferenced(rc, c);
      }
    }
    m.FlagsDepend(rc, now);
  }

  lemma SnapListOverfull(l: Layout, at: nat, n: nat)
    requires Overfull(l)
    ensures Overfull(l.(snapAt := at, snapN := n))
  {
    var c: nat :| Overflows(l, c);
    var m := l.(snapAt := at, snapN := n);
    SnapsRefsSame(l, m, Level2, |l.snaps|, c);
    SnapsRefsSame(l, m, GuestData, |l.snaps|, c);
    assert Overflows(m, c);
  }

  // ----- create

  /** Every cluster of the tree can be counted once more. */
  ghost predicate CanCount(rc: map<nat, nat>, l1: Table, tables: map<nat, Table>) {
    forall c: nat :: TreeSum(l1, tables, c) >= 1 ==> Rc(rc, c) < 0xffff
  }

  /** The layout with a snapshot of its active tree added, its level-1 table at a. */
  ghost function WithSnapshot(l: Layout, a: nat, tag: Tag): Layout {
    l.(disk := l.disk[a := l.l1], snaps := l.snaps + [Snapshot(a, |l.l1|, tag)])
  }

  lemma WithSnapshotRefs(l: Layout, a: nat, tag: Tag, kind: Kind, c: nat)
    requires l.TreesOk() && a != l.l1At && forall k :: 0 <= k < |l.snaps| ==> l.snaps[k].at != a
    ensures var p := WithSnapshot(l, a, tag);
      p.Refs(kind, c) == l.Refs(kind, c) +
        if kind == Metadata then One(Within(a, L1Clusters(|l.l1|, l.l2Size), c)) else TreeRefs(kind, l.l1, l.tables, c)
  {
    var p := WithSnapshot(l, a, tag);
    SnapsRefsSame(l, p, kind, |l.snaps|, c);
  }

  lemma WithSnapshotTrees(l: Layout, a: nat, tag: Tag)
    requires l.TreesOk() && a != l.l1At && forall k :: 0 <= k < |l.snaps| ==> l.snaps[k].at != a
    ensures WithSnapshot(l, a, tag).TreesOk()
  {
    var p := WithSnapshot(l, a, tag);
    forall k | 0 <= k < |p.snaps|
      ensures p.SnapOk(k)
    {
      assert k < |l.snaps| ==> l.SnapOk(k);
    }
  }

  /** Clusters no one refers to are not where a level-1 table starts. */
  lemma FreshStart(l: Layout, rc: map<nat, nat>, a: nat)
    requires l.TreesOk() && l.Exact(rc) && Rc(rc, a) == 0
    ensures a != l.l1At && a != 0 && forall k :: 0 <= k < |l.snaps| ==> l.snaps[k].at != a
  {
    l.Unreferenced(rc, a);
    L1ClustersPositive(|l.l1|, l.l2Size);
    assert l.ActiveRefs(Metadata, a) == 0;
    forall k | 0 <= k < |l.snaps|
      ensures l.snaps[k].at != a
    {
      assert l.SnapOk(k);
      L1ClustersPositive(l.snaps[k].size, l.l2Size);
      assert l.SnapRefs(Metadata, k, a) == 0;
    }
  }

  /** Creating a snapshot: a pass adding one over the active tree, then a copy
      of the level-1 table in new clusters. */
  lemma CreateIsSound(l: Layout, rc: map<nat, nat>, mid: map<nat, nat>, now: map<nat, nat>, a: nat, tag: Tag)
    requires l.Sound(rc) && CanCount(rc, l.l1, l.tables)
    requires Counted(Pass(rc, 1, l.l1, l.tables), mid)
    requires Unused(mid, a, L1Clusters(|l.l1|, l.l2Size)) && Added(mid, now, a, L1Clusters(|l.l1|, l.l2Size))
    ensures WithSnapshot(AfterActivePass(l, Pass(rc, 1, l.l1, l.tables)), a, tag).Sound(now)
  {
    var pass := Pass(rc, 1, l.l1, l.tables);
    var m := AfterActivePass(l, pass);
    ActivePassKeeps(l, pass);
    NewTableApart(l, rc, mid, a);
    WithSnapshotTrees(m, a, tag);
    var p := WithSnapshot(m, a, tag);
    forall c: nat
      ensures p.CountedRight(now, c) && p.OneUse(c) && p.ActiveSame(mid, now, c)
    {
      CreateCounts(l, rc, mid, now, a, tag, c);
    }
    PassSetsFlags(l, pass, mid);
    assert p.FlagsOk(mid);
    p.FlagsDepend(mid, now);
  }

  /** With a cluster that cannot be counted once more, it overflows. */
  lemma CreateOverfills(l: Layout, rc: map<nat, nat>, mid: map<nat, nat>, a: nat, tag: Tag)
    requires l.Sound(rc) && !CanCount(rc, l.l1, l.tables)
    requires Counted(Pass(rc, 1, l.l1, l.tables), mid) && Unused(mid, a, L1Clusters(|l.l1|, l.l2Size))
    ensures Overfull(WithSnapshot(AfterActivePass(l, Pass(rc, 1, l.l1, l.tables)), a, tag))
  {
    var c: nat :| TreeSum(l.l1, l.tables, c) >= 1 && Rc(rc, c) >= 0xffff;
    NewTableApart(l, rc, mid, a);
    assert l.CountedRight(rc, c) && l.OneUse(c);
    CreateRefs(l, rc, a, tag, Level2, c);
    CreateRefs(l, rc, a, tag, GuestData, c);
    assert Overflows(WithSnapshot(AfterActivePass(l, Pass(rc, 1, l.l1, l.tables)), a, tag), c);
  }

  /** The created layout is sound, or overfull, according to a condition on the one before. */
  ghost predicate CreatedSound(l: Layout, rc: map<nat, nat>, p: Layout, now: map<nat, nat>) {
    if CanCount(rc, l.l1, l.tables) then p.Sound(now) else Overfull(p)
  }

  lemma CreateIff(l: Layout, rc: map<nat, nat>, mid: map<nat, nat>, now: map<nat, nat>, a: nat, tag: Tag)
    requires l.Sound(rc) && Counted(Pass(rc, 1, l.l1, l.tables), mid)
    requires Unused(mid, a, L1Clusters(|l.l1|, l.l2Size)) && Added(mid, now, a, L1Clusters(|l.l1|, l.l2Size))
    ensures CreatedSound(l, rc, WithSnapshot(AfterActivePass(l, Pass(rc, 1, l.l1, l.tables)), a, tag), now)
  {
    if CanCount(rc, l.l1, l.tables) {
      CreateIsSound(l, rc, mid, now, a, tag);
    } else {
      CreateOverfills(l, rc, mid, a, tag);
    }
  }

  /** The clusters for a snapshot's level-1 table are not those of another. */
  lemma NewTableApart(l: Layout, rc: map<nat, nat>, mid: map<nat, nat>, a: nat)
    requires l.TreesOk() && l.Exact(rc) && Counted(Pass(rc, 1, l.l1, l.tables), mid)
    requires Unused(mid, a, L1Clusters(|l.l1|, l.l2Size))
    ensures a != l.l1At && forall k :: 0 <= k < |l.snaps| ==> l.snaps[k].at != a
  {
    L1ClustersPositive(|l.l1|, l.l2Size);
    assert Within(a, L1Clusters(|l.l1|, l.l2Size), a);
    UnusedBefore(Pass(rc, 1, l.l1, l.tables), mid, a);
    FreshStart(l, rc, a);
  }

  lemma CreateRefs(l: Layout, rc: map<nat, nat>, a: nat, tag: Tag, kind: Kind, c: nat)
    requires l.TreesOk() && a != l.l1At && forall k :: 0 <= k < |l.snaps| ==> l.snaps[k].at != a
    ensures var p := WithSnapshot(AfterActivePass(l, Pass(rc, 1, l.l1, l.tables)), a, tag);
      && p.l2Size > 0
      && TreeRefs(kind, p.l1, p.tables, c) == TreeRefs(kind, l.l1, l.tables, c)
      && p.Refs(kind, c) == l.Refs(kind, c) + TreeRefs(kind, l.l1, l.tables, c) +
          if kind == Metadata then One(Within(a, L1Clusters(|l.l1|, l.l2Size), c)) else 0
  {
    var pass := Pass(rc, 1, l.l1, l.tables);
    var m := AfterActivePass(l, pass);
    ActivePassKeeps(l, pass);
    assert SameRefs(m, l, c);
    PassKeepsRefs(pass, kind, l.l1, m.l1, c);
    WithSnapshotRefs(m, a, tag, kind, c);
  }

  lemma CreateCounts(l: Layout, rc: map<nat, nat>, mid: map<nat, nat>, now: map<nat, nat>, a: nat, tag: Tag, c: nat)
    requires l.TreesOk() && l.Exact(rc) && CanCount(rc, l.l1, l.tables)
    requires Counted(Pass(rc, 1, l.l1, l.tables), mid)
    requires Unused(mid, a, L1Clusters(|l.l1|, l.l2Size)) && Added(mid, now, a, L1Clusters(|l.l1|, l.l2Size))
    requires a != l.l1At && forall k :: 0 <= k < |l.snaps| ==> l.snaps[k].at != a
    ensures var p := WithSnapshot(AfterActivePass(l, Pass(rc, 1, l.l1, l.tables)), a, tag);
      p.l2Size > 0 && p.CountedRight(now, c) && p.OneUse(c) && p.ActiveSame(mid, now, c)
  {
    assert l.CountedRight(rc, c) && l.OneUse(c);
    CreateInRange(l, rc, c);
    CountedIs(Pass(rc, 1, l.l1, l.tables), mid, c);
    CreateRefs(l, rc, a, tag, Metadata, c);
    CreateRefs(l, rc, a, tag, Level2, c);
    CreateRefs(l, rc, a, tag, GuestData, c);
    if Within(a, L1Clusters(|l.l1|, l.l2Size), c) {
      UnusedBefore(Pass(rc, 1, l.l1, l.tables), mid, c);
      l.Unreferenced(rc, c);
    }
  }

  lemma CreateInRange(l: Layout, rc: map<nat, nat>, c: nat)
    requires l.TreesOk() && l.Exact(rc) && CanCount(rc, l.l1, l.tables)
    ensures c != 0 ==> Pass(rc, 1, l.l1, l.tables).InRange(c)
    ensures Rc(rc, c) + TreeSum(l.l1, l.tables, c) <= 0xffff
  {
    assert l.CountedRight(rc, c);
    if c != 0 {
      assert Single(l.l1, l.tables, c);
    }
  }

  // ----- delete

  lemma {:induction false} SnapsRefsDrop(l: Layout, k: nat, kind: Kind, n: nat, c: nat)
    requires l.l2Size > 0 && k < n <= |l.snaps|
    ensures l.(snaps := Without(l.snaps, k)).SnapsRefs(kind, n - 1, c) + l.SnapRefs(kind, k, c) ==
      l.SnapsRefs(kind, n, c)
    decreases n
  {
    var m := l.(snaps := Without(l.snaps, k));
    if n == k + 1 {
      SnapsRefsSame(l, m, kind, k, c);
    } else {
      SnapsRefsDrop(l, k, kind, n - 1, c);
      assert m.snaps[n - 2] == l.snaps[n - 1];
    }
  }

  lemma DropTrees(l: Layout, k: nat)
    requires l.TreesOk() && k < |l.snaps|
    ensures l.(snaps := Without(l.snaps, k)).TreesOk()
  {
    var m := l.(snaps := Without(l.snaps, k));
    forall j | 0 <= j < |m.snaps|
      ensures m.SnapOk(j)
    {
      assert l.SnapOk(if j < k then j else j + 1);
    }
  }

  /** The layout after the passes of a deletion: one taking the snapshot's
      references away, one redoing the flags of the active tree. */
  ghost function AfterPasses(l: Layout, rc: map<nat, nat>, mid: map<nat, nat>, k: nat): Layout
    requires k < |l.snaps|
  {
    var m := AfterSnapPass(l, k, Pass(rc, -1, l.SnapL1(k), l.tables));
    AfterActivePass(m, Pass(mid, 0, m.l1, m.tables))
  }

  lemma AfterPassesKeep(l: Layout, rc: map<nat, nat>, mid: map<nat, nat>, k: nat)
    requires l.TreesOk() && k < |l.snaps|
    ensures AfterPasses(l, rc, mid, k).TreesOk()
    ensures forall c: nat :: SameRefs(AfterPasses(l, rc, mid, k), l, c)
    ensures forall c: nat :: DeletedSame(l, rc, mid, k, c)
  {
    var first := Pass(rc, -1, l.SnapL1(k), l.tables);
    var m := AfterSnapPass(l, k, first);
    SnapPassKeeps(l, k, first);
    var second := Pass(mid, 0, m.l1, m.tables);
    var n := AfterPasses(l, rc, mid, k);
    ActivePassKeeps(m, second);
    forall c: nat
      ensures SameRefs(n, l, c)
    {
      assert SameRefs(m, l, c) && SameRefs(n, m, c);
    }
    forall c: nat, kind
      ensures n.SnapRefs(kind, k, c) == l.SnapRefs(kind, k, c)
    {
      PassKeepsRefs(first, kind, l.SnapL1(k), m.SnapL1(k), c);
      PassKeepsRefs(second, kind, m.SnapL1(k), m.SnapL1(k), c);
    }
  }

  ghost predicate DeletedSame(l: Layout, rc: map<nat, nat>, mid: map<nat, nat>, k: nat, c: nat)
    requires l.l2Size > 0 && k < |l.snaps|
  {
    forall kind :: AfterPasses(l, rc, mid, k).SnapRefs(kind, k, c) == l.SnapRefs(kind, k, c)
  }

  lemma DeletePassOk(l: Layout, rc: map<nat, nat>, mid: map<nat, nat>, k: nat)
    requires l.TreesOk() && k < |l.snaps|
    ensures Pass(rc, -1, l.SnapL1(k), l.tables).Ok(l.l2Size)
    ensures var m := AfterSnapPass(l, k, Pass(rc, -1, l.SnapL1(k), l.tables));
      Pass(mid, 0, m.l1, m.tables).Ok(l.l2Size)
  {
    assert l.SnapOk(k);
    SnapPassKeeps(l, k, Pass(rc, -1, l.SnapL1(k), l.tables));
  }

  lemma DeleteRefs(l: Layout, rc: map<nat, nat>, mid: map<nat, nat>, k: nat, kind: Kind, c: nat)
    requires l.TreesOk() && k < |l.snaps|
    ensures var o := AfterPasses(l, rc, mid, k).(snaps := Without(l.snaps, k));
      && o.l2Size > 0
      && o.Refs(kind, c) + l.SnapRefs(kind, k, c) == l.Refs(kind, c)
      && o.ActiveRefs(kind, c) <= o.Refs(kind, c)
  {
    var n := AfterPasses(l, rc, mid, k);
    AfterPassesKeep(l, rc, mid, k);
    assert SameRefs(n, l, c) && DeletedSame(l, rc, mid, k, c);
    SnapsRefsDrop(n, k, kind, |n.snaps|, c);
  }

  lemma DeleteCounts(l: Layout, rc: map<nat, nat>, mid: map<nat, nat>, now: map<nat, nat>, k: nat, c: nat)
    requires l.TreesOk() && l.Exact(rc) && k < |l.snaps|
    requires Counted(Pass(rc, -1, l.SnapL1(k), l.tables), mid)
    requires Added(now, mid, l.snaps[k].at, L1Clusters(l.snaps[k].size, l.l2Size))
    ensures var o := AfterPasses(l, rc, mid, k).(snaps := Without(l.snaps, k));
      o.l2Size > 0 && o.CountedRight(now, c) && o.OneUse(c) && o.ActiveSame(mid, now, c)
  {
    assert l.CountedRight(rc, c) && l.OneUse(c);
    if c != 0 {
      SnapInRange(l, rc, k, c);
    }
    CountedIs(Pass(rc, -1, l.SnapL1(k), l.tables), mid, c);
    DeleteRefs(l, rc, mid, k, Metadata, c);
    DeleteRefs(l, rc, mid, k, Level2, c);
    DeleteRefs(l, rc, mid, k, GuestData, c);
  }

  /** Deleting snapshot k, up to rewriting the snapshot list. */
  lemma DeleteIsSound(l: Layout, rc: map<nat, nat>, mid: map<nat, nat>, now: map<nat, nat>, k: nat)
    requires l.Sound(rc) && k < |l.snaps|
    requires Counted(Pass(rc, -1, l.SnapL1(k), l.tables), mid)
    requires Added(now, mid, l.snaps[k].at, L1Clusters(l.snaps[k].size, l.l2Size))
    ensures AfterPasses(l, rc, mid, k).(snaps := Without(l.snaps, k)).Sound(now)
  {
    var first := Pass(rc, -1, l.SnapL1(k), l.tables);
    var n := AfterPasses(l, rc, mid, k);
    AfterPassesKeep(l, rc, mid, k);
    DropTrees(n, k);
    var o := n.(snaps := Without(l.snaps, k));
    forall c: nat
      ensures o.CountedRight(now, c) && o.OneUse(c) && o.ActiveSame(mid, now, c)
    {
      DeleteCounts(l, rc, mid, now, k, c);
    }
    var m := AfterSnapPass(l, k, first);
    SnapPassKeeps(l, k, first);
    PassSetsFlags(m, Pass(mid, 0, m.l1, m.tables), mid);
    assert o.FlagsOk(mid);
    o.FlagsDepend(mid, now);
  }
}
