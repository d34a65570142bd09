/**
 Changes of the active level-1 table: grow_l1_table moves it to new clusters
 with more entries, and going to a snapshot empties it, makes it as long as the
 snapshot's and puts the snapshot's entries in.  Each keeps the layout sound.

 The second changes the size in memory and not in the file.  So clusters of
 the longer table are lost: they stay counted, and no one refers to them; and
 the file's table has entries past the end of the one in memory.
 */
module Qcow2Goto {
  import opened Division
  import opened Qcow2Tables
  import opened Qcow2Layout
  import opened Qcow2Snapshots

  // ----- how long a table grows

  /** The size grow_l1_table tries after n. */
  function Larger(n: nat): nat {
    (n * 3 + 1) / 2
  }

  /** The size after k tries from n. */
  ghost function Tried(n: nat, k: nat): nat {
    if k == 0 then n else Larger(Tried(n, k - 1))
  }

  lemma {:induction false} TriedGrows(n: nat, k: nat)
    requires n > 0
    ensures Tried(n, k) >= n + k
  {
    if k > 0 {
      TriedGrows(n, k - 1);
    }
  }

  lemma {:induction false} TriedStays(k: nat)
    ensures Tried(0, k) == 0
  {
    if k > 0 {
      TriedStays(k - 1);
    }
  }

  /** The loop of grow_l1_table ends if and only if the table has an entry. */
  lemma GrowthEnds(n: nat, min: nat)
    requires n < min
    ensures (exists k: nat :: Tried(n, k) >= min) <==> n > 0
  {
    if n > 0 {
      TriedGrows(n, min);
    } else {
      forall k: nat
        ensures Tried(n, k) < min
      {
        TriedStays(k);
      }
    }
  }

  /** size is one and a half times n, rounded up. */
  ghost predicate HalfMore(n: nat, size: nat) {
    2 * size - 1 <= 3 * n <= 2 * size
  }

  /** The loop: the first size that is enough. */
  method NewSize(n: nat, min: nat) returns (size: nat)
    requires n > 0 || min == 0
    ensures size >= min && size >= n
    ensures exists k: nat :: size == Tried(n, k) && forall i: nat :: i < k ==> Tried(n, i) < min
    ensures if min <= n then size == n else exists last: nat :: HalfMore(last, size) && n <= last < min
  {
    size := n;
    ghost var k: nat := 0;
    while min > size
      invariant size >= n && size == Tried(n, k) && forall i: nat :: i < k ==> Tried(n, i) < min
      invariant size == n || exists last: nat :: HalfMore(last, size) && n <= last < min
      decreases min - size
    {
      ghost var last := size;
      size := (size * 3 + 1) / 2;
      assert HalfMore(last, size);
      k := k + 1;
    }
  }

  /** The same snapshots, and the same tables under them. */
  ghost predicate SameSnaps(l: Layout, m: Layout) {
    && m.snaps == l.snaps && m.l2Size == l.l2Size && m.tables == l.tables
    && forall j :: 0 <= j < |l.snaps| ==> m.SnapL1(j) == l.SnapL1(j)
  }

  // ----- a longer table

  /** The layout with n unmapped entries added to the active table, now at a. */
  ghost function Grown(l: Layout, a: nat, n: nat): Layout {
    var l1 := l.l1 + Zeros(n);
    l.(l1At := a, l1 := l1, disk := (l.disk - {l.l1At})[a := l1])
  }

  /** Unmapped entries at the end of a table make no references. */
  lemma {:induction false} ZerosAdd(l1: Table, n: nat, tables: map<nat, Table>, c: nat)
    ensures SumTables(l1 + Zeros(n), tables, c) == SumTables(l1, tables, c)
    ensures c != 0 ==> CountTable(l1 + Zeros(n), c) == CountTable(l1, c)
  {
    if n == 0 {
      assert l1 + Zeros(0) == l1;
    } else {
      var m := l1 + Zeros(n);
      assert m[..|m| - 1] == l1 + Zeros(n - 1);
      ZerosAdd(l1, n - 1, tables, c);
    }
  }

  lemma ZerosAddTree(l1: Table, n: nat, tables: map<nat, Table>, l2Size: nat)
    requires TreeOk(l1, tables, l2Size)
    ensures TreeOk(l1 + Zeros(n), tables, l2Size)
    ensures forall kind, c: nat :: TreeRefs(kind, l1 + Zeros(n), tables, c) == TreeRefs(kind, l1, tables, c)
  {
    forall c: nat
      ensures SumTables(l1 + Zeros(n), tables, c) == SumTables(l1, tables, c)
      ensures c != 0 ==> CountTable(l1 + Zeros(n), c) == CountTable(l1, c)
    {
      ZerosAdd(l1, n, tables, c);
    }
    forall c: nat | c != 0
      ensures Single(l1 + Zeros(n), tables, c)
    {
      assert Single(l1, tables, c);
    }
  }

  /** What moving the table does to the counts: new clusters taken, then the old ones given back. */
  ghost predicate Moved(l: Layout, rc: map<nat, nat>, mid: map<nat, nat>, now: map<nat, nat>, a: nat, n: nat)
    requires l.l2Size > 0
  {
    var size := L1Clusters(|l.l1| + n, l.l2Size);
    Unused(rc, a, size) && Added(rc, mid, a, size) && Added(now, mid, l.l1At, L1Clusters(|l.l1|, l.l2Size))
  }

  /** Unused clusters are not where a snapshot's table starts. */
  lemma GrownApart(l: Layout, rc: map<nat, nat>, a: nat, n: nat)
    requires l.TreesOk() && l.Exact(rc) && Unused(rc, a, L1Clusters(|l.l1| + n, l.l2Size))
    ensures forall k :: 0 <= k < |l.snaps| ==> l.snaps[k].at != a
  {
    L1ClustersPositive(|l.l1| + n, l.l2Size);
    assert Within(a, L1Clusters(|l.l1| + n, l.l2Size), a);
    FreshStart(l, rc, a);
  }

  lemma GrownTrees(l: Layout, a: nat, n: nat)
    requires l.TreesOk() && forall k :: 0 <= k < |l.snaps| ==> l.snaps[k].at != a
    ensures Grown(l, a, n).TreesOk()
    ensures forall kind, c: nat :: Grown(l, a, n).SnapsRefs(kind, |l.snaps|, c) == l.SnapsRefs(kind, |l.snaps|, c)
    ensures forall k :: 0 <= k < |l.snaps| ==> Grown(l, a, n).SnapL1(k) == l.SnapL1(k)
  {
    ZerosAddTree(l.l1, n, l.tables, l.l2Size);
    var m := Grown(l, a, n);
    forall k | 0 <= k < |l.snaps|
      ensures m.SnapOk(k) && m.SnapL1(k) == l.SnapL1(k)
    {
      assert l.SnapOk(k);
    }
    forall kind, c: nat
      ensures m.SnapsRefs(kind, |l.snaps|, c) == l.SnapsRefs(kind, |l.snaps|, c)
    {
      SnapsRefsSame(l, m, kind, |l.snaps|, c);
    }
  }

  lemma GrownCounts(l: Layout, rc: map<nat, nat>, mid: map<nat, nat>, now: map<nat, nat>, a: nat, n: nat, c: nat)
    requires l.TreesOk() && l.Exact(rc) && Moved(l, rc, mid, now, a, n)
    ensures var m := Grown(l, a, n);
      m.CountedRight(now, c) && m.OneUse(c) && m.ActiveSame(rc, now, c)
  {
    var m := Grown(l, a, n);
    GrownApart(l, rc, a, n);
    GrownTrees(l, a, n);
    assert l.CountedRight(rc, c) && l.OneUse(c);
    ZerosAdd(l.l1, n, l.tables, c);
    assert m.ActiveRefs(Level2, c) == l.ActiveRefs(Level2, c) &&
      m.ActiveRefs(GuestData, c) == l.ActiveRefs(GuestData, c);
    if Within(a, L1Clusters(|m.l1|, l.l2Size), c) {
      l.Unreferenced(rc, c);
    }
    assert m.SnapsRefs(Metadata, |l.snaps|, c) == l.SnapsRefs(Metadata, |l.snaps|, c);
    assert m.Refs(Level2, c) == l.Refs(Level2, c) && m.Refs(GuestData, c) == l.Refs(GuestData, c);
  }

  /** grow_l1_table keeps the layout sound. */
  lemma GrownIsSound(l: Layout, rc: map<nat, nat>, mid: map<nat, nat>, now: map<nat, nat>, a: nat, n: nat)
    requires l.Sound(rc) && Moved(l, rc, mid, now, a, n)
    ensures Grown(l, a, n).Sound(now)
  {
    var m := Grown(l, a, n);
    GrownApart(l, rc, a, n);
    GrownTrees(l, a, n);
    forall c: nat
      ensures m.CountedRight(now, c) && m.OneUse(c) && m.ActiveSame(rc, now, c)
    {
      GrownCounts(l, rc, mid, now, a, n, c);
    }
    assert m.FlagsOk(rc);
    m.FlagsDepend(rc, now);
  }

  // ----- going to a snapshot

  /** The layout with the active table set to l1, in memory and in the file. */
  ghost function WithActive(l: Layout, l1: Table): Layout {
    l.(l1 := l1, disk := l.disk[l.l1At := l1])
  }

  /** The layout with nothing mapped in the active table. */
  ghost function Emptied(l: Layout): Layout {
    WithActive(l, Zeros(|l.l1|))
  }

  /** Another active table leaves the snapshots alone. */
  lemma WithActiveKeeps(l: Layout, l1: Table)
    requires l.TreesOk() && |l1| > 0 && TreeOk(l1, l.tables, l.l2Size)
    ensures WithActive(l, l1).TreesOk()
    ensures forall k :: 0 <= k < |l.snaps| ==> WithActive(l, l1).SnapL1(k) == l.SnapL1(k)
    ensures forall kind, c: nat :: WithActive(l, l1).SnapsRefs(kind, |l.snaps|, c) == l.SnapsRefs(kind, |l.snaps|, c)
  {
    var p := WithActive(l, l1);
    forall j | 0 <= j < |l.snaps|
      ensures p.SnapOk(j)
    {
      assert l.SnapOk(j);
    }
    forall kind, c: nat
      ensures p.SnapsRefs(kind, |l.snaps|, c) == l.SnapsRefs(kind, |l.snaps|, c)
    {
      SnapsRefsSame(l, p, kind, |l.snaps|, c);
    }
  }

  lemma EmptyRefs(n: nat, tables: map<nat, Table>, kind: Kind, c: nat)
    ensures TreeRefs(kind, Zeros(n), tables, c) == 0
  {
    EmptyTree(n, tables, c);
  }

  /** Once its references are taken away, the active table may as well be empty. */
  lemma EmptiedIsSound(l: Layout, rc: map<nat, nat>, mid: map<nat, nat>)
    requires l.Sound(rc) && Counted(Pass(rc, -1, l.l1, l.tables), mid)
    ensures Emptied(AfterActivePass(l, Pass(rc, -1, l.l1, l.tables))).Sound(mid)
  {
    var m := AfterActivePass(l, Pass(rc, -1, l.l1, l.tables));
    ActivePassKeeps(l, Pass(rc, -1, l.l1, l.tables));
    EmptyTreeOk(|m.l1|, m.tables, m.l2Size);
    WithActiveKeeps(m, Zeros(|m.l1|));
    var e := Emptied(m);
    forall c: nat
      ensures e.CountedRight(mid, c) && e.OneUse(c)
    {
      EmptiedCounts(l, rc, mid, c);
    }
  }

  lemma EmptiedRefs(l: Layout, rc: map<nat, nat>, kind: Kind, c: nat)
    requires l.TreesOk()
    ensures var e := Emptied(AfterActivePass(l, Pass(rc, -1, l.l1, l.tables)));
      e.l2Size > 0 && e.Refs(kind, c) + TreeRefs(kind, l.l1, l.tables, c) == l.Refs(kind, c)
  {
    var pass := Pass(rc, -1, l.l1, l.tables);
    var m := AfterActivePass(l, pass);
    ActivePassKeeps(l, pass);
    assert SameRefs(m, l, c);
    PassKeepsRefs(pass, kind, l.l1, m.l1, c);
    EmptyTreeOk(|m.l1|, m.tables, m.l2Size);
    WithActiveKeeps(m, Zeros(|m.l1|));
    EmptyRefs(|m.l1|, m.tables, kind, c);
    assert Emptied(m).SnapsRefs(kind, |m.snaps|, c) == m.SnapsRefs(kind, |m.snaps|, c);
  }

  lemma EmptiedCounts(l: Layout, rc: map<nat, nat>, mid: map<nat, nat>, c: nat)
    requires l.TreesOk() && l.Exact(rc) && Counted(Pass(rc, -1, l.l1, l.tables), mid)
    ensures var e := Emptied(AfterActivePass(l, Pass(rc, -1, l.l1, l.tables)));
      e.l2Size > 0 && e.CountedRight(mid, c) && e.OneUse(c)
  {
    assert l.CountedRight(rc, c) && l.OneUse(c);
    if c != 0 {
      ActiveInRange(l, rc, -1, c);
    }
    CountedIs(Pass(rc, -1, l.l1, l.tables), mid, c);
    EmptiedRefs(l, rc, Metadata, c);
    EmptiedRefs(l, rc, Level2, c);
    EmptiedRefs(l, rc, GuestData, c);
  }

  lemma L1ClustersMonotone(s: nat, n: nat, l2Size: nat)
    requires l2Size > 0 && s <= n
    ensures L1Clusters(s, l2Size) <= L1Clusters(n, l2Size)
  {
    RoundUpLeast(s, l2Size, L1Clusters(n, l2Size));
  }

  /** The clusters of a table of n entries at `at` that one of s entries does not need. */
  ghost function Surplus(at: nat, s: nat, n: nat, l2Size: nat): set<nat>
    requires l2Size > 0
  {
    Clusters(at + L1Clusters(s, l2Size), at + L1Clusters(n, l2Size))
  }

  /** Nothing is added to what is held if and only if the two tables take as many clusters. */
  lemma NothingLost(fixed: set<nat>, at: nat, s: nat, n: nat, l2Size: nat)
    requires l2Size > 0 && s <= n && fixed !! Surplus(at, s, n, l2Size)
    ensures fixed + Surplus(at, s, n, l2Size) == fixed <==> L1Clusters(s, l2Size) == L1Clusters(n, l2Size)
  {
    L1ClustersMonotone(s, n, l2Size);
    if L1Clusters(s, l2Size) < L1Clusters(n, l2Size) {
      assert at + L1Clusters(s, l2Size) in Surplus(at, s, n, l2Size);
    }
  }

  /** The layout with its empty active table cut to s entries, the surplus clusters lost. */
  ghost function Cut(l: Layout, s: nat): Layout
    requires l.l2Size > 0
  {
    WithActive(l, Zeros(s)).(fixed := l.fixed + Surplus(l.l1At, s, |l.l1|, l.l2Size))
  }

  lemma CutIsSound(l: Layout, rc: map<nat, nat>, s: nat)
    requires l.Sound(rc) && l.l1 == Zeros(|l.l1|) && 0 < s <= |l.l1|
    ensures Cut(l, s).Sound(rc)
    ensures l.fixed !! Surplus(l.l1At, s, |l.l1|, l.l2Size)
  {
    EmptyTreeOk(s, l.tables, l.l2Size);
    WithActiveKeeps(l, Zeros(s));
    L1ClustersMonotone(s, |l.l1|, l.l2Size);
    var m := Cut(l, s);
    forall k | 0 <= k < |m.snaps|
      ensures m.SnapOk(k)
    {
      assert WithActive(l, Zeros(s)).SnapOk(k);
    }
    forall c: nat
      ensures m.CountedRight(rc, c) && m.OneUse(c)
      ensures !(c in l.fixed && c in Surplus(l.l1At, s, |l.l1|, l.l2Size))
    {
      CutCounts(l, rc, s, c);
    }
  }

  lemma CutCounts(l: Layout, rc: map<nat, nat>, s: nat, c: nat)
    requires l.TreesOk() && l.Exact(rc) && l.l1 == Zeros(|l.l1|) && s <= |l.l1|
    ensures Cut(l, s).CountedRight(rc, c) && Cut(l, s).OneUse(c)
    ensures !(c in l.fixed && c in Surplus(l.l1At, s, |l.l1|, l.l2Size))
  {
    var m := Cut(l, s);
    assert l.CountedRight(rc, c) && l.OneUse(c);
    L1ClustersMonotone(s, |l.l1|, l.l2Size);
    forall kind
      ensures m.SnapsRefs(kind, |m.snaps|, c) == l.SnapsRefs(kind, |l.snaps|, c)
      ensures TreeRefs(kind, m.l1, m.tables, c) == TreeRefs(kind, l.l1, l.tables, c)
    {
      forall k | 0 <= k < |l.snaps|
        ensures m.SnapRefs(kind, k, c) == l.SnapRefs(kind, k, c)
      {
        assert l.SnapOk(k);
      }
      SnapsRefsSame(l, m, kind, |l.snaps|, c);
      EmptyRefs(|l.l1|, l.tables, kind, c);
      EmptyRefs(s, l.tables, kind, c);
    }
    assert l.Refs(Metadata, c) <= 1;
    assert m.Refs(Metadata, c) == l.Refs(Metadata, c);
    assert m.Refs(Level2, c) == l.Refs(Level2, c) && m.Refs(GuestData, c) == l.Refs(GuestData, c);
  }

  lemma CutSnaps(l: Layout, s: nat)
    requires l.TreesOk()
    ensures SameSnaps(l, Cut(Emptied(l), s))
  {
  }

  /** The layout with the entries of snapshot k put into the active table. */
  ghost function Restored(l: Layout, k: nat): Layout
    requires k < |l.snaps|
  {
    WithActive(l, l.SnapL1(k))
  }

  lemma RestoredRefs(l: Layout, rc: map<nat, nat>, k: nat, kind: Kind, c: nat)
    requires l.TreesOk() && k < |l.snaps| && l.l1 == Zeros(l.snaps[k].size)
    ensures var p := Restored(l, k); var q := AfterActivePass(p, Pass(rc, 1, p.l1, p.tables));
      q.l2Size > 0 && q.Refs(kind, c) == l.Refs(kind, c) + TreeRefs(kind, l.SnapL1(k), l.tables, c)
  {
    assert l.SnapOk(k);
    WithActiveKeeps(l, l.SnapL1(k));
    var p := Restored(l, k);
    var pass := Pass(rc, 1, p.l1, p.tables);
    ActivePassKeeps(p, pass);
    assert SameRefs(AfterActivePass(p, pass), p, c);
    EmptyRefs(|l.l1|, l.tables, kind, c);
    assert p.SnapsRefs(kind, |l.snaps|, c) == l.SnapsRefs(kind, |l.snaps|, c);
  }

  lemma RestoredCounts(l: Layout, rc: map<nat, nat>, now: map<nat, nat>, k: nat, c: nat)
    requires l.TreesOk() && l.Exact(rc) && k < |l.snaps| && l.l1 == Zeros(l.snaps[k].size)
    requires Counted(Pass(rc, 1, l.SnapL1(k), l.tables), now) && CanCount(rc, l.SnapL1(k), l.tables)
    ensures var p := Restored(l, k); var q := AfterActivePass(p, Pass(rc, 1, p.l1, p.tables));
      q.l2Size > 0 && q.CountedRight(now, c) && q.OneUse(c)
  {
    assert l.SnapOk(k) && l.CountedRight(rc, c) && l.OneUse(c);
    assert c != 0 ==> Single(l.SnapL1(k), l.tables, c);
    CountedIs(Pass(rc, 1, l.SnapL1(k), l.tables), now, c);
    RestoredRefs(l, rc, k, Metadata, c);
    RestoredRefs(l, rc, k, Level2, c);
    RestoredRefs(l, rc, k, GuestData, c);
    l.SnapShare(k, c);
    assert l.SnapRefs(Level2, k, c) <= l.Refs(Level2, c) && l.SnapRefs(GuestData, k, c) <= l.Refs(GuestData, c);
  }

  /** Adding the references of the snapshot's tree. */
  lemma RestoredIsSound(l: Layout, rc: map<nat, nat>, now: map<nat, nat>, k: nat)
    requires l.Sound(rc) && k < |l.snaps| && l.l1 == Zeros(l.snaps[k].size)
    requires Counted(Pass(rc, 1, l.SnapL1(k), l.tables), now) && CanCount(rc, l.SnapL1(k), l.tables)
    ensures var p := Restored(l, k);
      AfterActivePass(p, Pass(rc, 1, p.l1, p.tables)).Sound(now)
  {
    assert l.SnapOk(k);
    WithActiveKeeps(l, l.SnapL1(k));
    var p := Restored(l, k);
    var pass := Pass(rc, 1, p.l1, p.tables);
    var q := AfterActivePass(p, pass);
    ActivePassKeeps(p, pass);
    forall c: nat
      ensures q.CountedRight(now, c) && q.OneUse(c)
    {
      RestoredCounts(l, rc, now, k, c);
    }
    PassSetsFlags(p, pass, now);
  }

  lemma RestoredOverfills(l: Layout, rc: map<nat, nat>, k: nat)
    requires l.Sound(rc) && k < |l.snaps| && l.l1 == Zeros(l.snaps[k].size) && !CanCount(rc, l.SnapL1(k), l.tables)
    ensures var p := Restored(l, k);
      Overfull(AfterActivePass(p, Pass(rc, 1, p.l1, p.tables)))
  {
    var c: nat :| TreeSum(l.SnapL1(k), l.tables, c) >= 1 && Rc(rc, c) >= 0xffff;
    assert l.CountedRight(rc, c) && l.OneUse(c);
    l.SnapShare(k, c);
    assert l.SnapRefs(Level2, k, c) <= l.Refs(Level2, c) && l.SnapRefs(GuestData, k, c) <= l.Refs(GuestData, c);
    RestoredRefs(l, rc, k, Level2, c);
    RestoredRefs(l, rc, k, GuestData, c);
    var p := Restored(l, k);
    assert Overflows(AfterActivePass(p, Pass(rc, 1, p.l1, p.tables)), c);
  }

  /** Adding the references keeps the layout sound if and only if they can all be counted. */
  lemma RestoredIff(l: Layout, rc: map<nat, nat>, now: map<nat, nat>, k: nat)
    requires l.Sound(rc) && k < |l.snaps| && l.l1 == Zeros(l.snaps[k].size)
    requires Counted(Pass(rc, 1, l.SnapL1(k), l.tables), now)
    ensures var p := Restored(l, k);
      AfterActivePass(p, Pass(rc, 1, p.l1, p.tables)).Sound(now) <==> CanCount(rc, l.SnapL1(k), l.tables)
  {
    var p := Restored(l, k);
    if CanCount(rc, l.SnapL1(k), l.tables) {
      RestoredIsSound(l, rc, now, k);
    } else {
      RestoredOverfills(l, rc, k);
      OverfullIsUnsound(AfterActivePass(p, Pass(rc, 1, p.l1, p.tables)), now);
    }
  }

  // ----- the whole of it

  /** Every cluster of snapshot k can be counted once more when the active
      tree's references are taken away. */
  ghost predicate CanReturn(l: Layout, rc: map<nat, nat>, k: nat)
    requires k < |l.snaps|
  {
    forall c: nat :: TreeSum(l.SnapL1(k), l.tables, c) >= 1 ==> Rc(rc, c) - TreeSum(l.l1, l.tables, c) < 0xffff
  }

  /** The counts of level-2 tables and of data are as before. */
  ghost predicate KeptCounts(l: Layout, rc: map<nat, nat>, now: map<nat, nat>)
    requires l.l2Size > 0
  {
    forall c: nat :: l.Refs(Metadata, c) == 0 && Rc(rc, c) >= 1 ==> Rc(now, c) == Rc(rc, c)
  }

  lemma MovedKeeps(l: Layout, rc: map<nat, nat>, mid: map<nat, nat>, now: map<nat, nat>, a: nat, n: nat)
    requires l.l2Size > 0 && Moved(l, rc, mid, now, a, n)
    ensures KeptCounts(l, rc, now)
  {
    forall c: nat | l.Refs(Metadata, c) == 0 && Rc(rc, c) >= 1
      ensures Rc(now, c) == Rc(rc, c)
    {
      assert l.ActiveRefs(Metadata, c) == 0;
    }
  }

  lemma EmptiedGrown(l: Layout, a: nat, n: nat)
    ensures Emptied(Grown(l, a, n)) == Grown(Emptied(l), a, n)
  {
    assert Zeros(|l.l1| + n) == Zeros(|l.l1|) + Zeros(n);
    assert Emptied(Grown(l, a, n)).disk == Grown(Emptied(l), a, n).disk;
  }

  /** Growing the table while its references are taken away. */
  lemma RoomMade(m: Layout, rc: map<nat, nat>, mid: map<nat, nat>, now: map<nat, nat>, a: nat, n: nat)
    requires m.TreesOk() && Emptied(m).Sound(rc) && Moved(m, rc, mid, now, a, n)
    ensures Grown(m, a, n).TreesOk() && Emptied(Grown(m, a, n)).Sound(now)
    ensures KeptCounts(Emptied(m), rc, now) && SameSnaps(m, Grown(m, a, n))
  {
    EmptiedGrown(m, a, n);
    GrownIsSound(Emptied(m), rc, mid, now, a, n);
    MovedKeeps(Emptied(m), rc, mid, now, a, n);
    GrownApart(Emptied(m), rc, a, n);
    GrownTrees(m, a, n);
  }

  /** The two conditions, before everything and just before the references are added, are one. */
  lemma ReturnIff(l: Layout, rc: map<nat, nat>, mid: map<nat, nat>, half: map<nat, nat>, m: Layout, k: nat)
    requires l.Sound(rc) && k < |l.snaps| && Counted(Pass(rc, -1, l.l1, l.tables), mid)
    requires m == AfterActivePass(l, Pass(rc, -1, l.l1, l.tables)) && KeptCounts(Emptied(m), mid, half)
    ensures CanReturn(l, rc, k) <==> CanCount(half, m.SnapL1(k), m.tables)
  {
    forall c: nat
      ensures TreeSum(m.SnapL1(k), m.tables, c) == TreeSum(l.SnapL1(k), l.tables, c)
      ensures TreeSum(l.SnapL1(k), l.tables, c) >= 1 ==> Rc(half, c) == Rc(rc, c) - TreeSum(l.l1, l.tables, c)
    {
      PassKeepsRefs(Pass(rc, -1, l.l1, l.tables), Level2, l.SnapL1(k), l.SnapL1(k), c);
      PassKeepsRefs(Pass(rc, -1, l.l1, l.tables), GuestData, l.SnapL1(k), l.SnapL1(k), c);
      if TreeSum(l.SnapL1(k), l.tables, c) >= 1 {
        HalfCount(l, rc, mid, half, m, k, c);
      }
    }
  }

  lemma HalfCount(l: Layout, rc: map<nat, nat>, mid: map<nat, nat>, half: map<nat, nat>, m: Layout, k: nat, c: nat)
    requires l.Sound(rc) && k < |l.snaps| && Counted(Pass(rc, -1, l.l1, l.tables), mid)
    requires m == AfterActivePass(l, Pass(rc, -1, l.l1, l.tables)) && KeptCounts(Emptied(m), mid, half)
    requires TreeSum(l.SnapL1(k), l.tables, c) >= 1
    ensures Rc(half, c) == Rc(rc, c) - TreeSum(l.l1, l.tables, c)
  {
    ActiveInRange(l, rc, -1, c);
    CountedIs(Pass(rc, -1, l.l1, l.tables), mid, c);
    EmptiedCounts(l, rc, mid, c);
    EmptiedRefs(l, rc, Metadata, c);
    EmptiedRefs(l, rc, Level2, c);
    EmptiedRefs(l, rc, GuestData, c);
    assert l.OneUse(c) && l.CountedRight(rc, c);
    l.SnapShare(k, c);
    assert l.Refs(Level2, c) >= l.ActiveRefs(Level2, c) + l.SnapRefs(Level2, k, c);
    assert l.Refs(GuestData, c) >= l.ActiveRefs(GuestData, c) + l.SnapRefs(GuestData, k, c);
  }

  // ----- opening the file again

  /** Entries of the file's table past the end of the one in memory: their
      clusters, other than those of the table in memory, are among the lost. */
  ghost predicate TailFits(fixed: set<nat>, l1At: nat, n: nat, stale: Table, l2Size: nat)
    requires l2Size > 0
  {
    Clean(stale) && Surplus(l1At, n, n + |stale|, l2Size) <= fixed
  }

  ghost predicate TailOk(l: Layout, stale: Table)
    requires l.l2Size > 0
  {
    TailFits(l.fixed, l.l1At, |l.l1|, stale, l.l2Size)
  }

  /** Cutting the table in memory leaves more entries past its end. */
  lemma TailCut(l: Layout, stale: Table, size: nat)
    requires l.l2Size > 0 && Clean(l.l1) && TailOk(l, stale) && size <= |l.l1|
    ensures Clean(l.l1[size..] + stale)
    ensures Surplus(l.l1At, size, |l.l1| + |stale|, l.l2Size) <= l.fixed + Surplus(l.l1At, size, |l.l1|, l.l2Size)
  {
    L1ClustersMonotone(size, |l.l1|, l.l2Size);
    L1ClustersMonotone(|l.l1|, |l.l1| + |stale|, l.l2Size);
    forall c | c in Surplus(l.l1At, size, |l.l1| + |stale|, l.l2Size)
      ensures c in l.fixed || c in Surplus(l.l1At, size, |l.l1|, l.l2Size)
    {
      assert c in Surplus(l.l1At, size, |l.l1|, l.l2Size) || c in Surplus(l.l1At, |l.l1|, |l.l1| + |stale|, l.l2Size);
    }
  }

  /** The layout that the file's header describes. */
  ghost function InFile(l: Layout, stale: Table): Layout
    requires l.l2Size > 0
  {
    WithActive(l, l.l1 + stale).(fixed := l.fixed - Surplus(l.l1At, |l.l1|, |l.l1| + |stale|, l.l2Size))
  }

  ghost predicate NoneMapped(t: Table) {
    forall i :: 0 <= i < |t| ==> t[i].cluster == 0
  }

  /** No mapped entry of the file's table of n entries and more is at or past size. */
  ghost predicate DropsNothing(table: Table, n: nat, size: nat) {
    size > n || (size <= |table| && NoneMapped(table[size..]))
  }

  /** Going to snapshot k: whether the layout stays sound, and what the file's table has past its end. */
  ghost predicate GoneSound(l: Layout, rc: map<nat, nat>, stale: Table, k: nat, q: Layout, now: map<nat, nat>,
      left: Table)
    requires k < |l.snaps|
  {
    && (q.Sound(now) <==> CanReturn(l, rc, k))
    && (NoneMapped(left) <==> DropsNothing(l.l1 + stale, |l.l1|, l.snaps[k].size))
  }

  lemma SameDrops(t: Table, u: Table, n: nat, size: nat)
    requires SameClusters(t, u)
    ensures DropsNothing(t, n, size) <==> DropsNothing(u, n, size)
  {
    if size <= |t| {
      assert forall i :: 0 <= i < |t| - size ==> t[size..][i].cluster == u[size..][i].cluster;
    }
  }

  /** What is past the new end: nothing mapped after growing, else all the old table had there. */
  lemma DropsRest(l1: Table, m1: Table, stale: Table, now: Table, size: nat)
    requires size <= |m1|
    requires if size > |l1| then now == [] && NoneMapped(m1[size..]) else m1 == l1 && now == stale
    ensures NoneMapped(m1[size..] + now) <==> DropsNothing(l1 + stale, |l1|, size)
  {
    if size <= |l1| {
      assert (l1 + stale)[size..] == l1[size..] + stale;
    }
  }

  lemma InFileRefs(l: Layout, stale: Table, c: nat)
    requires l.TreesOk() && TailOk(l, stale) && l.Refs(Metadata, c) <= 1
    ensures InFile(l, stale).Refs(Metadata, c) == l.Refs(Metadata, c)
    ensures forall kind :: InFile(l, stale).SnapsRefs(kind, |l.snaps|, c) == l.SnapsRefs(kind, |l.snaps|, c)
  {
    var m := InFile(l, stale);
    L1ClustersMonotone(|l.l1|, |m.l1|, l.l2Size);
    forall kind
      ensures m.SnapsRefs(kind, |m.snaps|, c) == l.SnapsRefs(kind, |l.snaps|, c)
    {
      forall k | 0 <= k < |l.snaps|
        ensures m.SnapRefs(kind, k, c) == l.SnapRefs(kind, k, c)
      {
        assert l.SnapOk(k);
      }
      SnapsRefsSame(l, m, kind, |l.snaps|, c);
    }
  }

  /** A mapped entry past the end is a reference that no count includes. */
  lemma StaleIsUnsound(l: Layout, rc: map<nat, nat>, stale: Table, i: nat)
    requires l.Sound(rc) && TailOk(l, stale) && i < |stale| && stale[i].cluster != 0
    ensures !InFile(l, stale).Sound(rc)
  {
    var m, c := InFile(l, stale), stale[i].cluster;
    assert l.CountedRight(rc, c) && l.OneUse(c);
    InFileRefs(l, stale, c);
    CountSplit(l.l1, stale, c);
    CountEntry(stale, i);
    SumPrefix(m.l1, l.tables, |l.l1|, c);
    assert m.l1[..|l.l1|] == l.l1;
    assert m.Refs(Level2, c) >= l.Refs(Level2, c) + 1 && m.Refs(GuestData, c) >= l.Refs(GuestData, c);
    assert !m.CountedRight(rc, c);
  }

  /** Otherwise the file is as sound as the image in memory. */
  lemma InFileIsSound(l: Layout, rc: map<nat, nat>, stale: Table)
    requires l.Sound(rc) && TailOk(l, stale) && NoneMapped(stale)
    ensures InFile(l, stale).Sound(rc)
  {
    var m := InFile(l, stale);
    assert stale == Zeros(|stale|);
    ZerosAddTree(l.l1, |stale|, l.tables, l.l2Size);
    WithActiveKeeps(l, m.l1);
    forall k | 0 <= k < |m.snaps|
      ensures m.SnapOk(k)
    {
      assert WithActive(l, m.l1).SnapOk(k);
    }
    L1ClustersPositive(|l.l1|, l.l2Size);
    forall c: nat
      ensures m.CountedRight(rc, c) && m.OneUse(c)
    {
      assert l.CountedRight(rc, c) && l.OneUse(c);
      InFileRefs(l, stale, c);
      assert m.ActiveRefs(Level2, c) == l.ActiveRefs(Level2, c);
      assert m.ActiveRefs(GuestData, c) == l.ActiveRefs(GuestData, c);
    }
  }

  lemma InFileIff(l: Layout, rc: map<nat, nat>, stale: Table)
    requires l.Sound(rc) && TailOk(l, stale)
    ensures InFile(l, stale).Sound(rc) <==> NoneMapped(stale)
  {
    if NoneMapped(stale) {
      InFileIsSound(l, rc, stale);
    } else {
      var i :| 0 <= i < |stale| && stale[i].cluster != 0;
      StaleIsUnsound(l, rc, stale, i);
    }
  }

  /** What is lost is what the counts have too many: meta is the metadata, and
      the rest of fixed is lost. */
  lemma LostIsLeaked(l: Layout, rc: map<nat, nat>, meta: set<nat>)
    requires l.Sound(rc) && 0 in meta && meta <= l.fixed
    ensures forall c: nat :: Leaked(l.(fixed := meta), rc, l.fixed - meta, c)
    ensures l.(fixed := meta).Sound(rc) <==> l.fixed == meta
  {
    var m := l.(fixed := meta);
    forall c: nat
      ensures Leaked(m, rc, l.fixed - meta, c)
    {
      assert l.CountedRight(rc, c);
      forall kind
        ensures m.SnapsRefs(kind, |l.snaps|, c) == l.SnapsRefs(kind, |l.snaps|, c)
      {
        SnapsRefsSame(l, m, kind, |l.snaps|, c);
      }
      assert m.Refs(Level2, c) == l.Refs(Level2, c) && m.Refs(GuestData, c) == l.Refs(GuestData, c);
    }
    if l.fixed == meta {
      assert m == l;
    } else {
      var c :| c in l.fixed && c !in meta;
      assert Leaked(m, rc, l.fixed - meta, c);
      assert !m.CountedRight(rc, c);
    }
  }

  /** The count of c is the number of references to it, and one more if c is lost. */
  ghost predicate Leaked(l: Layout, rc: map<nat, nat>, lost: set<nat>, c: nat)
    requires l.l2Size > 0
  {
    Rc(rc, c) == l.All(c) + One(c in lost)
  }
}
