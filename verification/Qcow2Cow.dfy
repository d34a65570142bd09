/**
 The two table changes of a qcow2 write: taking a private copy of a level-2
 table, and linking a run of freshly allocated clusters into it.  Each keeps
 the layout sound; the first keeps every lookup, the second changes exactly
 the lookups of the run, and neither changes a lookup through a snapshot.
 */
module Qcow2Cow {
  import opened Division
  import opened Qcow2Tables
  import opened Qcow2Layout

  // ----- lookup

  /** The host cluster that entry j of the table under level-1 entry i names; 0 if unmapped. */
  ghost function Walk(l1: Table, tables: map<nat, Table>, i: nat, j: nat): nat {
    if i < |l1| && j < |Reached(l1[i], tables)| then Reached(l1[i], tables)[j].cluster else 0
  }

  /** The host cluster of guest cluster gc, by its own walk. */
  ghost function Lookup(l1: Table, tables: map<nat, Table>, l2Size: nat, gc: nat): nat
    requires l2Size > 0
  {
    Walk(l1, tables, Div(gc, l2Size), Mod(gc, l2Size))
  }

  /** Every walk ends in the same place. */
  ghost predicate SameWalks(l1: Table, tables: map<nat, Table>, m1: Table, now: map<nat, Table>) {
    forall i: nat, j: nat :: Walk(l1, tables, i, j) == Walk(m1, now, i, j)
  }

  lemma WalksChain(l1: Table, lt: map<nat, Table>, m1: Table, mt: map<nat, Table>, o1: Table, ot: map<nat, Table>)
    requires SameWalks(l1, lt, m1, mt) && SameWalks(m1, mt, o1, ot)
    ensures SameWalks(l1, lt, o1, ot)
  {
    forall i: nat, j: nat
      ensures Walk(l1, lt, i, j) == Walk(o1, ot, i, j)
    {
      assert Walk(l1, lt, i, j) == Walk(m1, mt, i, j);
    }
  }

  lemma PassKeepsWalks(pass: Pass, m1: Table, u1: Table)
    requires SameClusters(m1, u1)
    ensures SameWalks(m1, pass.tables, u1, pass.ResultTables())
  {
    forall i: nat, j: nat
      ensures Walk(m1, pass.tables, i, j) == Walk(u1, pass.ResultTables(), i, j)
    {
      if i < |m1| {
        assert SameClusters(Reached(m1[i], pass.tables), Reached(u1[i], pass.ResultTables()));
      }
    }
  }

  // ----- trees that the change of one table does not reach

  /** Every entry leads to the same table as before. */
  ghost predicate Agree(m1: Table, tables: map<nat, Table>, now: map<nat, Table>) {
    forall i :: 0 <= i < |m1| ==> Reached(m1[i], tables) == Reached(m1[i], now)
  }

  lemma AgreeKeeps(m1: Table, tables: map<nat, Table>, now: map<nat, Table>, n: nat)
    requires n > 0 && TreeOk(m1, tables, n) && Agree(m1, tables, now)
    ensures TreeOk(m1, now, n) && SameWalks(m1, tables, m1, now)
    ensures forall kind, c: nat :: TreeRefs(kind, m1, now, c) == TreeRefs(kind, m1, tables, c)
  {
    forall c: nat
      ensures SumTables(m1, now, c) == SumTables(m1, tables, c)
    {
      SumSame(m1, m1, tables, now, c);
    }
    forall c: nat | c != 0
      ensures Single(m1, now, c)
    {
      assert Single(m1, tables, c);
    }
    forall i | 0 <= i < |m1| && m1[i].cluster != 0
      ensures m1[i].cluster in now && |now[m1[i].cluster]| == n
    {
      assert Reached(m1[i], tables) == Reached(m1[i], now);
      assert |Reached(m1[i], tables)| == n;
    }
  }

  /** A table that no entry names can be changed freely. */
  lemma AgreeElsewhere(m1: Table, tables: map<nat, Table>, x: nat, t: Table)
    requires TreeRefs(Level2, m1, tables, x) == 0 && x != 0
    ensures Agree(m1, tables, tables[x := t])
  {
    forall i | 0 <= i < |m1|
      ensures m1[i].cluster != x
    {
      CountEntry(m1, i);
    }
  }

  /** The snapshots of m are those of l, read the same, and make the same references. */
  ghost predicate SnapsKept(l: Layout, m: Layout)
    requires m.l2Size == l.l2Size > 0 && m.snaps == l.snaps
  {
    && (forall k :: 0 <= k < |l.snaps| ==> m.SnapOk(k) && SameWalks(l.SnapL1(k), l.tables, m.SnapL1(k), m.tables))
    && (forall kind, c: nat :: m.SnapsRefs(kind, |l.snaps|, c) == l.SnapsRefs(kind, |l.snaps|, c))
  }

  /** Tables may differ, but every walk through the active tables and through every snapshot is the same. */
  ghost predicate SameImage(l: Layout, m: Layout) {
    && m.l2Size == l.l2Size > 0 && m.snaps == l.snaps
    && SameWalks(l.l1, l.tables, m.l1, m.tables) && SnapsKept(l, m)
  }

  lemma SameImageChain(l: Layout, m: Layout, o: Layout)
    requires SameImage(l, m) && SameImage(m, o)
    ensures SameImage(l, o)
  {
    WalksChain(l.l1, l.tables, m.l1, m.tables, o.l1, o.tables);
    forall k | 0 <= k < |l.snaps|
      ensures o.SnapOk(k) && SameWalks(l.SnapL1(k), l.tables, o.SnapL1(k), o.tables)
    {
      WalksChain(l.SnapL1(k), l.tables, m.SnapL1(k), m.tables, o.SnapL1(k), o.tables);
    }
    forall kind, c: nat
      ensures o.SnapsRefs(kind, |l.snaps|, c) == l.SnapsRefs(kind, |l.snaps|, c)
    {
      assert o.SnapsRefs(kind, |l.snaps|, c) == m.SnapsRefs(kind, |l.snaps|, c);
    }
  }

  /** The snapshots' part of a layout in which only table x changed, x being in no snapshot. */
  lemma SnapsElsewhere(l: Layout, m: Layout, x: nat, t: Table)
    requires l.TreesOk() && x != 0 && m.l2Size == l.l2Size && m.snaps == l.snaps && m.tables == l.tables[x := t]
    requires forall k :: 0 <= k < |l.snaps| ==> l.snaps[k].at in l.disk && l.snaps[k].at in m.disk
    requires forall k :: 0 <= k < |l.snaps| ==> m.disk[l.snaps[k].at] == l.disk[l.snaps[k].at]
    requires forall k :: 0 <= k < |l.snaps| ==> TreeRefs(Level2, l.SnapL1(k), l.tables, x) == 0
    ensures SnapsKept(l, m)
  {
    forall k | 0 <= k < |l.snaps|
      ensures m.SnapOk(k) && SameWalks(l.SnapL1(k), l.tables, m.SnapL1(k), m.tables)
      ensures forall kind, c: nat ::
        TreeRefs(kind, m.SnapL1(k), m.tables, c) == TreeRefs(kind, l.SnapL1(k), l.tables, c)
    {
      assert l.SnapOk(k);
      AgreeElsewhere(l.SnapL1(k), l.tables, x, t);
      AgreeKeeps(l.SnapL1(k), l.tables, m.tables, l.l2Size);
    }
    forall kind, c: nat
      ensures m.SnapsRefs(kind, |l.snaps|, c) == l.SnapsRefs(kind, |l.snaps|, c)
    {
      SnapsRefsSame(l, m, kind, |l.snaps|, c);
    }
  }

  // ----- a private level-2 table

  /** What l2_allocate fills a new table with: the old table, or zeros. */
  ghost function CopyOf(l: Layout, i: nat): Table
    requires i < |l.l1|
  {
    if l.l1[i].cluster == 0 then Zeros(l.l2Size) else Reached(l.l1[i], l.tables)
  }

  /** The layout with entry i of the active table led to a copy in cluster x. */
  ghost function WithCopy(l: Layout, i: nat, x: nat): Layout
    requires i < |l.l1|
  {
    var l1 := l.l1[i := Entry(x, true)];
    l.(l1 := l1, disk := l.disk[l.l1At := l1], tables := l.tables[x := CopyOf(l, i)])
  }

  lemma CopyTree(l: Layout, rc: map<nat, nat>, i: nat, x: nat)
    requires l.TreesOk() && l.Exact(rc) && Rc(rc, x) == 0 && i < |l.l1|
    ensures x != 0 && forall c: nat :: CopyDelta(l, i, x, c)
    ensures TreeOk(WithCopy(l, i, x).l1, WithCopy(l, i, x).tables, l.l2Size)
    ensures SameWalks(l.l1, l.tables, WithCopy(l, i, x).l1, WithCopy(l, i, x).tables)
  {
    l.Unreferenced(rc, x);
    assert l.ActiveRefs(Level2, x) == 0;
    var m := WithCopy(l, i, x);
    AgreeElsewhere(l.l1, l.tables, x, CopyOf(l, i));
    AgreeKeeps(l.l1, l.tables, m.tables, l.l2Size);
    forall c: nat
      ensures CopyDelta(l, i, x, c)
    {
      CopyCounts(l, i, x, c);
    }
    forall c: nat | c != 0
      ensures Single(m.l1, m.tables, c)
    {
      assert Single(l.l1, l.tables, c) && CopyDelta(l, i, x, c);
      assert l.ActiveRefs(GuestData, x) == 0;
    }
    forall j | 0 <= j < |m.l1|
      ensures Clean(Reached(m.l1[j], m.tables))
    {
      assert Clean(Reached(l.l1[j], l.tables));
    }
  }

  /** How a private copy changes the references of the active tree to c. */
  ghost predicate CopyDelta(l: Layout, i: nat, x: nat, c: nat)
    requires i < |l.l1|
  {
    var m := WithCopy(l, i, x);
    c != 0 ==>
      && TreeRefs(Level2, m.l1, m.tables, c) + One(l.l1[i].cluster == c) ==
        TreeRefs(Level2, l.l1, l.tables, c) + One(x == c)
      && TreeRefs(GuestData, m.l1, m.tables, c) == TreeRefs(GuestData, l.l1, l.tables, c)
  }

  lemma CopyCounts(l: Layout, i: nat, x: nat, c: nat)
    requires i < |l.l1| && Agree(l.l1, l.tables, l.tables[x := CopyOf(l, i)]) && x != 0
    ensures CopyDelta(l, i, x, c)
  {
    if c != 0 {
      var m := WithCopy(l, i, x);
      CountUpdate(l.l1, i, Entry(x, true), c);
      SumUpdate(l.l1, m.tables, i, Entry(x, true), c);
      SumSame(l.l1, l.l1, l.tables, m.tables, c);
      EmptyTree(l.l2Size, l.tables, c);
      assert Reached(l.l1[i], m.tables) == Reached(l.l1[i], l.tables);
    }
  }

  lemma CopyRefs(l: Layout, rc: map<nat, nat>, i: nat, x: nat, kind: Kind, c: nat)
    requires l.TreesOk() && l.Exact(rc) && Rc(rc, x) == 0 && i < |l.l1|
    ensures var given := if kind == Level2 then One(l.l1[i].cluster == c && c != 0) else 0;
      WithCopy(l, i, x).Refs(kind, c) + given == l.Refs(kind, c) + if kind == Level2 then One(x == c) else 0
  {
    CopyTree(l, rc, i, x);
    assert CopyDelta(l, i, x, c);
    l.Unreferenced(rc, x);
    CopySnaps(l, rc, i, x);
  }

  lemma CopySnaps(l: Layout, rc: map<nat, nat>, i: nat, x: nat)
    requires l.TreesOk() && l.Exact(rc) && Rc(rc, x) == 0 && i < |l.l1|
    ensures SnapsKept(l, WithCopy(l, i, x))
  {
    l.Unreferenced(rc, x);
    forall k | 0 <= k < |l.snaps|
      ensures l.snaps[k].at in l.disk && TreeRefs(Level2, l.SnapL1(k), l.tables, x) == 0
    {
      assert l.SnapOk(k);
      assert l.SnapRefs(Level2, k, x) == 0;
    }
    var m := WithCopy(l, i, x);
    SnapsElsewhere(l, m, x, CopyOf(l, i));
  }

  /** Giving back one reference to the old table, if any, and taking cluster x. */
  ghost predicate CopyCounted(l: Layout, rc: map<nat, nat>, now: map<nat, nat>, i: nat, x: nat)
    requires i < |l.l1|
  {
    forall c: nat :: Rc(now, c) + One(l.l1[i].cluster == c && c != 0) == Rc(rc, c) + One(x == c)
  }

  lemma CopyIsSound(l: Layout, rc: map<nat, nat>, now: map<nat, nat>, i: nat, x: nat)
    requires l.Sound(rc) && i < |l.l1| && !l.l1[i].copied && Rc(rc, x) == 0 && CopyCounted(l, rc, now, i, x)
    ensures WithCopy(l, i, x).Sound(now)
  {
    var m := WithCopy(l, i, x);
    CopyTree(l, rc, i, x);
    CopySnaps(l, rc, i, x);
    forall c: nat
      ensures m.CountedRight(now, c) && m.OneUse(c)
    {
      CopyExact(l, rc, now, i, x, c);
    }
    CopyFlags(l, rc, now, i, x);
  }

  lemma CopyExact(l: Layout, rc: map<nat, nat>, now: map<nat, nat>, i: nat, x: nat, c: nat)
    requires l.Sound(rc) && i < |l.l1| && Rc(rc, x) == 0 && CopyCounted(l, rc, now, i, x)
    ensures WithCopy(l, i, x).CountedRight(now, c) && WithCopy(l, i, x).OneUse(c)
  {
    assert l.CountedRight(rc, c) && l.OneUse(c) && l.CountedRight(rc, x);
    CopyRefs(l, rc, i, x, Metadata, c);
    CopyRefs(l, rc, i, x, Level2, c);
    CopyRefs(l, rc, i, x, GuestData, c);
  }

  /** The new entry is COPIED and counted once; the old table is in no other
      place of the active tree. */
  lemma CopyEntryFlag(l: Layout, rc: map<nat, nat>, now: map<nat, nat>, i: nat, x: nat, j: nat)
    requires l.Sound(rc) && i < |l.l1| && Rc(rc, x) == 0 && x != 0 && CopyCounted(l, rc, now, i, x) && j < |l.l1|
    ensures l.FlagOk(WithCopy(l, i, x).l1[j], now)
  {
    l.Unreferenced(rc, x);
    assert l.ActiveRefs(Level2, x) == 0 && l.FlagOk(l.l1[j], rc);
    CountEntry(l.l1, i);
    CountEntry(l.l1, j);
    if j != i && l.l1[j].cluster != 0 {
      TableReachedOnce(l.l1, l.tables, l.l2Size, j, i);
    }
  }

  lemma CopyFlags(l: Layout, rc: map<nat, nat>, now: map<nat, nat>, i: nat, x: nat)
    requires l.Sound(rc) && i < |l.l1| && !l.l1[i].copied && Rc(rc, x) == 0 && CopyCounted(l, rc, now, i, x)
    ensures WithCopy(l, i, x).FlagsOk(now)
  {
    var m := WithCopy(l, i, x);
    l.Unreferenced(rc, x);
    forall j | 0 <= j < |l.l1|
      ensures m.FlagOk(m.l1[j], now) && m.TableFlagsOk(Reached(m.l1[j], m.tables), now)
    {
      CopyEntryFlag(l, rc, now, i, x, j);
      CopyTableFlags(l, rc, now, i, x, j);
    }
  }

  lemma CopyTableFlags(l: Layout, rc: map<nat, nat>, now: map<nat, nat>, i: nat, x: nat, j: nat)
    requires l.Sound(rc) && i < |l.l1| && j < |l.l1| && Rc(rc, x) == 0 && x != 0 && CopyCounted(l, rc, now, i, x)
    ensures l.TableFlagsOk(Reached(WithCopy(l, i, x).l1[j], WithCopy(l, i, x).tables), now)
  {
    l.Unreferenced(rc, x);
    AgreeElsewhere(l.l1, l.tables, x, CopyOf(l, i));
    var t := Reached(l.l1[j], l.tables);
    assert l.TableFlagsOk(t, rc);
    forall y | 0 <= y < |t|
      ensures l.FlagOk(t[y], now)
    {
      assert l.FlagOk(t[y], rc);
      if t[y].cluster != 0 {
        DataUnlike(l, rc, i, x, j, y);
      }
    }
  }

  /** A data cluster is neither the old table nor the new one. */
  lemma DataUnlike(l: Layout, rc: map<nat, nat>, i: nat, x: nat, j: nat, y: nat)
    requires l.Sound(rc) && i < |l.l1| && j < |l.l1| && Rc(rc, x) == 0
    requires y < |Reached(l.l1[j], l.tables)| && Reached(l.l1[j], l.tables)[y].cluster != 0
    ensures Reached(l.l1[j], l.tables)[y].cluster != x && Reached(l.l1[j], l.tables)[y].cluster != l.l1[i].cluster
  {
    var c := Reached(l.l1[j], l.tables)[y].cluster;
    l.DataCounts(l.l1, j, y);
    assert l.CountedRight(rc, c) && l.OneUse(c);
    if c == l.l1[i].cluster {
      l.EntryCounts(l.l1, i);
    }
  }
}
