/**
 The layout of a qcow2 image: which clusters its metadata, its active tables
 and its snapshots refer to, and what a sound layout is.
 */
module Qcow2Layout {
  import opened Division
  import opened Qcow2Tables

  /** The id and the name of a snapshot. */
  datatype Tag = Tag(id: string, name: string)

  /** A snapshot: where its level-1 table is, its length, and its tag. */
  datatype Snapshot = Snapshot(at: nat, size: nat, tag: Tag)

  /** What a live cluster is used for. */
  datatype Kind = Metadata | Level2 | GuestData

  /** c lies in the n clusters from at. */
  predicate Within(at: nat, n: nat, c: nat) {
    at <= c < at + n
  }

  /** The clusters from lo up to hi. */
  function Clusters(lo: nat, hi: nat): (s: set<nat>)
    ensures forall c :: c in s <==> lo <= c < hi
  {
    if hi <= lo then {} else Clusters(lo, hi - 1) + {hi - 1}
  }

  /** Clusters taken by a level-1 table; a cluster holds as many entries as a
      level-2 table has. */
  function L1Clusters(size: nat, l2Size: nat): nat
    requires l2Size > 0
  {
    RoundUp(size, l2Size)
  }

  lemma L1ClustersPositive(size: nat, l2Size: nat)
    requires l2Size > 0 && size > 0
    ensures L1Clusters(size, l2Size) > 0
  {
  }

  /** They are as many as it takes, and no more. */
  lemma L1ClustersLeast(size: nat, l2Size: nat, q: nat)
    requires l2Size > 0
    ensures size <= q * l2Size <==> L1Clusters(size, l2Size) <= q
  {
    MulIs(q, l2Size);
    if size <= q * l2Size {
      RoundUpLeast(size, l2Size, q);
    } else if L1Clusters(size, l2Size) < q {
      MulLess(L1Clusters(size, l2Size), q, l2Size);
    }
  }

  /** References of one kind from a tree; cluster 0 is the header, never a table or data. */
  ghost function TreeRefs(kind: Kind, l1: Table, tables: map<nat, Table>, c: nat): nat {
    if c == 0 then 0 else
    match kind
    case Metadata => 0
    case Level2 => CountTable(l1, c)
    case GuestData => SumTables(l1, tables, c)
  }

  datatype Layout = Layout(
    l2Size: nat,
    fixed: set<nat>,          // header, refcount table and refcount blocks
    l1At: nat, l1: Table,     // the active level-1 table, in memory
    disk: map<nat, Table>,    // level-1 tables in the file, by first cluster
    snaps: seq<Snapshot>, snapAt: nat, snapN: nat,
    tables: map<nat, Table>)  // level-2 tables in the file
  {
    ghost function SnapL1(k: nat): Table
      requires k < |snaps|
    {
      if snaps[k].at in disk then disk[snaps[k].at] else []
    }

    /** References from snapshot k: its level-1 table's clusters, and its tree. */
    ghost function SnapRefs(kind: Kind, k: nat, c: nat): nat
      requires k < |snaps| && l2Size > 0
    {
      if kind == Metadata then One(Within(snaps[k].at, L1Clusters(snaps[k].size, l2Size), c))
      else TreeRefs(kind, SnapL1(k), tables, c)
    }

    /** References from the first n snapshots. */
    ghost function SnapsRefs(kind: Kind, n: nat, c: nat): nat
      requires n <= |snaps| && l2Size > 0
    {
      if n == 0 then 0 else SnapsRefs(kind, n - 1, c) + SnapRefs(kind, n - 1, c)
    }

    /** References from the active table: as metadata its own clusters, the
        header, the refcount structure and the snapshot list; else its tree. */
    ghost function ActiveRefs(kind: Kind, c: nat): nat
      requires l2Size > 0
    {
      if kind == Metadata then
        One(c in fixed) + One(Within(snapAt, snapN, c)) + One(Within(l1At, L1Clusters(|l1|, l2Size), c))
      else TreeRefs(kind, l1, tables, c)
    }

    ghost function Refs(kind: Kind, c: nat): nat
      requires l2Size > 0
    {
      ActiveRefs(kind, c) + SnapsRefs(kind, |snaps|, c)
    }

    /** The number of references to cluster c, as check_refcounts adds them up. */
    ghost function All(c: nat): nat
      requires l2Size > 0
    {
      Refs(Metadata, c) + Refs(Level2, c) + Refs(GuestData, c)
    }

    // ----- well-formedness

    ghost predicate SnapOk(k: nat)
      requires k < |snaps|
    {
      && snaps[k].at in disk && |disk[snaps[k].at]| == snaps[k].size > 0
      && TreeOk(disk[snaps[k].at], tables, l2Size)
    }

    ghost predicate TreesOk() {
      && l2Size > 0 && |l1| > 0
      && TreeOk(l1, tables, l2Size)
      && (forall k :: 0 <= k < |snaps| ==> SnapOk(k))
      && l1At in disk && disk[l1At] == l1
      && (forall k :: 0 <= k < |snaps| ==> snaps[k].at != l1At)
      && (forall j, k :: 0 <= j < k < |snaps| ==> snaps[j].at != snaps[k].at)
    }

    /** COPIED holds exactly of references to clusters with a count of one. */
    ghost predicate FlagOk(e: Entry, rc: map<nat, nat>) {
      if e.cluster == 0 then !e.copied else e.copied <==> Rc(rc, e.cluster) == 1
    }

    ghost predicate TableFlagsOk(t: Table, rc: map<nat, nat>) {
      forall i :: 0 <= i < |t| ==> FlagOk(t[i], rc)
    }

    ghost predicate FlagsOk(rc: map<nat, nat>) {
      && TableFlagsOk(l1, rc)
      && forall i :: 0 <= i < |l1| ==> TableFlagsOk(Reached(l1[i], tables), rc)
    }

    /** The stored count of c is the number of references to it. */
    ghost predicate CountedRight(rc: map<nat, nat>, c: nat)
      requires l2Size > 0
    {
      Rc(rc, c) == All(c) <= 0xffff
    }

    /** A cluster has one use: metadata, once; or a level-2 table; or guest data. */
    ghost predicate OneUse(c: nat)
      requires l2Size > 0
    {
      && (Refs(Metadata, c) > 0 ==> Refs(Metadata, c) == 1 && Refs(Level2, c) == 0 && Refs(GuestData, c) == 0)
      && (Refs(Level2, c) > 0 ==> Refs(GuestData, c) == 0)
    }

    /** What check_refcounts checks: the counts, and the flags of the active tables. */
    ghost predicate Checked(rc: map<nat, nat>) {
      l2Size > 0 && (forall c: nat :: CountedRight(rc, c)) && FlagsOk(rc)
    }

    /** What it checks of the counts, and that every cluster has one use. */
    ghost predicate Exact(rc: map<nat, nat>)
      requires l2Size > 0
    {
      && (forall c: nat :: CountedRight(rc, c))
      && (forall c: nat :: OneUse(c))
      && 0 in fixed
    }

    /** All that check_refcounts checks, and what the driver relies on besides:
        no tree refers to a cluster twice, and no cluster has two uses. */
    ghost predicate Sound(rc: map<nat, nat>) {
      TreesOk() && Exact(rc) && FlagsOk(rc)
    }

    // ----- snapshots as summands

    lemma {:induction false} SnapsRefsAtLeast(kind: Kind, n: nat, k: nat, c: nat)
      requires k < n <= |snaps| && l2Size > 0
      ensures SnapsRefs(kind, n, c) >= SnapRefs(kind, k, c)
      decreases n
    {
      if k < n - 1 {
        SnapsRefsAtLeast(kind, n - 1, k, c);
      }
    }

    /** The references to c of each kind, seen from one snapshot. */
    lemma SnapShare(k: nat, c: nat)
      requires k < |snaps| && l2Size > 0
      ensures forall kind :: Refs(kind, c) >= ActiveRefs(kind, c) + SnapRefs(kind, k, c)
    {
      forall kind
        ensures Refs(kind, c) >= ActiveRefs(kind, c) + SnapRefs(kind, k, c)
      {
        SnapsRefsAtLeast(kind, |snaps|, k, c);
      }
    }

    /** A cluster with one reference, from the active tree, is in no snapshot. */
    lemma ActiveOnly(rc: map<nat, nat>, kind: Kind, c: nat, k: nat)
      requires l2Size > 0 && Exact(rc) && c != 0 && Rc(rc, c) <= 1 && TreeRefs(kind, l1, tables, c) >= 1 && k < |snaps|
      ensures forall other :: TreeRefs(other, SnapL1(k), tables, c) == 0
    {
      assert CountedRight(rc, c);
      SnapShare(k, c);
      forall other
        ensures TreeRefs(other, SnapL1(k), tables, c) == 0
      {
        assert SnapRefs(other, k, c) == 0 || other == Metadata;
      }
    }

    /** A cluster with no references is in no tree. */
    lemma Unreferenced(rc: map<nat, nat>, c: nat)
      requires l2Size > 0 && Exact(rc) && Rc(rc, c) == 0
      ensures c != 0 && All(c) == 0
      ensures forall kind :: ActiveRefs(kind, c) == 0
      ensures forall k, kind :: 0 <= k < |snaps| ==> SnapRefs(kind, k, c) == 0
    {
      assert CountedRight(rc, c);
      assert CountedRight(rc, 0) && Refs(Metadata, 0) >= 1;
      forall k, kind | 0 <= k < |snaps|
        ensures SnapRefs(kind, k, c) == 0
      {
        SnapsRefsAtLeast(kind, |snaps|, k, c);
        assert Refs(kind, c) == 0 by { if kind == Level2 {} }
      }
    }

    /** An entry of a tree that names c makes c referenced. */
    lemma EntryCounts(m1: Table, i: nat)
      requires i < |m1| && m1[i].cluster != 0
      ensures TreeRefs(Level2, m1, tables, m1[i].cluster) >= 1
    {
      CountEntry(m1, i);
    }

    lemma DataCounts(m1: Table, i: nat, j: nat)
      requires i < |m1| && j < |Reached(m1[i], tables)| && Reached(m1[i], tables)[j].cluster != 0
      ensures TreeRefs(GuestData, m1, tables, Reached(m1[i], tables)[j].cluster) >= 1
    {
      var t := Reached(m1[i], tables);
      CountEntry(t, j);
      SumEntry(m1, tables, i, t[j].cluster);
    }

    /** Flags stay right if the counts of what the active tree refers to do. */
    lemma FlagsDepend(rc: map<nat, nat>, now: map<nat, nat>)
      requires FlagsOk(rc)
      requires forall c: nat :: ActiveSame(rc, now, c)
      ensures FlagsOk(now)
    {
      forall i | 0 <= i < |l1|
        ensures FlagOk(l1[i], now) && TableFlagsOk(Reached(l1[i], tables), now)
      {
        if l1[i].cluster != 0 {
          EntryCounts(l1, i);
          assert ActiveSame(rc, now, l1[i].cluster);
        }
        var t := Reached(l1[i], tables);
        assert TableFlagsOk(t, rc);
        forall j | 0 <= j < |t|
          ensures FlagOk(t[j], now)
        {
          assert FlagOk(t[j], rc);
          if t[j].cluster != 0 {
            DataCounts(l1, i, j);
            assert ActiveSame(rc, now, t[j].cluster);
          }
        }
      }
    }

    /** If the active tree refers to c, both counts say the same of it. */
    ghost predicate ActiveSame(rc: map<nat, nat>, now: map<nat, nat>, c: nat) {
      TreeRefs(Level2, l1, tables, c) + TreeRefs(GuestData, l1, tables, c) >= 1 ==> Rc(rc, c) == Rc(now, c)
    }
  }

  /** Layouts that differ in nothing a snapshot depends on have the same snapshot references. */
  lemma {:induction false} SnapsRefsSame(a: Layout, b: Layout, kind: Kind, n: nat, c: nat)
    requires a.l2Size == b.l2Size > 0 && n <= |a.snaps| && n <= |b.snaps|
    requires forall k :: 0 <= k < n ==> a.SnapRefs(kind, k, c) == b.SnapRefs(kind, k, c)
    ensures a.SnapsRefs(kind, n, c) == b.SnapsRefs(kind, n, c)
    decreases n
  {
    if n > 0 {
      SnapsRefsSame(a, b, kind, n - 1, c);
    }
  }

  /** Same references of every kind to c. */
  ghost predicate SameRefs(a: Layout, b: Layout, c: nat)
    requires a.l2Size > 0 && b.l2Size > 0
  {
    forall kind :: a.Refs(kind, c) == b.Refs(kind, c)
  }

  // ----- passes over a layout

  /** The layout after a pass over its active tree. */
  ghost function AfterActivePass(l: Layout, pass: Pass): Layout {
    l.(l1 := pass.FlagTable(l.l1), disk := l.disk[l.l1At := pass.FlagTable(l.l1)], tables := pass.ResultTables())
  }

  /** The layout after a pass over the tree of snapshot k. */
  ghost function AfterSnapPass(l: Layout, k: nat, pass: Pass): Layout
    requires k < |l.snaps|
  {
    l.(disk := l.disk[l.snaps[k].at := pass.FlagTable(l.SnapL1(k))], tables := pass.ResultTables())
  }

  lemma FlagTableIsClean(pass: Pass, t: Table)
    requires Clean(t)
    ensures Clean(pass.FlagTable(t))
  {
  }

  lemma PassKeepsRefs(pass: Pass, kind: Kind, m1: Table, u1: Table, c: nat)
    requires SameClusters(m1, u1)
    ensures TreeRefs(kind, u1, pass.ResultTables(), c) == TreeRefs(kind, m1, pass.tables, c)
  {
    CountSame(m1, u1, c);
    PassKeepsCounts(pass, m1, u1, c);
  }

  lemma ActivePassKeeps(l: Layout, pass: Pass)
    requires l.TreesOk() && pass.l1 == l.l1 && pass.tables == l.tables
    ensures AfterActivePass(l, pass).TreesOk()
    ensures forall c: nat :: SameRefs(AfterActivePass(l, pass), l, c)
  {
    var m := AfterActivePass(l, pass);
    FlagTableIsClean(pass, l.l1);
    PassKeepsTree(pass, l.l1, m.l1, l.l2Size);
    forall k | 0 <= k < |l.snaps|
      ensures m.SnapOk(k)
    {
      assert l.SnapOk(k);
      PassKeepsTree(pass, l.SnapL1(k), l.SnapL1(k), l.l2Size);
    }
    forall c: nat, kind
      ensures m.Refs(kind, c) == l.Refs(kind, c)
    {
      PassKeepsRefs(pass, kind, l.l1, m.l1, c);
      forall k | 0 <= k < |l.snaps|
        ensures m.SnapRefs(kind, k, c) == l.SnapRefs(kind, k, c)
      {
        PassKeepsRefs(pass, kind, l.SnapL1(k), l.SnapL1(k), c);
      }
      SnapsRefsSame(l, m, kind, |l.snaps|, c);
    }
  }

  lemma SnapPassKeeps(l: Layout, k: nat, pass: Pass)
    requires l.TreesOk() && k < |l.snaps| && pass.l1 == l.SnapL1(k) && pass.tables == l.tables
    ensures AfterSnapPass(l, k, pass).TreesOk()
    ensures forall c: nat :: SameRefs(AfterSnapPass(l, k, pass), l, c)
  {
    var m := AfterSnapPass(l, k, pass);
    PassKeepsTree(pass, l.l1, l.l1, l.l2Size);
    assert l.SnapOk(k);
    FlagTableIsClean(pass, l.SnapL1(k));
    forall j | 0 <= j < |l.snaps|
      ensures m.SnapOk(j) && SameClusters(l.SnapL1(j), m.SnapL1(j))
    {
      assert l.SnapOk(j);
      PassKeepsTree(pass, l.SnapL1(j), m.SnapL1(j), l.l2Size);
    }
    forall c: nat, kind
      ensures m.Refs(kind, c) == l.Refs(kind, c)
    {
      PassKeepsRefs(pass, kind, l.l1, l.l1, c);
      forall j | 0 <= j < |l.snaps|
        ensures m.SnapRefs(kind, j, c) == l.SnapRefs(kind, j, c)
      {
        PassKeepsRefs(pass, kind, l.SnapL1(j), m.SnapL1(j), c);
      }
      SnapsRefsSame(l, m, kind, |l.snaps|, c);
    }
  }

  /** A pass over the active tree leaves its flags right, whatever they were. */
  lemma PassSetsFlags(l: Layout, pass: Pass, rc: map<nat, nat>)
    requires l.TreesOk() && pass.l1 == l.l1 && pass.tables == l.tables
    requires forall c: nat :: c != 0 ==> Rc(rc, c) == pass.Final(c)
    ensures AfterActivePass(l, pass).FlagsOk(rc)
  {
    var m := AfterActivePass(l, pass);
    forall i | 0 <= i < |l.l1|
      ensures m.TableFlagsOk(Reached(m.l1[i], m.tables), rc)
    {
      assert Clean(Reached(l.l1[i], l.tables));
      CountEntry(l.l1, i);
    }
  }
}
