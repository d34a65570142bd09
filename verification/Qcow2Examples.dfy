/**
 Images at which a promise of the qcow2 driver ends: one that its own checker
 accepts and that is not sound, one whose file no longer fits the image in
 memory after going to a snapshot, and one with as many references to a cluster
 as a count can say.
 */
module Qcow2Examples {
  import opened Division
  import opened Qcow2Tables
  import opened Qcow2Layout
  import opened Qcow2Snapshots
  import opened Qcow2Goto

  /** Clusters that are metadata once, or level-2 tables, or nothing. */
  lemma Right(l: Layout, rc: map<nat, nat>, c: nat)
    requires l.l2Size > 0 && l.Refs(Metadata, c) <= 1 && l.Refs(GuestData, c) == 0
    requires l.Refs(Metadata, c) == 1 ==> l.Refs(Level2, c) == 0
    requires Rc(rc, c) == l.Refs(Metadata, c) + l.Refs(Level2, c) <= 0xffff
    ensures l.CountedRight(rc, c) && l.OneUse(c)
  {
  }

  /** A level-2 table that names one cluster twice. */
  ghost function TwiceMapped(): Layout {
    var l1 := [Entry(2, true)];
    Layout(2, {0}, 1, l1, map[1 := l1], [], 0, 0, map[2 := [Entry(3, false), Entry(3, false)]])
  }

  const TWICE_COUNTS: map<nat, nat> := map[0 := 1, 1 := 1, 2 := 1, 3 := 2]

  /** check_refcounts accepts an image in which two guest clusters share a host
      cluster, so long as it is counted twice and not COPIED. */
  lemma CheckedIsNotSound()
    ensures TwiceMapped().Checked(TWICE_COUNTS) && !TwiceMapped().Sound(TWICE_COUNTS)
  {
    forall c: nat
      ensures TwiceMapped().CountedRight(TWICE_COUNTS, c)
    {
      TwiceMappedRight(c);
    }
    TwiceMappedFlags();
    TwiceMappedTwice();
  }

  lemma TwiceMappedFlags()
    ensures TwiceMapped().FlagsOk(TWICE_COUNTS)
  {
    assert Reached(Entry(2, true), TwiceMapped().tables) == [Entry(3, false), Entry(3, false)];
  }

  lemma TwiceMappedTwice()
    ensures !TwiceMapped().TreesOk()
  {
    TwiceMappedCounts(3);
    assert !Single(TwiceMapped().l1, TwiceMapped().tables, 3);
  }

  lemma TwiceMappedRight(c: nat)
    ensures TwiceMapped().CountedRight(TWICE_COUNTS, c)
  {
    TwiceMappedRefs(Metadata, c);
    TwiceMappedRefs(Level2, c);
    TwiceMappedRefs(GuestData, c);
  }

  lemma TwiceMappedRefs(kind: Kind, c: nat)
    ensures TwiceMapped().Refs(kind, c) ==
      match kind case Metadata => One(c <= 1) case Level2 => One(c == 2) case GuestData => 2 * One(c == 3)
  {
    TwiceMappedCounts(c);
    assert TwiceMapped().SnapsRefs(kind, 0, c) == 0;
  }

  lemma TwiceMappedCounts(c: nat)
    ensures CountTable([Entry(2, true)], c) == One(c == 2)
    ensures SumTables(TwiceMapped().l1, TwiceMapped().tables, c) == 2 * One(c == 3)
    ensures L1Clusters(1, 2) == 1
  {
    var t := [Entry(3, false), Entry(3, false)];
    assert t[..1] == [Entry(3, false)] && t[..1][..0] == [];
    assert [Entry(2, true)][..0] == [];
    assert CountTable(t, c) == CountTable(t[..1], c) + One(c == 3);
    assert Reached(Entry(2, true), TwiceMapped().tables) == t;
    assert Div(2, 2) == 1;
  }

  /** An active table of two entries, the second mapped, and a snapshot taken when it had one. */
  ghost function Longer(): Layout {
    var l1 := [UNMAPPED, Entry(2, true)];
    Layout(2, {0}, 1, l1, map[1 := l1, 3 := [UNMAPPED]], [Snapshot(3, 1, Tag("1", "short"))], 0, 0, map[2 := Zeros(2)])
  }

  const LONGER_COUNTS: map<nat, nat> := map[0 := 1, 1 := 1, 2 := 1, 3 := 1]

  /** Going to that snapshot is possible, and leaves a mapped entry in the file. */
  lemma GotoLeavesEntry()
    ensures Longer().Sound(LONGER_COUNTS) && CanReturn(Longer(), LONGER_COUNTS, 0)
    ensures !DropsNothing(Longer().l1 + [], 2, 1)
  {
    var l := Longer();
    LongerTrees();
    forall c: nat
      ensures l.CountedRight(LONGER_COUNTS, c) && l.OneUse(c)
    {
      LongerRight(c);
    }
    forall c: nat
      ensures Rc(LONGER_COUNTS, c) < 0xffff
    {
    }
    assert (l.l1 + [])[1..][0] == Entry(2, true);
  }

  lemma LongerCounts(c: nat)
    requires c != 0
    ensures CountTable([UNMAPPED, Entry(2, true)], c) == One(c == 2) && CountTable([UNMAPPED], c) == 0
    ensures SumTables(Longer().l1, Longer().tables, c) == 0 && SumTables([UNMAPPED], Longer().tables, c) == 0
    ensures L1Clusters(2, 2) == L1Clusters(1, 2) == 1
  {
    var l1 := [UNMAPPED, Entry(2, true)];
    assert l1[..1] == [UNMAPPED] && l1[..1][..0] == [] && [UNMAPPED][..0] == [];
    EmptyTree(2, Longer().tables, c);
    assert Reached(l1[1], Longer().tables) == Zeros(2);
    assert Div(3, 2) == Div(2, 2) == 1;
  }

  lemma LongerTrees()
    ensures Longer().TreesOk()
  {
    var l := Longer();
    forall c: nat | c != 0
      ensures Single(l.l1, l.tables, c) && Single([UNMAPPED], l.tables, c)
    {
      LongerCounts(c);
    }
    assert l.SnapOk(0);
  }

  lemma LongerSnaps(kind: Kind, c: nat)
    ensures Longer().SnapsRefs(kind, 1, c) == if kind == Metadata then One(c == 3) else 0
  {
    var l := Longer();
    assert l.SnapsRefs(kind, 0, c) == 0 && l.SnapL1(0) == [UNMAPPED];
    assert Div(2, 2) == 1;
    if c != 0 {
      LongerCounts(c);
    }
  }

  lemma LongerActive(kind: Kind, c: nat)
    ensures Longer().ActiveRefs(kind, c) ==
      match kind case Metadata => One(c <= 1) case Level2 => One(c == 2) case GuestData => 0
  {
    assert Div(3, 2) == 1;
    if c != 0 {
      LongerCounts(c);
    }
  }

  lemma LongerRefs(kind: Kind, c: nat)
    ensures Longer().Refs(kind, c) ==
      match kind case Metadata => One(c <= 1) + One(c == 3) case Level2 => One(c == 2) case GuestData => 0
  {
    LongerSnaps(kind, c);
    LongerActive(kind, c);
  }

  lemma LongerRight(c: nat)
    ensures Longer().CountedRight(LONGER_COUNTS, c) && Longer().OneUse(c)
  {
    LongerRefs(Metadata, c);
    LongerRefs(Level2, c);
    LongerRefs(GuestData, c);
    Right(Longer(), LONGER_COUNTS, c);
  }

  // ----- as many references as can be counted

  /** One level-2 table, referred to by the active table and n snapshots. */
  ghost function Shared(n: nat): Layout {
    var l1, used := [Entry(2, n == 0)], Clusters(0, 3 + n);
    Layout(2, {0}, 1, l1, map k | k in used :: if k == 1 then l1 else [Entry(2, false)],
      seq(n, k requires 0 <= k => Snapshot(3 + k, 1, Tag("", ""))), 0, 0, map[2 := Zeros(2)])
  }

  ghost function SharedCounts(n: nat): map<nat, nat> {
    var used := Clusters(0, 3 + n);
    map c | c in used :: if c == 2 then n + 1 else 1
  }

  lemma EntryCount(copied: bool, n: nat, c: nat)
    requires c != 0
    ensures CountTable([Entry(2, copied)], c) == One(c == 2) && SumTables([Entry(2, copied)], Shared(n).tables, c) == 0
  {
    assert [Entry(2, copied)][..0] == [];
    EmptyTree(2, Shared(n).tables, c);
    assert Reached(Entry(2, copied), Shared(n).tables) == Zeros(2);
  }

  lemma {:induction false} SharedSnaps(n: nat, j: nat, c: nat)
    requires j <= n && c != 0
    ensures Shared(n).SnapsRefs(Metadata, j, c) == One(3 <= c < 3 + j)
    ensures Shared(n).SnapsRefs(Level2, j, c) == j * One(c == 2) && Shared(n).SnapsRefs(GuestData, j, c) == 0
  {
    if j > 0 {
      SharedSnaps(n, j - 1, c);
      EntryCount(false, n, c);
      assert Div(2, 2) == 1;
      assert Shared(n).SnapL1(j - 1) == [Entry(2, false)];
    }
  }

  lemma {:induction false} SharedSnapsZero(n: nat, j: nat)
    requires j <= n
    ensures forall kind :: Shared(n).SnapsRefs(kind, j, 0) == 0
  {
    if j > 0 {
      SharedSnapsZero(n, j - 1);
    }
  }

  lemma SharedActive(n: nat, kind: Kind, c: nat)
    ensures Shared(n).ActiveRefs(kind, c) ==
      match kind case Metadata => One(c <= 1) case Level2 => One(c == 2) case GuestData => 0
  {
    assert Div(2, 2) == 1;
    if c != 0 {
      EntryCount(n == 0, n, c);
    }
  }

  lemma SharedRefs(n: nat, kind: Kind, c: nat)
    ensures Shared(n).Refs(kind, c) ==
      match kind case Metadata => One(c < 3 + n && c != 2) case Level2 => (n + 1) * One(c == 2) case GuestData => 0
  {
    SharedActive(n, kind, c);
    if c == 0 {
      SharedSnapsZero(n, n);
    } else {
      SharedSnaps(n, n, c);
    }
  }

  lemma SharedRight(n: nat, c: nat)
    requires n <= 0xfffe
    ensures Shared(n).CountedRight(SharedCounts(n), c) && Shared(n).OneUse(c)
  {
    SharedRefs(n, Metadata, c);
    SharedRefs(n, Level2, c);
    SharedRefs(n, GuestData, c);
    Right(Shared(n), SharedCounts(n), c);
  }

  lemma SharedTrees(n: nat)
    ensures Shared(n).TreesOk()
  {
    var l := Shared(n);
    forall c: nat, copied | c != 0
      ensures Single([Entry(2, copied)], l.tables, c)
    {
      EntryCount(copied, n, c);
    }
    assert forall k :: 0 <= k < n ==> l.SnapOk(k);
  }

  /** It is sound up to 65534 snapshots, and one more can be created exactly below that. */
  lemma CountRunsOut(n: nat)
    requires n <= 0xfffe
    ensures Shared(n).Sound(SharedCounts(n))
    ensures CanCount(SharedCounts(n), Shared(n).l1, Shared(n).tables) <==> n < 0xfffe
  {
    SharedTrees(n);
    forall c: nat
      ensures Shared(n).CountedRight(SharedCounts(n), c) && Shared(n).OneUse(c)
    {
      SharedRight(n, c);
    }
    EntryCount(n == 0, n, 2);
    assert TreeSum(Shared(n).l1, Shared(n).tables, 2) == 1 && Rc(SharedCounts(n), 2) == n + 1;
  }
}
