/**
 Linking a run of freshly allocated clusters into a private level-2 table
 (alloc_cluster_link_l2) and giving back the clusters it replaces.
 */
module Qcow2Link {
  import opened Qcow2Tables
  import opened Qcow2Layout
  import opened Qcow2Snapshots
  import opened Qcow2Cow

  /** The table with n entries from idx replaced by clusters a, a + 1, ..., COPIED. */
  function Linked(t: Table, idx: nat, a: nat, n: nat): (r: Table)
    ensures |r| == |t|
  {
    seq(|t|, j requires 0 <= j < |t| => if idx <= j < idx + n then Entry(a + (j - idx), true) else t[j])
  }

  lemma LinkedOneMore(t: Table, idx: nat, a: nat, n: nat, c: nat)
    requires idx + n < |t|
    ensures CountTable(Linked(t, idx, a, n + 1), c) + One(t[idx + n].cluster == c) ==
            CountTable(Linked(t, idx, a, n), c) + One(a + n == c)
  {
    var r := Linked(t, idx, a, n);
    assert Linked(t, idx, a, n + 1) == r[idx + n := Entry(a + n, true)];
    CountUpdate(r, idx + n, Entry(a + n, true), c);
  }

  /** What linking a run does to the references a table makes. */
  lemma {:induction false} LinkedCount(t: Table, idx: nat, a: nat, n: nat, c: nat)
    requires idx + n <= |t|
    ensures CountTable(Linked(t, idx, a, n), c) + CountTable(t[idx..idx + n], c) ==
      CountTable(t, c) + One(Within(a, n, c))
  {
    if n == 0 {
      assert Linked(t, idx, a, 0) == t;
    } else {
      LinkedCount(t, idx, a, n - 1, c);
      LinkedOneMore(t, idx, a, n - 1, c);
      var last := idx + n - 1;
      assert t[idx..idx + n][..n - 1] == t[idx..last];
    }
  }

  /** None of the n entries from idx is COPIED. */
  ghost predicate NoneCopied(t: Table, idx: nat, n: nat) {
    forall j :: idx <= j < idx + n && j < |t| ==> !t[j].copied
  }

  /** Level-1 entry i leads to a table of its own. */
  ghost predicate Private(l: Layout, i: nat) {
    i < |l.l1| && l.l1[i].copied
  }

  ghost function WithRun(l: Layout, i: nat, idx: nat, a: nat, n: nat): Layout
    requires i < |l.l1|
  {
    l.(tables := l.tables[l.l1[i].cluster := Linked(Reached(l.l1[i], l.tables), idx, a, n)])
  }

  /** What linking needs: a private table, n unused clusters, n entries none of which is COPIED. */
  ghost predicate CanLink(l: Layout, rc: map<nat, nat>, i: nat, idx: nat, a: nat, n: nat) {
    && l.Sound(rc) && Private(l, i) && idx + n <= l.l2Size && Unused(rc, a, n)
    && NoneCopied(Reached(l.l1[i], l.tables), idx, n)
  }

  lemma PrivateTable(l: Layout, rc: map<nat, nat>, i: nat)
    requires l.Sound(rc) && Private(l, i)
    ensures l.l1[i].cluster != 0 && l.l1[i].cluster in l.tables && |Reached(l.l1[i], l.tables)| == l.l2Size
    ensures Rc(rc, l.l1[i].cluster) == 1
    ensures forall k :: 0 <= k < |l.snaps| ==> TreeRefs(Level2, l.SnapL1(k), l.tables, l.l1[i].cluster) == 0
  {
    assert l.FlagOk(l.l1[i], rc);
    var x := l.l1[i].cluster;
    l.EntryCounts(l.l1, i);
    forall k | 0 <= k < |l.snaps|
      ensures TreeRefs(Level2, l.SnapL1(k), l.tables, x) == 0
    {
      l.ActiveOnly(rc, Level2, x, k);
    }
  }

  /** Only entry i reaches the table, so changing it changes one summand. */
  lemma RunSum(l: Layout, i: nat, t: Table, c: nat)
    requires l.TreesOk() && i < |l.l1| && l.l1[i].cluster != 0
    ensures SumTables(l.l1, l.tables[l.l1[i].cluster := t], c) + CountTable(Reached(l.l1[i], l.tables), c) ==
            SumTables(l.l1, l.tables, c) + CountTable(t, c)
  {
    var x := l.l1[i].cluster;
    var z := l.l1[i := UNMAPPED];
    SumUpdate(l.l1, l.tables, i, UNMAPPED, c);
    SumUpdate(l.l1, l.tables[x := t], i, UNMAPPED, c);
    forall j | 0 <= j < |z|
      ensures SameClusters(Reached(z[j], l.tables), Reached(z[j], l.tables[x := t]))
    {
      if j != i {
        TableReachedOnce(l.l1, l.tables, l.l2Size, i, j);
      }
    }
    SumSame(z, z, l.tables, l.tables[x := t], c);
  }

  lemma RunRefs(l: Layout, rc: map<nat, nat>, i: nat, idx: nat, a: nat, n: nat, c: nat)
    requires CanLink(l, rc, i, idx, a, n) && c != 0
    ensures var m := WithRun(l, i, idx, a, n);
      TreeRefs(GuestData, m.l1, m.tables, c) + CountTable(Reached(l.l1[i], l.tables)[idx..idx + n], c) ==
        TreeRefs(GuestData, l.l1, l.tables, c) + One(Within(a, n, c))
  {
    PrivateTable(l, rc, i);
    var t := Reached(l.l1[i], l.tables);
    LinkedCount(t, idx, a, n, c);
    RunSum(l, i, Linked(t, idx, a, n), c);
  }

  lemma RunTree(l: Layout, rc: map<nat, nat>, i: nat, idx: nat, a: nat, n: nat)
    requires CanLink(l, rc, i, idx, a, n)
    ensures WithRun(l, i, idx, a, n).TreesOk() && SnapsKept(l, WithRun(l, i, idx, a, n))
  {
    PrivateTable(l, rc, i);
    var m := WithRun(l, i, idx, a, n);
    var x := l.l1[i].cluster;
    forall k | 0 <= k < |l.snaps|
      ensures l.snaps[k].at in l.disk
    {
      assert l.SnapOk(k);
    }
    SnapsElsewhere(l, m, x, Linked(Reached(l.l1[i], l.tables), idx, a, n));
    forall c: nat | c != 0
      ensures Single(m.l1, m.tables, c)
    {
      RunRefs(l, rc, i, idx, a, n, c);
      assert Single(l.l1, l.tables, c);
      if Within(a, n, c) {
        l.Unreferenced(rc, c);
        assert l.ActiveRefs(Level2, c) == 0 && l.ActiveRefs(GuestData, c) == 0;
      }
    }
    RunClean(l, rc, i, idx, a, n);
  }

  lemma RunClean(l: Layout, rc: map<nat, nat>, i: nat, idx: nat, a: nat, n: nat)
    requires CanLink(l, rc, i, idx, a, n)
    ensures var m := WithRun(l, i, idx, a, n);
      forall j :: 0 <= j < |m.l1| ==> Clean(Reached(m.l1[j], m.tables))
  {
    var m := WithRun(l, i, idx, a, n);
    forall c: nat | Within(a, n, c)
      ensures c != 0
    {
      l.Unreferenced(rc, c);
    }
    forall j | 0 <= j < |m.l1|
      ensures Clean(Reached(m.l1[j], m.tables))
    {
      assert Clean(Reached(l.l1[j], l.tables));
      assert Clean(Reached(l.l1[i], l.tables));
      var t := Reached(l.l1[i], l.tables);
      forall y | idx <= y < idx + n && y < |t|
        ensures Linked(t, idx, a, n)[y].cluster != 0
      {
        assert Within(a, n, a + (y - idx));
      }
    }
  }

  /** Every cluster the run replaced has had one reference given back. */
  ghost predicate GivenBack(t: Table, idx: nat, n: nat, mid: map<nat, nat>, now: map<nat, nat>)
    requires idx + n <= |t|
  {
    && (forall c: nat :: c != 0 ==> Rc(now, c) + CountTable(t[idx..idx + n], c) == Rc(mid, c))
    && Rc(now, 0) == Rc(mid, 0)
  }

  lemma RunIsSound(l: Layout, rc: map<nat, nat>, mid: map<nat, nat>, now: map<nat, nat>, i: nat, idx: nat,
        a: nat, n: nat)
    requires CanLink(l, rc, i, idx, a, n) && Added(rc, mid, a, n) && |Reached(l.l1[i], l.tables)| == l.l2Size
    requires GivenBack(Reached(l.l1[i], l.tables), idx, n, mid, now)
    ensures WithRun(l, i, idx, a, n).Sound(now)
  {
    var m := WithRun(l, i, idx, a, n);
    RunTree(l, rc, i, idx, a, n);
    forall c: nat
      ensures m.CountedRight(now, c) && m.OneUse(c)
    {
      RunExact(l, rc, mid, now, i, idx, a, n, c);
    }
    RunFlags(l, rc, mid, now, i, idx, a, n);
  }

  lemma RunExact(l: Layout, rc: map<nat, nat>, mid: map<nat, nat>, now: map<nat, nat>, i: nat, idx: nat, a: nat,
        n: nat, c: nat)
    requires CanLink(l, rc, i, idx, a, n) && Added(rc, mid, a, n) && |Reached(l.l1[i], l.tables)| == l.l2Size
    requires GivenBack(Reached(l.l1[i], l.tables), idx, n, mid, now)
    requires SnapsKept(l, WithRun(l, i, idx, a, n))
    ensures WithRun(l, i, idx, a, n).CountedRight(now, c) && WithRun(l, i, idx, a, n).OneUse(c)
  {
    assert l.CountedRight(rc, c) && l.OneUse(c);
    if Within(a, n, c) {
      l.Unreferenced(rc, c);
    }
    if c != 0 {
      RunRefs(l, rc, i, idx, a, n, c);
    }
    var m := WithRun(l, i, idx, a, n);
    assert m.Refs(Metadata, c) == l.Refs(Metadata, c) && m.Refs(Level2, c) == l.Refs(Level2, c);
  }

  /** A cluster the new active tree refers to is of the run, counted once, or
      was referred to before and kept its count. */
  lemma RunCountKept(l: Layout, rc: map<nat, nat>, mid: map<nat, nat>, now: map<nat, nat>, i: nat, idx: nat,
        a: nat, n: nat, c: nat)
    requires CanLink(l, rc, i, idx, a, n) && Added(rc, mid, a, n) && |Reached(l.l1[i], l.tables)| == l.l2Size && c != 0
    requires GivenBack(Reached(l.l1[i], l.tables), idx, n, mid, now)
    requires TreeSum(l.l1, WithRun(l, i, idx, a, n).tables, c) >= 1
    ensures Rc(now, c) == if Within(a, n, c) then 1 else Rc(rc, c)
  {
    RunRefs(l, rc, i, idx, a, n, c);
    assert Single(l.l1, l.tables, c) && l.OneUse(c);
    if Within(a, n, c) {
      l.Unreferenced(rc, c);
      assert l.ActiveRefs(GuestData, c) == 0;
    }
  }

  lemma RunFlags(l: Layout, rc: map<nat, nat>, mid: map<nat, nat>, now: map<nat, nat>, i: nat, idx: nat, a: nat, n: nat)
    requires CanLink(l, rc, i, idx, a, n) && Added(rc, mid, a, n) && |Reached(l.l1[i], l.tables)| == l.l2Size
    requires GivenBack(Reached(l.l1[i], l.tables), idx, n, mid, now)
    ensures WithRun(l, i, idx, a, n).FlagsOk(now)
  {
    var m := WithRun(l, i, idx, a, n);
    forall j | 0 <= j < |m.l1|
      ensures m.FlagOk(m.l1[j], now)
    {
      assert l.FlagOk(l.l1[j], rc);
      if m.l1[j].cluster != 0 {
        m.EntryCounts(m.l1, j);
        RunCountKept(l, rc, mid, now, i, idx, a, n, m.l1[j].cluster);
        if Within(a, n, m.l1[j].cluster) {
          l.Unreferenced(rc, m.l1[j].cluster);
          assert false;
        }
      }
    }
    forall j | 0 <= j < |m.l1|
      ensures m.TableFlagsOk(Reached(m.l1[j], m.tables), now)
    {
      RunTableFlags(l, rc, mid, now, i, idx, a, n, j);
    }
  }

  lemma RunTableFlags(l: Layout, rc: map<nat, nat>, mid: map<nat, nat>, now: map<nat, nat>, i: nat, idx: nat,
        a: nat, n: nat, j: nat)
    requires CanLink(l, rc, i, idx, a, n) && Added(rc, mid, a, n) && |Reached(l.l1[i], l.tables)| == l.l2Size &&
      j < |l.l1|
    requires GivenBack(Reached(l.l1[i], l.tables), idx, n, mid, now)
    ensures l.TableFlagsOk(Reached(l.l1[j], WithRun(l, i, idx, a, n).tables), now)
  {
    PrivateTable(l, rc, i);
    var m := WithRun(l, i, idx, a, n);
    var t := Reached(l.l1[j], m.tables);
    var s := Reached(l.l1[j], l.tables);
    assert l.TableFlagsOk(s, rc);
    assert |s| == |t|;
    forall y | 0 <= y < |t|
      ensures l.FlagOk(t[y], now)
    {
      assert l.FlagOk(s[y], rc);
      if t[y].cluster != 0 {
        m.DataCounts(m.l1, j, y);
        RunCountKept(l, rc, mid, now, i, idx, a, n, t[y].cluster);
        if Within(a, n, t[y].cluster) && t[y] == s[y] {
          l.DataCounts(l.l1, j, y);
          l.Unreferenced(rc, t[y].cluster);
          assert false;
        }
        if j == i && idx <= y < idx + n {
          assert Within(a, n, a + (y - idx));
        }
      } else if t[y] != s[y] {
        assert Within(a, n, 0);
        l.Unreferenced(rc, 0);
      }
    }
  }

  /** Linking changes exactly the walks of the run. */
  lemma RunWalks(l: Layout, rc: map<nat, nat>, i: nat, idx: nat, a: nat, n: nat, y: nat, j: nat)
    requires CanLink(l, rc, i, idx, a, n)
    ensures Walk(l.l1, WithRun(l, i, idx, a, n).tables, y, j) ==
            if y == i && idx <= j < idx + n then a + (j - idx) else Walk(l.l1, l.tables, y, j)
  {
    PrivateTable(l, rc, i);
    if y < |l.l1| && y != i {
      TableReachedOnce(l.l1, l.tables, l.l2Size, i, y);
    }
  }

  lemma CountOneMore(t: Table, idx: nat, i: nat, c: nat)
    requires idx + i < |t|
    ensures CountTable(t[idx..idx + (i + 1)], c) == CountTable(t[idx..idx + i], c) + One(t[idx + i].cluster == c)
  {
    assert t[idx..idx + (i + 1)][..i] == t[idx..idx + i];
  }

  /** The loop of alloc_cluster_link_l2: put the run in, keeping the mapped
      entries it replaces. */
  method LinkEntries(t: Table, idx: nat, a: nat, n: nat) returns (r: Table, olds: Table)
    requires idx + n <= |t| && Clean(t)
    ensures r == Linked(t, idx, a, n)
    ensures forall i :: 0 <= i < |olds| ==> olds[i].cluster != 0
    ensures forall c: nat :: CountTable(olds, c) == if c == 0 then 0 else CountTable(t[idx..idx + n], c)
  {
    r, olds := t, [];
    var i := 0;
    while i < n
      invariant i <= n && r == Linked(t, idx, a, i)
      invariant forall k :: 0 <= k < |olds| ==> olds[k].cluster != 0
      invariant forall c: nat :: CountTable(olds, c) == if c == 0 then 0 else CountTable(t[idx..idx + i], c)
    {
      ghost var was := olds;
      if r[idx + i] != UNMAPPED {
        olds := olds + [r[idx + i]];
        assert olds[..|olds| - 1] == was;
      }
      r := r[idx + i := Entry(a + i, true)];
      forall c: nat
        ensures CountTable(olds, c) == if c == 0 then 0 else CountTable(t[idx..idx + (i + 1)], c)
      {
        CountOneMore(t, idx, i, c);
      }
      i := i + 1;
    }
  }

  /** A cluster that the run replaces has a reference from elsewhere too. */
  lemma Replaced(l: Layout, rc: map<nat, nat>, i: nat, idx: nat, a: nat, n: nat, c: nat)
    requires CanLink(l, rc, i, idx, a, n) && |Reached(l.l1[i], l.tables)| == l.l2Size
    ensures c != 0 ==> CountTable(Reached(l.l1[i], l.tables)[idx..idx + n], c) <= 1
    ensures c != 0 && CountTable(Reached(l.l1[i], l.tables)[idx..idx + n], c) == 1 ==> Rc(rc, c) >= 2
  {
    var t := Reached(l.l1[i], l.tables);
    if c != 0 && CountTable(t[idx..idx + n], c) >= 1 {
      SumEntry(l.l1, l.tables, i, c);
      assert Single(l.l1, l.tables, c) && l.CountedRight(rc, c);
      var y := CountFind(t[idx..idx + n], c);
      assert t[idx + y].cluster == c && !t[idx + y].copied;
      assert l.TableFlagsOk(t, rc) && l.FlagOk(t[idx + y], rc);
      CountStretch(t, idx, n, c);
    }
  }

  /** A stretch of a table counts no more than the table. */
  lemma CountStretch(t: Table, idx: nat, n: nat, c: nat)
    requires idx + n <= |t|
    ensures CountTable(t[idx..idx + n], c) <= CountTable(t, c)
  {
    CountPrefix(t, idx + n, c);
    CountSplit(t[..idx], t[idx..idx + n], c);
    assert t[..idx] + t[idx..idx + n] == t[..idx + n];
  }
}
