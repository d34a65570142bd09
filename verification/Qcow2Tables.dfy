/**
 qcow2 mapping tables and the references they make.

 A guest cluster is found through a level-1 table, whose entries name level-2
 tables, whose entries name data clusters.  The debug checker of the driver
 (check_refcounts) counts, for every host cluster, the references made by each
 level-1 table, by each level-2 table reached from it, and by metadata; the
 functions here are that count, one cluster at a time.
 */
module Qcow2Tables {
  import opened Collections

  /** A table entry: a host cluster, 0 if unmapped, and the COPIED flag. */
  datatype Entry = Entry(cluster: nat, copied: bool)

  type Table = seq<Entry>

  const UNMAPPED := Entry(0, false)

  function One(b: bool): nat {
    if b then 1 else 0
  }

  // ----- references from one table

  /** How many entries of the table name cluster c. */
  ghost function CountTable(t: Table, c: nat): nat {
    if t == [] then 0 else CountTable(t[..|t| - 1], c) + One(t[|t| - 1].cluster == c)
  }

  lemma {:induction false} CountPrefix(t: Table, i: nat, c: nat)
    requires i <= |t|
    ensures CountTable(t[..i], c) <= CountTable(t, c)
    ensures i < |t| ==> CountTable(t[..i + 1], c) == CountTable(t[..i], c) + One(t[i].cluster == c) <= CountTable(t, c)
    decreases |t| - i
  {
    if i < |t| {
      assert t[..i + 1][..i] == t[..i];
      CountPrefix(t, i + 1, c);
    } else {
      assert t[..i] == t;
    }
  }

  lemma CountEntry(t: Table, i: nat)
    requires i < |t|
    ensures CountTable(t, t[i].cluster) >= 1
  {
    CountPrefix(t, i, t[i].cluster);
  }

  lemma {:induction false} CountFind(t: Table, c: nat) returns (i: nat)
    requires CountTable(t, c) >= 1
    ensures i < |t| && t[i].cluster == c
  {
    if t[|t| - 1].cluster == c {
      i := |t| - 1;
    } else {
      i := CountFind(t[..|t| - 1], c);
    }
  }

  lemma {:induction false} CountUpdate(t: Table, i: nat, e: Entry, c: nat)
    requires i < |t|
    ensures CountTable(t[i := e], c) + One(t[i].cluster == c) == CountTable(t, c) + One(e.cluster == c)
  {
    var n := |t| - 1;
    if i == n {
      assert t[i := e][..n] == t[..n];
    } else {
      assert t[i := e][..n] == t[..n][i := e];
      CountUpdate(t[..n], i, e, c);
    }
  }

  /** Same clusters, whatever the flags. */
  ghost predicate SameClusters(t: Table, u: Table) {
    |t| == |u| && forall i :: 0 <= i < |t| ==> t[i].cluster == u[i].cluster
  }

  lemma {:induction false} CountSame(t: Table, u: Table, c: nat)
    requires SameClusters(t, u)
    ensures CountTable(t, c) == CountTable(u, c)
  {
    if t != [] {
      CountSame(t[..|t| - 1], u[..|u| - 1], c);
    }
  }

  /** Two entries naming the same cluster count twice. */
  lemma {:induction false} CountTwice(t: Table, i: nat, j: nat)
    requires i < j < |t| && t[i].cluster == t[j].cluster
    ensures CountTable(t, t[i].cluster) >= 2
  {
    CountPrefix(t, j, t[j].cluster);
    CountEntry(t[..j], i);
  }

  lemma {:induction false} CountSplit(s: Table, t: Table, c: nat)
    ensures CountTable(s + t, c) == CountTable(s, c) + CountTable(t, c)
  {
    if t == [] {
      assert s + t == s;
    } else {
      assert (s + t)[..|s + t| - 1] == s + t[..|t| - 1];
      CountSplit(s, t[..|t| - 1], c);
    }
  }

  // ----- references from a tree

  /** The table a level-1 entry leads to; empty if there is none. */
  ghost function Reached(e: Entry, tables: map<nat, Table>): Table {
    if e.cluster != 0 && e.cluster in tables then tables[e.cluster] else []
  }

  /** References to c from the level-2 tables reached from l1. */
  ghost function SumTables(l1: Table, tables: map<nat, Table>, c: nat): nat {
    if l1 == [] then 0
    else SumTables(l1[..|l1| - 1], tables, c) + CountTable(Reached(l1[|l1| - 1], tables), c)
  }

  /** All references to c from one level-1 table and the tables under it. */
  ghost function CountTree(l1: Table, tables: map<nat, Table>, c: nat): nat {
    CountTable(l1, c) + SumTables(l1, tables, c)
  }

  lemma {:induction false} SumPrefix(l1: Table, tables: map<nat, Table>, i: nat, c: nat)
    requires i <= |l1|
    ensures SumTables(l1[..i], tables, c) <= SumTables(l1, tables, c)
    ensures i < |l1| ==> (
      SumTables(l1[..i + 1], tables, c) == SumTables(l1[..i], tables, c) + CountTable(Reached(l1[i], tables), c))
    ensures i < |l1| ==> SumTables(l1[..i + 1], tables, c) <= SumTables(l1, tables, c)
    decreases |l1| - i
  {
    if i < |l1| {
      assert l1[..i + 1][..i] == l1[..i];
      SumPrefix(l1, tables, i + 1, c);
    } else {
      assert l1[..i] == l1;
    }
  }

  lemma SumEntry(l1: Table, tables: map<nat, Table>, i: nat, c: nat)
    requires i < |l1|
    ensures SumTables(l1, tables, c) >= CountTable(Reached(l1[i], tables), c)
  {
    SumPrefix(l1, tables, i, c);
  }

  /** Two level-1 entries whose tables both name c count twice. */
  lemma SumTwice(l1: Table, tables: map<nat, Table>, i: nat, j: nat, c: nat)
    requires i < j < |l1|
    ensures SumTables(l1, tables, c) >= CountTable(Reached(l1[i], tables), c) + CountTable(Reached(l1[j], tables), c)
  {
    SumPrefix(l1, tables, j, c);
    SumEntry(l1[..j], tables, i, c);
  }

  lemma {:induction false} SumFind(l1: Table, tables: map<nat, Table>, c: nat) returns (i: nat)
    requires SumTables(l1, tables, c) >= 1
    ensures i < |l1| && CountTable(Reached(l1[i], tables), c) >= 1
  {
    if CountTable(Reached(l1[|l1| - 1], tables), c) >= 1 {
      i := |l1| - 1;
    } else {
      i := SumFind(l1[..|l1| - 1], tables, c);
    }
  }

  /** Replacing one level-1 entry replaces its table's references. */
  lemma {:induction false} SumUpdate(l1: Table, tables: map<nat, Table>, i: nat, e: Entry, c: nat)
    requires i < |l1|
    ensures SumTables(l1[i := e], tables, c) + CountTable(Reached(l1[i], tables), c) ==
            SumTables(l1, tables, c) + CountTable(Reached(e, tables), c)
  {
    var n := |l1| - 1;
    if i == n {
      assert l1[i := e][..n] == l1[..n];
    } else {
      assert l1[i := e][..n] == l1[..n][i := e];
      SumUpdate(l1[..n], tables, i, e, c);
    }
  }

  /** The count depends on the level-1 clusters and the tables they reach, not on flags. */
  lemma {:induction false} SumSame(l1: Table, m1: Table, tables: map<nat, Table>, now: map<nat, Table>, c: nat)
    requires SameClusters(l1, m1)
    requires forall i :: 0 <= i < |l1| ==> SameClusters(Reached(l1[i], tables), Reached(m1[i], now))
    ensures SumTables(l1, tables, c) == SumTables(m1, now, c)
  {
    if l1 != [] {
      var n := |l1| - 1;
      assert SameClusters(Reached(l1[n], tables), Reached(m1[n], now));
      CountSame(Reached(l1[n], tables), Reached(m1[n], now), c);
      forall i | 0 <= i < n
        ensures SameClusters(Reached(l1[..n][i], tables), Reached(m1[..n][i], now))
      {
        assert SameClusters(Reached(l1[i], tables), Reached(m1[i], now));
      }
      SumSame(l1[..n], m1[..n], tables, now, c);
    }
  }

  // ----- well-formed trees

  /** An unmapped entry is all zero. */
  ghost predicate Clean(t: Table) {
    forall i :: 0 <= i < |t| && t[i].cluster == 0 ==> !t[i].copied
  }

  /** Every level-1 entry leads to a table of n entries, and no cluster is
      referenced twice from within the tree. */
  ghost predicate TreeOk(l1: Table, tables: map<nat, Table>, n: nat) {
    && (forall i :: 0 <= i < |l1| && l1[i].cluster != 0 ==> l1[i].cluster in tables && |tables[l1[i].cluster]| == n)
    && Clean(l1)
    && (forall i :: 0 <= i < |l1| ==> Clean(Reached(l1[i], tables)))
    && (forall c: nat :: c != 0 ==> Single(l1, tables, c))
  }

  ghost predicate Single(l1: Table, tables: map<nat, Table>, c: nat) {
    CountTree(l1, tables, c) <= 1
  }

  /** In a well-formed tree a level-2 table is reached by one entry only, and is not also data. */
  lemma TableReachedOnce(l1: Table, tables: map<nat, Table>, n: nat, i: nat, j: nat)
    requires TreeOk(l1, tables, n) && i < |l1| && j < |l1| && i != j && l1[i].cluster != 0
    ensures l1[i].cluster != l1[j].cluster
  {
    assert Single(l1, tables, l1[i].cluster);
    if l1[i].cluster == l1[j].cluster {
      CountTwice(l1, if i < j then i else j, if i < j then j else i);
    }
  }

  // ----- tables with nothing mapped

  /** A table with nothing mapped. */
  function Zeros(n: nat): (t: Table)
    ensures |t| == n
  {
    Repeat(UNMAPPED, n)
  }

  lemma {:induction false} EmptyTree(n: nat, tables: map<nat, Table>, c: nat)
    ensures SumTables(Zeros(n), tables, c) == 0
    ensures c != 0 ==> CountTable(Zeros(n), c) == 0
  {
    if n > 0 {
      assert Zeros(n)[..n - 1] == Zeros(n - 1);
      EmptyTree(n - 1, tables, c);
    }
  }

  lemma EmptyTreeOk(n: nat, tables: map<nat, Table>, l2Size: nat)
    ensures TreeOk(Zeros(n), tables, l2Size)
  {
    forall c: nat | c != 0
      ensures Single(Zeros(n), tables, c)
    {
      EmptyTree(n, tables, c);
    }
  }

  // ----- reference counts

  /** get_refcount: clusters the refcount blocks do not cover count 0. */
  function Rc(rc: map<nat, nat>, c: nat): nat {
    if c in rc then rc[c] else 0
  }

  /** addend * n, for an addend of -1, 0 or 1. */
  function Times(addend: int, n: nat): int {
    if addend > 0 then n else if addend < 0 then 0 - n else 0
  }

  /** What n calls of update_cluster_refcount make of a count, for n of at most
      one: a count that would leave 0 to 0xffff is kept. */
  function Bump(count: nat, addend: int, n: nat): nat {
    var now := count + Times(addend, n);
    if 0 <= now <= 0xffff then now else count
  }

  /** One run of update_snapshot_refcount: the counts and tables it starts
      from, the level-1 table it walks, and what it adds to each count. */
  datatype Pass = Pass(rc: map<nat, nat>, addend: int, l1: Table, tables: map<nat, Table>)
  {
    /** The count of c once the first i level-1 entries have been walked. */
    ghost function Before(i: nat, c: nat): nat
      requires i <= |l1|
    {
      Bump(Rc(rc, c), addend, CountTable(l1[..i], c) + SumTables(l1[..i], tables, c))
    }

    /** The count of c once also j entries of the table under entry i have been. */
    ghost function Midway(i: nat, j: nat, c: nat): nat
      requires i < |l1| && j <= |Reached(l1[i], tables)|
    {
      Bump(Rc(rc, c), addend,
        CountTable(l1[..i], c) + SumTables(l1[..i], tables, c) + CountTable(Reached(l1[i], tables)[..j], c))
    }

    /** The count of c once the whole tree has been walked. */
    ghost function Final(c: nat): nat {
      Bump(Rc(rc, c), addend, CountTree(l1, tables, c))
    }

    /** An entry with its COPIED flag made to agree with the final count. */
    ghost function FlagEntry(e: Entry): Entry {
      if e.cluster == 0 then e else Entry(e.cluster, Final(e.cluster) == 1)
    }

    ghost function FlagTable(t: Table): (r: Table)
      ensures SameClusters(t, r)
    {
      seq(|t|, i requires 0 <= i < |t| => FlagEntry(t[i]))
    }

    /** The count of c stays in range. */
    ghost predicate InRange(c: nat) {
      0 <= Rc(rc, c) + Times(addend, CountTree(l1, tables, c)) <= 0xffff
    }

    ghost predicate Ok(n: nat) {
      -1 <= addend <= 1 && TreeOk(l1, tables, n)
    }

    lemma BeforeNext(i: nat, c: nat)
      requires i < |l1|
      ensures c != l1[i].cluster ==> Before(i + 1, c) == Midway(i, |Reached(l1[i], tables)|, c)
    {
      var t := Reached(l1[i], tables);
      assert t[..|t|] == t;
      CountPrefix(l1, i, c);
      SumPrefix(l1, tables, i, c);
    }

    lemma MidwayNext(i: nat, j: nat, c: nat)
      requires i < |l1| && j < |Reached(l1[i], tables)|
      ensures c != Reached(l1[i], tables)[j].cluster ==> Midway(i, j + 1, c) == Midway(i, j, c)
    {
      CountPrefix(Reached(l1[i], tables), j, c);
    }

    /** A cluster is counted once, so its count is final as soon as it is visited. */
    lemma EntryVisitedOnce(n: nat, i: nat, j: nat)
      requires Ok(n) && i < |l1| && j < |Reached(l1[i], tables)|
      requires Reached(l1[i], tables)[j].cluster != 0
      ensures var c := Reached(l1[i], tables)[j].cluster;
        Midway(i, j, c) == Rc(rc, c) && Midway(i, j + 1, c) == Final(c) == Bump(Rc(rc, c), addend, 1)
    {
      var t := Reached(l1[i], tables);
      var c := t[j].cluster;
      CountPrefix(t, j, c);
      CountedBefore(n, i, c);
    }

    /** What the entries before entry i, and the table under it, count of a cluster. */
    lemma CountedBefore(n: nat, i: nat, c: nat)
      requires Ok(n) && i < |l1| && c != 0
      ensures CountTable(l1[..i], c) + SumTables(l1[..i], tables, c) + CountTable(Reached(l1[i], tables), c)
        + One(l1[i].cluster == c) <= CountTree(l1, tables, c) <= 1
    {
      CountPrefix(l1, i, c);
      SumPrefix(l1, tables, i, c);
      assert Single(l1, tables, c);
    }

    lemma TableVisitedOnce(n: nat, i: nat)
      requires Ok(n) && i < |l1| && l1[i].cluster != 0
      ensures var c := l1[i].cluster;
        && Midway(i, |Reached(l1[i], tables)|, c) == Rc(rc, c)
        && Before(i + 1, c) == Final(c) == Bump(Rc(rc, c), addend, 1)
    {
      var c := l1[i].cluster;
      var t := Reached(l1[i], tables);
      assert t[..|t|] == t;
      CountPrefix(l1, i, c);
      SumPrefix(l1, tables, i, c);
      CountedBefore(n, i, c);
    }

    /** The level-2 tables afterwards: those of this tree have their flags redone. */
    ghost function ResultTables(): (r: map<nat, Table>)
      ensures r.Keys == tables.Keys
      ensures forall k :: k in tables ==> SameClusters(tables[k], r[k])
    {
      map k | k in tables :: if k != 0 && CountTable(l1, k) >= 1 then FlagTable(tables[k]) else tables[k]
    }

    /** Table k is reached by one of the first i entries. */
    ghost predicate Passed(i: nat, k: nat)
      requires i <= |l1|
    {
      k != 0 && CountTable(l1[..i], k) >= 1
    }

    /** How far the walk over the level-1 table has got. */
    ghost predicate Walked(i: nat, now: map<nat, Table>, u: Table)
      requires i <= |l1|
    {
      && |u| == |l1| && now.Keys == tables.Keys
      && (forall x :: 0 <= x < |l1| ==> u[x] == if x < i then FlagEntry(l1[x]) else l1[x])
      && (forall k :: k in tables ==> now[k] == if Passed(i, k) then FlagTable(tables[k]) else tables[k])
    }

    lemma WalkEmpty(n: nat, i: nat, now: map<nat, Table>, u: Table)
      requires Ok(n) && i < |l1| && l1[i].cluster == 0 && Walked(i, now, u)
      ensures Walked(i + 1, now, u)
    {
      forall k | k in tables
        ensures Passed(i + 1, k) <==> Passed(i, k)
      {
        CountPrefix(l1, i, k);
      }
    }

    lemma WalkOne(n: nat, i: nat, now: map<nat, Table>, u: Table)
      requires Ok(n) && i < |l1| && l1[i].cluster != 0 && Walked(i, now, u)
      ensures !Passed(i, l1[i].cluster) && l1[i].cluster in tables
      ensures var c := l1[i].cluster;
        now[c] == tables[c] && Walked(i + 1, now[c := FlagTable(tables[c])], u[i := FlagEntry(l1[i])])
    {
      var c := l1[i].cluster;
      forall k | k in tables
        ensures Passed(i + 1, k) <==> Passed(i, k) || k == c
      {
        CountPrefix(l1, i, k);
      }
      CountPrefix(l1, i, c);
      assert Single(l1, tables, c);
    }

    lemma WalkedAll(now: map<nat, Table>, u: Table)
      requires Walked(|l1|, now, u)
      ensures now == ResultTables() && u == FlagTable(l1)
    {
      assert l1[..|l1|] == l1;
      assert forall k :: k in tables ==> now[k] == ResultTables()[k];
    }
  }

  // ----- what a pass does to any tree

  /** A pass changes flags only, so it changes no tree's references. */
  lemma PassKeepsCounts(pass: Pass, m1: Table, u1: Table, c: nat)
    requires SameClusters(m1, u1)
    ensures CountTree(u1, pass.ResultTables(), c) == CountTree(m1, pass.tables, c)
  {
    CountSame(m1, u1, c);
    var now := pass.ResultTables();
    forall i | 0 <= i < |m1|
      ensures SameClusters(Reached(m1[i], pass.tables), Reached(u1[i], now))
    {
    }
    SumSame(m1, u1, pass.tables, now, c);
  }

  lemma PassKeepsTree(pass: Pass, m1: Table, u1: Table, n: nat)
    requires TreeOk(m1, pass.tables, n) && SameClusters(m1, u1) && Clean(u1)
    ensures TreeOk(u1, pass.ResultTables(), n)
  {
    var now := pass.ResultTables();
    forall c: nat | c != 0
      ensures Single(u1, now, c)
    {
      assert Single(m1, pass.tables, c);
      PassKeepsCounts(pass, m1, u1, c);
    }
    forall i | 0 <= i < |u1|
      ensures Clean(Reached(u1[i], now))
    {
      assert Clean(Reached(m1[i], pass.tables));
    }
  }
}
