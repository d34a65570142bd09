/**
 How the boot loader stub domain arranges a new kernel's pages (stubdom/grub/kexec.c).

 `p2m` is the physical-to-machine map being prepared.  Page i of the new kernel
 gets a freshly backed frame, and whatever frame was at position i moves to
 where the fresh frame came from.  A frame that was displaced this way is found
 again by following `moved2pfns`, never by searching.
 */
module Kexec {

  ghost predicate Injective(s: seq<nat>) {
    forall i, j :: 0 <= i < |s| && 0 <= j < |s| && s[i] == s[j] ==> i == j
  }

  /** The same frames in another order, none twice. */
  ghost predicate Permutes(s: seq<nat>, t: seq<nat>) {
    && |s| == |t| && Injective(s)
    && (forall i :: 0 <= i < |s| ==> s[i] in t)
    && (forall i :: 0 <= i < |t| ==> t[i] in s)
  }

  lemma SwapPermutes(s: seq<nat>, t: seq<nat>, i: nat, j: nat)
    requires Permutes(s, t) && i < |s| && j < |s|
    ensures Permutes(s[i := s[j]][j := s[i]], t)
  {
    var u := s[i := s[j]][j := s[i]];
    forall k | 0 <= k < |t|
      ensures t[k] in u
    {
      var m :| 0 <= m < |s| && s[m] == t[k];
      assert u[if m == i then j else if m == j then i else m] == t[k];
    }
  }

  /** Following moved2pfns from x while below i strictly climbs and ends at e. */
  ghost predicate Reaches(moved: seq<nat>, x: nat, i: nat, e: nat)
    requires i <= |moved|
    decreases i - x
  {
    if x >= i then e == x
    else x < moved[x] && Reaches(moved, moved[x], i, e)
  }

  lemma {:induction false} EndIsAbove(moved: seq<nat>, x: nat, i: nat, e: nat)
    requires i <= |moved| && Reaches(moved, x, i, e)
    ensures i <= e
    decreases i - x
  {
    if x < i {
      EndIsAbove(moved, moved[x], i, e);
    }
  }

  /** One more step: a chain that ended at i goes on to where i's frame went. */
  lemma {:induction false} ChainStep(moved: seq<nat>, x: nat, i: nat, e: nat, to: nat)
    requires i == |moved| && Reaches(moved, x, i, e)
    requires e == i ==> i < to
    ensures Reaches(moved + [to], x, i + 1, if e == i then to else e)
    decreases i - x
  {
    if x < i {
      ChainStep(moved, moved[x], i, e, to);
    }
  }

  // ----- the state between two allocations

  /** Everything kexec_allocate keeps true after i pages.  `lost` are pages whose
      frames do_exchange has taken away, `targets` where it put them. */
  ghost predicate Arranged(mfn: seq<nat>, p2m: seq<nat>, pages: seq<nat>, moved: seq<nat>,
                           lost: set<nat>, targets: set<nat>) {
    && Injective(mfn) && Permutes(p2m, mfn)
    && |pages| == |moved| <= |mfn|
    && (forall j :: 0 <= j < |pages| ==> pages[j] < |mfn|)
    && Injective(pages)
    && (forall j :: 0 <= j < |pages| && j !in targets ==> p2m[j] == mfn[pages[j]])
    && (forall x: nat :: Available(mfn, pages, lost, x) ==> Tracked(mfn, p2m, moved, x))
  }

  /** Page x still has its frame for the allocator to hand out. */
  ghost predicate Available(mfn: seq<nat>, pages: seq<nat>, lost: set<nat>, x: nat) {
    x < |mfn| && x !in pages && x !in lost
  }

  /** The chain from x ends at the present position of x's frame. */
  ghost predicate Tracked(mfn: seq<nat>, p2m: seq<nat>, moved: seq<nat>, x: nat)
    requires x < |mfn|
  {
    exists e: nat :: e < |p2m| && Reaches(moved, x, |moved|, e) && p2m[e] == mfn[x]
  }

  /** Nothing moved yet: kexec starts from the current map. */
  lemma InitiallyArranged(mfn: seq<nat>)
    requires Injective(mfn)
    ensures Arranged(mfn, mfn, [], [], {}, {})
  {
    forall x: nat | x < |mfn|
      ensures Tracked(mfn, mfn, [], x)
    {
      assert Reaches([], x, 0, x);
    }
  }

  /** One allocation keeps the chain of another page x in step with x's frame. */
  lemma TrackStep(mfn: seq<nat>, p2m: seq<nat>, moved: seq<nat>, n: nat, e: nat, x: nat)
    requires Injective(mfn) && |p2m| == |mfn| && |moved| < |mfn|
    requires n < |mfn| && x < |mfn| && x != n
    requires |moved| <= e < |mfn| && p2m[e] == mfn[n]
    requires Tracked(mfn, p2m, moved, x)
    ensures Tracked(mfn, p2m[e := p2m[|moved|]][|moved| := mfn[n]], moved + [e], x)
  {
    var i := |moved|;
    var f: nat :| f < |p2m| && Reaches(moved, x, i, f) && p2m[f] == mfn[x];
    assert f != e;
    EndIsAbove(moved, x, i, f);
    ChainStep(moved, x, i, f, e);
    var g := if f == i then e else f;
    assert Reaches(moved + [e], x, |moved + [e]|, g);
  }

  /** One allocation: page i := |pages| receives the frame of page n, found at
      the end e of n's chain, and the frame that was at i goes to e. */
  lemma AllocationStep(mfn: seq<nat>, p2m: seq<nat>, pages: seq<nat>, moved: seq<nat>,
                       lost: set<nat>, targets: set<nat>, n: nat, e: nat)
    requires Arranged(mfn, p2m, pages, moved, lost, targets)
    requires |pages| < |mfn| && |pages| !in targets
    requires Available(mfn, pages, lost, n)
    requires e < |mfn| && Reaches(moved, n, |moved|, e) && p2m[e] == mfn[n]
    ensures Arranged(mfn, p2m[e := p2m[|pages|]][|pages| := mfn[n]], pages + [n], moved + [e], lost, targets)
  {
    var i := |pages|;
    EndIsAbove(moved, n, i, e);
    var now := p2m[e := p2m[i]][i := mfn[n]];
    SwapPermutes(p2m, mfn, e, i);
    assert now == p2m[e := p2m[i]][i := p2m[e]];
    forall x: nat | Available(mfn, pages + [n], lost, x)
      ensures Tracked(mfn, now, moved + [e], x)
    {
      assert n in pages + [n];
      assert Available(mfn, pages, lost, x);
      TrackStep(mfn, p2m, moved, n, e, x);
    }
  }

  /** do_exchange at a position the kernel already owns keeps every page that
      can still be handed out where its chain says it is. */
  lemma ExchangeStep(mfn: seq<nat>, p2m: seq<nat>, pages: seq<nat>, moved: seq<nat>,
                     lost: set<nat>, targets: set<nat>, target: nat, source: nat, s: nat)
    requires Arranged(mfn, p2m, pages, moved, lost, targets)
    requires target < |pages| && source < |p2m|
    requires s < |mfn| && s !in pages && p2m[source] == mfn[s]
    ensures Arranged(mfn, p2m[source := p2m[target]][target := mfn[s]], pages, moved,
                     lost + {s}, targets + {target})
  {
    var now := p2m[source := p2m[target]][target := mfn[s]];
    SwapPermutes(p2m, mfn, source, target);
    assert now == p2m[source := p2m[target]][target := p2m[source]];
    forall j | 0 <= j < |pages| && j !in targets + {target}
      ensures now[j] == mfn[pages[j]]
    {
      if j == source {
        assert false; // the frame at j belongs to a handed-out page, and s is none
      }
    }
    forall x: nat | Available(mfn, pages, lost + {s}, x)
      ensures Tracked(mfn, now, moved, x)
    {
      assert Available(mfn, pages, lost, x);
      var f: nat :| f < |p2m| && Reaches(moved, x, |moved|, f) && p2m[f] == mfn[x];
      EndIsAbove(moved, x, |moved|, f);
      assert f != source && f != target;
      assert now[f] == mfn[x];
    }
  }

  // ----- a call that shrinks the image

  /** Cut short to b entries, no chain of a page still to be handed out stops
      at a position that was backed. */
  ghost predicate NoneStops(mfn: seq<nat>, pages: seq<nat>, moved: seq<nat>, lost: set<nat>, b: nat)
    requires b <= |moved|
  {
    forall x: nat :: Available(mfn, pages, lost, x) ==> StopsLate(moved, x, b)
  }

  /** Cut short to b entries, the chain from x stops past all that were there. */
  ghost predicate StopsLate(moved: seq<nat>, x: nat, b: nat)
    requires b <= |moved|
  {
    forall e: nat :: Reaches(moved[..b], x, b, e) ==> |moved| <= e
  }

  /** A chain cut short stops on the way to where it ended. */
  lemma {:induction false} CutChain(moved: seq<nat>, x: nat, b: nat, f: nat) returns (e: nat)
    requires b <= |moved| && Reaches(moved, x, |moved|, f)
    ensures Reaches(moved[..b], x, b, e) && (|moved| <= e ==> e == f)
    decreases |moved| - x
  {
    if x < b {
      e := CutChain(moved, moved[x], b, f);
    } else {
      e := x;
    }
  }

  lemma {:induction false} OneEnd(moved: seq<nat>, x: nat, i: nat, e: nat, f: nat)
    requires i <= |moved| && Reaches(moved, x, i, e) && Reaches(moved, x, i, f)
    ensures e == f
    decreases i - x
  {
    if x < i {
      OneEnd(moved, moved[x], i, e, f);
    }
  }

  /** What a shrinking call leaves: the pages dropped stay allocated. */
  ghost predicate ArrangedCut(mfn: seq<nat>, p2m: seq<nat>, pages: seq<nat>, moved: seq<nat>, lost: set<nat>,
                              targets: set<nat>, b: nat)
    requires b <= |pages| == |moved|
  {
    Arranged(mfn, p2m, pages[..b], moved[..b], lost + Dropped(pages, b), targets * Below(b))
  }

  ghost function Dropped(pages: seq<nat>, b: nat): set<nat>
    requires b <= |pages|
  {
    set x | x in pages[b..]
  }

  function Below(b: nat): (s: set<nat>)
    ensures forall x :: x in s <==> 0 <= x < b
  {
    if b == 0 then {} else Below(b - 1) + {b - 1}
  }

  lemma SameAvailable(mfn: seq<nat>, pages: seq<nat>, lost: set<nat>, b: nat, x: nat)
    requires b <= |pages|
    ensures Available(mfn, pages[..b], lost + Dropped(pages, b), x) <==> Available(mfn, pages, lost, x)
  {
    assert pages == pages[..b] + pages[b..];
  }

  /** Shrinking the image keeps every page findable if and only if none stops. */
  lemma ShrinkIff(mfn: seq<nat>, p2m: seq<nat>, pages: seq<nat>, moved: seq<nat>, lost: set<nat>, targets: set<nat>,
      b: nat)
    requires Arranged(mfn, p2m, pages, moved, lost, targets) && b <= |pages|
    ensures ArrangedCut(mfn, p2m, pages, moved, lost, targets, b) <==> NoneStops(mfn, pages, moved, lost, b)
  {
    forall x: nat | Available(mfn, pages, lost, x)
      ensures Tracked(mfn, p2m, moved[..b], x) <==> StopsLate(moved, x, b)
    {
      CutTracked(mfn, p2m, moved, x, b);
    }
    forall x: nat
      ensures Available(mfn, pages[..b], lost + Dropped(pages, b), x) <==> Available(mfn, pages, lost, x)
    {
      SameAvailable(mfn, pages, lost, b, x);
    }
  }

  lemma CutTracked(mfn: seq<nat>, p2m: seq<nat>, moved: seq<nat>, x: nat, b: nat)
    requires Permutes(p2m, mfn) && x < |mfn| && b <= |moved| && Tracked(mfn, p2m, moved, x)
    ensures Tracked(mfn, p2m, moved[..b], x) <==> StopsLate(moved, x, b)
  {
    var f: nat :| f < |p2m| && Reaches(moved, x, |moved|, f) && p2m[f] == mfn[x];
    EndIsAbove(moved, x, |moved|, f);
    var e := CutChain(moved, x, b, f);
    assert |moved[..b]| == b;
    forall g: nat | Reaches(moved[..b], x, b, g)
      ensures g == e
    {
      OneEnd(moved[..b], x, b, e, g);
    }
    if |moved| <= e {
      assert Reaches(moved[..b], x, |moved[..b]|, f) && p2m[f] == mfn[x];
      assert StopsLate(moved, x, b);
    } else {
      assert !StopsLate(moved, x, b);
      forall g: nat | g < |p2m| && Reaches(moved[..b], x, |moved[..b]|, g)
        ensures p2m[g] != mfn[x]
      {
        assert g == e && g != f;
      }
      assert !Tracked(mfn, p2m, moved[..b], x);
    }
  }

  /** Two pages, one position backed by page 1, the image shrunk to nothing and
      grown again with page 0: frame 10 is there twice and frame 11 is gone. */
  lemma ShrinkLosesAFrame()
    ensures Arranged([10, 11], [11, 10], [1], [1], {}, {}) && !NoneStops([10, 11], [1], [1], {}, 0)
    ensures var e, i, n, p2m := 0, 0, 0, [11, 10];
      Reaches([], n, i, e) && p2m[e := p2m[i]][i := [10, 11][n]] == [10, 10]
  {
    var mfn, p2m := [10, 11], [11, 10];
    assert p2m[0] in mfn && p2m[1] in mfn && mfn[0] in p2m && mfn[1] in p2m by {
      assert p2m[0] == mfn[1] && p2m[1] == mfn[0];
    }
    assert Reaches([1], 0, 1, 1) by {
      assert Reaches([1], 1, 1, 1);
    }
    assert Tracked(mfn, p2m, [1], 0);
    assert 1 in [1];
    assert Available(mfn, [1], {}, 0) && Reaches([1][..0], 0, 0, 0);
  }

  // ----- the machine-to-physical updates

  /** Applying a list of (frame, pfn) updates, as HYPERVISOR_mmu_update does. */
  function Apply(m2p: map<nat, nat>, updates: seq<(nat, nat)>): map<nat, nat> {
    if updates == [] then m2p
    else Apply(m2p, updates[..|updates| - 1])[updates[|updates| - 1].0 := updates[|updates| - 1].1]
  }

  /** How many of the first k positions hold another frame than before. */
  function Moved(p2m: seq<nat>, mfn: seq<nat>, k: nat): nat
    requires k <= |p2m| == |mfn|
  {
    if k == 0 then 0 else Moved(p2m, mfn, k - 1) + (if p2m[k - 1] != mfn[k - 1] then 1 else 0)
  }

  lemma {:induction false} MovedMonotone(p2m: seq<nat>, mfn: seq<nat>, j: nat, k: nat)
    requires j <= k <= |p2m| == |mfn|
    ensures Moved(p2m, mfn, j) <= Moved(p2m, mfn, k)
    decreases k - j
  {
    if j < k {
      MovedMonotone(p2m, mfn, j, k - 1);
    }
  }

  /** Frame f has moved to one of the first k positions. */
  ghost predicate Touched(p2m: seq<nat>, mfn: seq<nat>, k: nat, f: nat)
    requires k <= |p2m| == |mfn|
  {
    exists j :: 0 <= j < k && p2m[j] != mfn[j] && p2m[j] == f
  }

  ghost predicate SameEntry(m2p: map<nat, nat>, now: map<nat, nat>, f: nat) {
    if f in m2p then f in now && now[f] == m2p[f] else f !in now
  }

  /** Where an update list built from the first k positions leaves the table. */
  ghost predicate UpdatedUpTo(m2p: map<nat, nat>, now: map<nat, nat>, p2m: seq<nat>, mfn: seq<nat>, k: nat)
    requires k <= |p2m| == |mfn|
  {
    && (forall j :: 0 <= j < k && p2m[j] != mfn[j] ==> p2m[j] in now && now[p2m[j]] == j)
    && (forall f: nat :: !Touched(p2m, mfn, k, f) ==> SameEntry(m2p, now, f))
  }

  lemma OneMoreUpdate(m2p: map<nat, nat>, now: map<nat, nat>, p2m: seq<nat>, mfn: seq<nat>, k: nat)
    requires k < |p2m| == |mfn| && Injective(p2m)
    requires UpdatedUpTo(m2p, now, p2m, mfn, k)
    ensures UpdatedUpTo(m2p, if p2m[k] != mfn[k] then now[p2m[k] := k] else now, p2m, mfn, k + 1)
  {
    var next := if p2m[k] != mfn[k] then now[p2m[k] := k] else now;
    forall f: nat | !Touched(p2m, mfn, k + 1, f)
      ensures SameEntry(m2p, next, f)
    {
      assert !Touched(p2m, mfn, k, f);
    }
  }

  /** After all updates the machine-to-physical table inverts the new map, and
      frames of other domains are untouched. */
  lemma UpdatesInvert(m2p: map<nat, nat>, now: map<nat, nat>, p2m: seq<nat>, mfn: seq<nat>)
    requires Permutes(p2m, mfn) && Injective(mfn)
    requires forall x :: 0 <= x < |mfn| ==> mfn[x] in m2p && m2p[mfn[x]] == x
    requires UpdatedUpTo(m2p, now, p2m, mfn, |p2m|)
    ensures forall j :: 0 <= j < |p2m| ==> p2m[j] in now && now[p2m[j]] == j
    ensures forall f: nat :: f !in mfn ==> SameEntry(m2p, now, f)
  {
    forall j | 0 <= j < |p2m| && p2m[j] == mfn[j]
      ensures p2m[j] in now && now[p2m[j]] == j
    {
      assert !Touched(p2m, mfn, |p2m|, p2m[j]);
    }
    forall f: nat | f !in mfn
      ensures SameEntry(m2p, now, f)
    {
      assert !Touched(p2m, mfn, |p2m|, f);
    }
  }

  class Builder {
    /** pfn_to_mfn: the map the domain runs on. */
    const mfn: seq<nat>
    /** dom->p2m_host: the map being prepared. */
    const p2m: array<nat>
    var pages: seq<nat>
    var pagesMfns: seq<nat>
    var moved2pfns: seq<nat>
    var backed: nat
    ghost var lost: set<nat>
    ghost var targets: set<nat>

    ghost predicate Valid()
      reads this, p2m
    {
      && Arranged(mfn, p2m[..], pages, moved2pfns, lost, targets)
      && backed == |pages| == |pagesMfns|
      && (forall j :: 0 <= j < backed ==> pagesMfns[j] == mfn[pages[j]])
      && (forall t :: t in targets ==> t < backed)
    }

    constructor (mfn: seq<nat>)
      requires Injective(mfn)
      ensures Valid() && this.mfn == mfn && p2m[..] == mfn && fresh(p2m)
      ensures pages == [] && lost == {} && targets == {}
    {
      this.mfn := mfn;
      p2m := new nat[|mfn|](i requires 0 <= i < |mfn| => mfn[i]);
      pages, pagesMfns, moved2pfns, backed := [], [], [], 0;
      lost, targets := {}, {};
      new;
      assert p2m[..] == mfn;
      InitiallyArranged(mfn);
    }

    /** kexec_allocate: back positions up to newBacked with the pages the
        allocator hands out; or forget those from newBacked on. */
    method Allocate(newBacked: nat, handed: seq<nat>)
      requires Valid() && newBacked <= |mfn|
      requires |handed| == (if newBacked < backed then 0 else newBacked - backed) && Injective(handed)
      requires forall k :: 0 <= k < |handed| ==> Available(mfn, pages, lost, handed[k])
      modifies this, p2m
      ensures backed == newBacked
      ensures newBacked < old(backed) ==> pages == old(pages)[..newBacked] && p2m[..] == old(p2m[..])
      ensures newBacked < old(backed) ==> (Valid() <==> old(NoneStops(mfn, pages, moved2pfns, lost, newBacked)))
      ensures newBacked >= old(backed) ==> Valid() && lost == old(lost) && targets == old(targets)
      ensures newBacked >= old(backed) ==> pages == old(pages) + handed
      ensures newBacked >= old(backed) ==> forall j :: 0 <= j < backed && j !in targets ==> p2m[j] == mfn[pages[j]]
      ensures forall j :: 0 <= j < old(backed) ==> p2m[j] == old(p2m[j])
    {
      if newBacked < backed {
        Shrink(newBacked);
      } else {
        Grow(newBacked, handed);
      }
    }

    method Shrink(newBacked: nat)
      requires Valid() && newBacked < backed
      modifies this
      ensures backed == newBacked && pages == old(pages)[..newBacked]
      ensures Valid() <==> old(NoneStops(mfn, pages, moved2pfns, lost, newBacked))
    {
      ShrinkIff(mfn, p2m[..], pages, moved2pfns, lost, targets, newBacked);
      lost, targets := lost + Dropped(pages, newBacked), targets * Below(newBacked);
      pages, pagesMfns, moved2pfns := pages[..newBacked], pagesMfns[..newBacked], moved2pfns[..newBacked];
      backed := newBacked;
    }

    method Grow(newBacked: nat, handed: seq<nat>)
      requires Valid() && backed <= newBacked <= |mfn|
      requires |handed| == newBacked - backed && Injective(handed)
      requires forall k :: 0 <= k < |handed| ==> Available(mfn, pages, lost, handed[k])
      modifies this, p2m
      ensures Valid() && lost == old(lost) && targets == old(targets)
      ensures backed == newBacked && pages == old(pages) + handed
      ensures forall j :: 0 <= j < old(backed) ==> p2m[j] == old(p2m[j])
    {
      ghost var start := backed;
      assert handed[..0] == [];
      while backed < newBacked
        invariant Valid() && start <= backed <= newBacked
        invariant lost == old(lost) && targets == old(targets)
        invariant pages == old(pages) + handed[..backed - start]
        invariant forall j :: 0 <= j < start ==> p2m[j] == old(p2m[j])
      {
        var k := backed - (newBacked - |handed|);
        assert Available(mfn, pages, lost, handed[k]) by {
          assert Available(mfn, old(pages), lost, handed[k]);
        }
        assert handed[..k + 1] == handed[..k] + [handed[k]];
        BackOne(handed[k]);
      }
      assert handed[..newBacked - start] == handed;
    }

    /** One iteration: put page n's frame at position i, and what was there at
        the position n's frame came from. */
    method BackOne(n: nat)
      requires Valid() && backed < |mfn| && Available(mfn, pages, lost, n)
      modifies this, p2m
      ensures Valid() && lost == old(lost) && targets == old(targets)
      ensures backed == old(backed) + 1 && pages == old(pages) + [n]
      ensures forall j :: 0 <= j < old(backed) ==> p2m[j] == old(p2m[j])
    {
      var i := backed;
      ghost var was: seq<nat> := p2m[..];
      var oldMfn := p2m[i];
      var newMfn := mfn[n];
      assert Tracked(mfn, was, moved2pfns, n);
      var newPfn := Locate(n, i);
      AllocationStep(mfn, was, pages, moved2pfns, lost, targets, n, newPfn);
      pages, pagesMfns := pages + [n], pagesMfns + [newMfn];
      moved2pfns := moved2pfns + [newPfn];
      p2m[newPfn] := oldMfn;
      p2m[i] := newMfn;
      assert p2m[..] == was[newPfn := oldMfn][i := newMfn];
      backed := i + 1;
    }

    /** The search loop of kexec_allocate: follow the chain from a page to the
        position that holds its frame now. */
    method Locate(pfn: nat, i: nat) returns (r: nat)
      requires i == |moved2pfns| && pfn < |mfn| && p2m.Length == |mfn|
      requires Tracked(mfn, p2m[..], moved2pfns, pfn)
      ensures i <= r < |mfn| && p2m[r] == mfn[pfn]
      ensures Reaches(moved2pfns, pfn, i, r)
    {
      ghost var e: nat :| e < |p2m[..]| && Reaches(moved2pfns, pfn, i, e) && p2m[..][e] == mfn[pfn];
      r := pfn;
      while r < i
        invariant Reaches(moved2pfns, r, i, e)
        decreases i - r
      {
        r := moved2pfns[r];
      }
      EndIsAbove(moved2pfns, pfn, i, e);
    }

    /** The search of do_exchange: the position that holds a frame. */
    method FindFrame(frame: nat) returns (source: nat)
      requires frame in p2m[..]
      ensures source < p2m.Length && p2m[source] == frame
    {
      source := 0;
      while source < p2m.Length && p2m[source] != frame
        invariant source <= p2m.Length && forall k :: 0 <= k < source ==> p2m[k] != frame
      {
        source := source + 1;
      }
    }

    /** do_exchange: bring a frame the domain itself uses to a given position. */
    method Exchange(target: nat, sourceMfn: nat) returns (ghost s: nat)
      requires Valid() && target < backed
      requires sourceMfn in mfn && forall j :: 0 <= j < backed ==> sourceMfn != pagesMfns[j]
      modifies this, p2m
      ensures Valid() && pages == old(pages) && targets == old(targets) + {target}
      ensures s < |mfn| && mfn[s] == sourceMfn && lost == old(lost) + {s}
      ensures p2m[target] == sourceMfn
      ensures forall j :: 0 <= j < |mfn| && j != target && old(p2m[j]) != sourceMfn ==> p2m[j] == old(p2m[j])
    {
      ghost var was: seq<nat> := p2m[..];
      s :| s < |mfn| && mfn[s] == sourceMfn;
      assert mfn[s] in was;
      var source := FindFrame(sourceMfn);
      var targetMfn: nat := p2m[target];
      ExchangeStep(mfn, was, pages, moved2pfns, lost, targets, target, source, s);
      p2m[source] := targetMfn;
      p2m[target] := sourceMfn;
      assert p2m[..] == was[source := targetMfn][target := sourceMfn];
      lost, targets := lost + {s}, targets + {target};
    }

    /** The update list kexec hands to the hypervisor: counted first, then filled in. */
    method BuildUpdates(ghost m2p: map<nat, nat>) returns (updates: array<(nat, nat)>)
      requires Valid()
      requires forall x :: 0 <= x < |mfn| ==> mfn[x] in m2p && m2p[mfn[x]] == x
      ensures fresh(updates) && updates.Length == Moved(p2m[..], mfn, |mfn|)
      ensures var now := Apply(m2p, updates[..]);
        && (forall j :: 0 <= j < |mfn| ==> p2m[j] in now && now[p2m[j]] == j)
        && (forall f: nat :: f !in mfn ==> SameEntry(m2p, now, f))
    {
      var n, pfn := 0, 0;
      while pfn < |mfn|
        invariant pfn <= |mfn| && n == Moved(p2m[..], mfn, pfn)
      {
        if p2m[pfn] != mfn[pfn] {
          n := n + 1;
        }
        pfn := pfn + 1;
      }
      updates := new (nat, nat)[n];
      FillUpdates(m2p, updates);
      UpdatesInvert(m2p, Apply(m2p, updates[..]), p2m[..], mfn);
    }

    method FillUpdates(ghost m2p: map<nat, nat>, updates: array<(nat, nat)>)
      requires p2m.Length == |mfn| && Injective(p2m[..])
      requires updates.Length == Moved(p2m[..], mfn, |mfn|)
      modifies updates
      ensures UpdatedUpTo(m2p, Apply(m2p, updates[..]), p2m[..], mfn, |mfn|)
    {
      var i, pfn := 0, 0;
      while pfn < |mfn|
        invariant pfn <= |mfn| && i == Moved(p2m[..], mfn, pfn) <= updates.Length
        invariant UpdatedUpTo(m2p, Apply(m2p, updates[..i]), p2m[..], mfn, pfn)
      {
        MovedMonotone(p2m[..], mfn, pfn + 1, |mfn|);
        OneMoreUpdate(m2p, Apply(m2p, updates[..i]), p2m[..], mfn, pfn);
        if p2m[pfn] != mfn[pfn] {
          ghost var done := updates[..i];
          updates[i] := (p2m[pfn], pfn);
          assert updates[..i + 1] == done + [(p2m[pfn], pfn)];
          assert (done + [(p2m[pfn], pfn)])[..i] == done;
          i := i + 1;
        }
        pfn := pfn + 1;
      }
      assert updates[..i] == updates[..];
    }
  }

  function Flat(growth: seq<seq<nat>>): seq<nat> {
    if growth == [] then [] else Flat(growth[..|growth| - 1]) + growth[|growth| - 1]
  }

  lemma {:induction false} FlatPrefix(growth: seq<seq<nat>>, k: nat)
    requires k <= |growth|
    ensures Flat(growth[..k]) <= Flat(growth)
    decreases |growth|
  {
    if k < |growth| {
      assert growth[..|growth| - 1][..k] == growth[..k];
      FlatPrefix(growth[..|growth| - 1], k);
    } else {
      assert growth[..k] == growth;
    }
  }

  /** A frame the running domain uses for itself, so the allocator never hands it out. */
  ghost predicate OwnFrame(mfn: seq<nat>, handed: seq<nat>, f: nat) {
    f in mfn && forall k :: 0 <= k < |handed| && handed[k] < |mfn| ==> mfn[handed[k]] != f
  }

  lemma OwnFrameStays(mfn: seq<nat>, handed: seq<nat>, f: nat, x: nat)
    requires OwnFrame(mfn, handed, f) && x < |mfn| && mfn[x] == f
    ensures x !in handed
  {
  }

  /** xc_dom_build_image as kexec sees it: a growing series of allocation calls. */
  method BuildImage(mfn: seq<nat>, growth: seq<seq<nat>>) returns (b: Builder)
    requires Injective(mfn)
    requires Injective(Flat(growth)) && |Flat(growth)| <= |mfn|
    requires forall k :: 0 <= k < |Flat(growth)| ==> Flat(growth)[k] < |mfn|
    ensures fresh(b) && fresh(b.p2m) && b.Valid() && b.mfn == mfn
    ensures b.pages == Flat(growth) && b.lost == {} && b.targets == {}
  {
    b := new Builder(mfn);
    var k := 0;
    assert growth[..0] == [];
    while k < |growth|
      invariant k <= |growth| && b.Valid() && b.mfn == mfn && fresh(b) && fresh(b.p2m)
      invariant b.pages == Flat(growth[..k]) && b.lost == {} && b.targets == {}
    {
      assert growth[..k + 1][..k] == growth[..k];
      FlatPrefix(growth, k + 1);
      NextBatch(mfn, Flat(growth), b.pages, growth[k], {});
      b.Allocate(b.backed + |growth[k]|, growth[k]);
      k := k + 1;
    }
    assert growth[..k] == growth;
  }

  /** Pages that follow, in a list without repetition, those handed out so far. */
  lemma NextBatch(mfn: seq<nat>, all: seq<nat>, pages: seq<nat>, batch: seq<nat>, lost: set<nat>)
    requires Injective(all) && pages + batch <= all
    requires forall k :: 0 <= k < |all| ==> all[k] < |mfn|
    requires forall x :: x in lost ==> x !in all
    ensures Injective(batch)
    ensures forall k :: 0 <= k < |batch| ==> Available(mfn, pages, lost, batch[k])
  {
    assert forall k :: 0 <= k < |batch| ==> batch[k] == (pages + batch)[|pages| + k] == all[|pages| + k];
    assert forall k :: 0 <= k < |pages| ==> pages[k] == (pages + batch)[k] == all[k];
  }

  /** One do_exchange call of kexec(). */
  method MoveOwnFrame(b: Builder, ghost all: seq<nat>, pfn: nat, frame: nat)
    requires b.Valid() && b.pages <= all && OwnFrame(b.mfn, all, frame) && pfn < b.backed
    requires forall x :: x in b.lost ==> x !in all
    modifies b, b.p2m
    ensures b.Valid() && b.pages == old(b.pages) && b.targets == old(b.targets) + {pfn}
    ensures b.p2m[pfn] == frame
    ensures forall j :: 0 <= j < |b.mfn| && j != pfn && old(b.p2m[j]) != frame ==> b.p2m[j] == old(b.p2m[j])
    ensures forall x :: x in b.lost ==> x !in all
  {
    assert forall j :: 0 <= j < |b.pages| ==> b.pages[j] == all[j];
    ghost var s := b.Exchange(pfn, frame);
    OwnFrameStays(b.mfn, all, frame, s);
  }

  /** The three do_exchange calls of kexec(). */
  method MoveOwnFrames(b: Builder, ghost all: seq<nat>, consolePfn: nat, consoleMfn: nat,
                       storePfn: nat, storeMfn: nat, bootPfn: nat, bootMfn: nat)
    requires b.Valid() && b.pages <= all && b.lost == {} && b.targets == {}
    requires OwnFrame(b.mfn, all, consoleMfn) && OwnFrame(b.mfn, all, storeMfn) && OwnFrame(b.mfn, all, bootMfn)
    requires consoleMfn != storeMfn && consoleMfn != bootMfn && storeMfn != bootMfn
    requires consolePfn < b.backed && storePfn < b.backed && bootPfn < b.backed
    requires consolePfn != storePfn && consolePfn != bootPfn && storePfn != bootPfn
    modifies b, b.p2m
    ensures b.Valid() && b.pages == old(b.pages) && b.targets == {consolePfn, storePfn, bootPfn}
    ensures b.p2m[consolePfn] == consoleMfn && b.p2m[storePfn] == storeMfn && b.p2m[bootPfn] == bootMfn
    ensures forall x :: x in b.lost ==> x !in all
  {
    MoveOwnFrame(b, all, consolePfn, consoleMfn);
    MoveOwnFrame(b, all, storePfn, storeMfn);
    MoveOwnFrame(b, all, bootPfn, bootMfn);
  }

  /** The page shuffling of kexec() as a whole: the image is built with any number
      of growing allocations, the console, xenstore and boot frames are moved
      into place, the page tables are allocated, and the updates are listed. */
  method Rearrange(mfn: seq<nat>, growth: seq<seq<nat>>, last: seq<nat>,
                   consolePfn: nat, consoleMfn: nat, storePfn: nat, storeMfn: nat, bootPfn: nat, bootMfn: nat,
                   ghost m2p: map<nat, nat>)
      returns (b: Builder, updates: array<(nat, nat)>)
    requires Injective(mfn)
    requires Injective(Flat(growth) + last) && |Flat(growth) + last| <= |mfn|
    requires forall k :: 0 <= k < |Flat(growth) + last| ==> (Flat(growth) + last)[k] < |mfn|
    requires OwnFrame(mfn, Flat(growth) + last, consoleMfn)
    requires OwnFrame(mfn, Flat(growth) + last, storeMfn)
    requires OwnFrame(mfn, Flat(growth) + last, bootMfn)
    requires consoleMfn != storeMfn && consoleMfn != bootMfn && storeMfn != bootMfn
    requires consolePfn < |Flat(growth)| && storePfn < |Flat(growth)| && bootPfn < |Flat(growth)|
    requires consolePfn != storePfn && consolePfn != bootPfn && storePfn != bootPfn
    requires forall x :: 0 <= x < |mfn| ==> mfn[x] in m2p && m2p[mfn[x]] == x
    ensures b.mfn == mfn && Permutes(b.p2m[..], mfn)
    ensures b.Valid() && b.pages == Flat(growth) + last && b.targets == {consolePfn, storePfn, bootPfn}
    ensures forall j :: 0 <= j < |b.pages| && j !in b.targets ==> b.p2m[j] == mfn[b.pages[j]]
    ensures b.p2m[consolePfn] == consoleMfn && b.p2m[storePfn] == storeMfn && b.p2m[bootPfn] == bootMfn
    ensures var now := Apply(m2p, updates[..]);
      && (forall j :: 0 <= j < |mfn| ==> b.p2m[j] in now && now[b.p2m[j]] == j)
      && (forall f: nat :: f !in mfn ==> SameEntry(m2p, now, f))
  {
    ghost var all := Flat(growth) + last;
    assert forall k :: 0 <= k < |Flat(growth)| ==> Flat(growth)[k] == all[k];
    b := BuildImage(mfn, growth);
    MoveOwnFrames(b, all, consolePfn, consoleMfn, storePfn, storeMfn, bootPfn, bootMfn);
    NextBatch(mfn, all, b.pages, last, b.lost);
    b.Allocate(b.backed + |last|, last);
    updates := b.BuildUpdates(m2p);
  }
}
