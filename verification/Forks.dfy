/**
 What a fork needs: one lower table for every walk of the parent's pages, and room in the share table for the
 frames that were not shared before.
 */
module Forks {
  import opened CopyOnWrite
  import opened PageTables
  import opened Mappings

  /** The place of a lower table in a space. */
  datatype Way = Way(level: nat, path: nat)

  /** The lower tables on the walk of page `v`. */
  ghost function PageWays(v: nat): set<Way> {
    {Way(1, PathOf(v, 1)), Way(2, PathOf(v, 2)), Way(3, PathOf(v, 3))}
  }

  /** The lower tables on the walks of the pages of a space. */
  ghost function Ways(leaf: map<Key, Leaf>, src: nat): set<Way> {
    set k, w | k in leaf && k.0 == src && w in PageWays(k.1) :: w
  }

  ghost function FramesOf(leaf: map<Key, Leaf>, src: nat): set<nat> {
    set k | k in leaf && k.0 == src :: leaf[k].frame
  }

  /** The places where a root has tables. */
  ghost function Present(owner: map<nat, Node>, r: nat): set<Way> {
    set u | u in owner && owner[u].root == r :: Way(owner[u].level, owner[u].path)
  }

  /** Tables were only added, all of them below root `r` and in these places. */
  ghost predicate Grew(owner: map<nat, Node>, owner': map<nat, Node>, r: nat, ways: set<Way>) {
    && (forall u <- owner :: u in owner' && owner'[u] == owner[u])
    && (forall u <- owner' | u !in owner :: owner'[u].root == r && Way(owner'[u].level, owner'[u].path) in ways)
  }

  /** There are frames for the tables that the root lacks in these places. */
  ghost predicate RoomFor(owner: map<nat, Node>, r: nat, ways: set<Way>, free: int) {
    |ways - Present(owner, r)| <= free
  }

  /** The lower tables on the walks of `n` pages from `lo` on. */
  ghost function RunWays(lo: nat, n: nat): set<Way> {
    if n == 0 then {} else RunWays(lo, n - 1) + PageWays(lo + n - 1)
  }

  lemma {:induction false} RunWaysGrow(lo: nat, i: nat, n: nat)
    requires i <= n
    ensures RunWays(lo, i) <= RunWays(lo, n)
  {
    if i < n {
      RunWaysGrow(lo, i, n - 1);
    }
  }

  /** There is a frame for each of `n` pages from `lo` on and for each table that their walks lack. */
  ghost predicate RunFits(owner: map<nat, Node>, r: nat, lo: nat, n: nat, free: nat) {
    RoomFor(owner, r, RunWays(lo, n), free - n)
  }

  /** What is left once `n` pages of the run are there. */
  ghost predicate RunDone(o0: map<nat, Node>, owner: map<nat, Node>, r: nat, lo: nat, n: nat, free: nat, free': nat) {
    && Present(owner, r) == Present(o0, r) + RunWays(lo, n)
    && free' == free - n - |RunWays(lo, n) - Present(o0, r)|
  }

  lemma RunNone(owner: map<nat, Node>, r: nat, lo: nat, free: nat)
    ensures RunDone(owner, owner, r, lo, 0, free, free)
  {
    assert RunWays(lo, 0) - Present(owner, r) == {};
  }

  lemma RunMore(o0: map<nat, Node>, owner: map<nat, Node>, owner': map<nat, Node>, r: nat, lo: nat, n: nat, free: nat, free': nat, free'': nat)
    requires RunDone(o0, owner, r, lo, n, free, free') && Present(owner', r) == Present(owner, r) + PageWays(lo + n)
    requires free'' == free' - 1 - |PageWays(lo + n) - Present(owner, r)|
    ensures RunDone(o0, owner', r, lo, n + 1, free, free'')
  {
    hide Present, PageWays;
    LackingSplits(Present(o0, r), RunWays(lo, n), PageWays(lo + n));
  }

  /** A run that stops short would not have fitted. */
  lemma RunStops(o0: map<nat, Node>, owner: map<nat, Node>, r: nat, lo: nat, i: nat, n: nat, free: nat, free': nat)
    requires RunDone(o0, owner, r, lo, i, free, free') && i < n && !RoomFor(owner, r, PageWays(lo + i), free' - 1)
    ensures !RunFits(o0, r, lo, n, free)
  {
    hide Present, PageWays;
    LackingSplits(Present(o0, r), RunWays(lo, i), PageWays(lo + i));
    RunWaysGrow(lo, i + 1, n);
    Smaller(RunWays(lo, i + 1) - Present(o0, r), RunWays(lo, n) - Present(o0, r));
  }

  lemma Smaller(a: set<Way>, b: set<Way>)
    requires a <= b
    ensures |a| <= |b|
  {
    assert b == a + (b - a);
  }

  lemma RunAll(o0: map<nat, Node>, owner: map<nat, Node>, r: nat, lo: nat, n: nat, free: nat, free': nat)
    requires RunDone(o0, owner, r, lo, n, free, free')
    ensures RunFits(o0, r, lo, n, free)
  {
  }

  /** The tables for one page more: those it lacks once the pages before it have theirs. */
  lemma LackingSplits(has: set<Way>, ways: set<Way>, more: set<Way>)
    ensures |ways + more - has| == |ways - has| + |more - (has + ways)|
  {
    assert ways + more - has == (ways - has) + (more - (has + ways));
  }

  lemma GrewPresent(owner: map<nat, Node>, owner': map<nat, Node>, r: nat, ways: set<Way>)
    requires Grew(owner, owner', r, ways) && ways <= Present(owner', r)
    ensures Present(owner', r) == Present(owner, r) + ways
  {
    forall w <- Present(owner, r) ensures w in Present(owner', r) {
      var u :| u in owner && owner[u].root == r && Way(owner[u].level, owner[u].path) == w;
      assert u in owner' && owner'[u] == owner[u];
    }
  }

  lemma GrewTwice(oa: map<nat, Node>, ob: map<nat, Node>, oc: map<nat, Node>, r: nat, wa: set<Way>, wb: set<Way>, ways: set<Way>)
    requires Grew(oa, ob, r, wa) && Grew(ob, oc, r, wb) && wa <= ways && wb <= ways
    ensures Grew(oa, oc, r, ways)
  {
  }

  lemma GrewSelf(owner: map<nat, Node>, r: nat, ways: set<Way>)
    ensures Grew(owner, owner, r, ways)
  {
  }

  lemma GrewByOne(owner: map<nat, Node>, r: nat, v: nat, level: nat, c: nat)
    requires 2 <= level <= 4 && c !in owner
    ensures Grew(owner, LinkedOwner(owner, r, v, level, c), r, {Way(level - 1, PathOf(v, level - 1))})
  {
  }

  /** A walk that stops finds no table in the place where it stopped. */
  lemma NotPresent(tables: Tables, owner: map<nat, Node>, r: nat, v: nat, level: nat)
    requires WellFormed(tables, owner) && IsRoot(owner, r) && v < USER_PAGES && 1 <= level <= 3 && TableAt(tables, r, v, level).None?
    ensures Way(level, PathOf(v, level)) !in Present(owner, r)
  {
    hide PathOf, Reach, Index, TableAt;
    forall u | u in owner && owner[u] == Node(r, level, PathOf(v, level)) ensures false {
      assert NodeOk(tables, owner, u);
      PathBack(owner[u].path, level);
      WalkSamePath(tables, r, v, owner[u].path * Reach(level + 1), level);
    }
  }

  /** Every lower table on the walk of a mapped page is present. */
  lemma MappedHasWays(tables: Tables, owner: map<nat, Node>, leaf: map<Key, Leaf>, r: nat, v: nat)
    requires Structure(tables, owner, leaf) && (r, v) in leaf
    ensures PageWays(v) <= Present(owner, r)
  {
    hide PathOf, Reach, Index, TableAt;
    assert IsRoot(owner, (r, v).0) && (r, v).1 < USER_PAGES;
    assert Shows(tables, leaf, r, v);
    forall w <- PageWays(v) ensures w in Present(owner, r) {
      if TableAt(tables, r, v, w.level).None? {
        WalkStopped(tables, r, v, w.level, 1);
        assert false;
      }
      WalkNode(tables, owner, r, v, w.level);
    }
  }

  /** These places and frames are all that the pages of `src` need. */
  ghost predicate Covers(leaf: map<Key, Leaf>, src: nat, ways: set<Way>, frames: set<nat>) {
    forall k <- leaf | k.0 == src :: leaf[k].frame in frames && PageWays(k.1) <= ways
  }

  lemma CoversItself(leaf: map<Key, Leaf>, src: nat)
    ensures Covers(leaf, src, Ways(leaf, src), FramesOf(leaf, src))
  {
    hide PageWays;
  }

  lemma ForkCovers(s: Flat, src: nat, dst: nat, lo: nat, hi: nat, ways: set<Way>, frames: set<nat>)
    requires src != dst && Covers(s.leaf, src, ways, frames)
    ensures Covers(ForkRange(s, src, dst, lo, hi).leaf, src, ways, frames)
  {
    hide PageWays, ForkRange;
    ForkRangeLeaves(s, src, dst, lo, hi);
  }

  /** Forking shares the frames of the parent's pages and maps no other frame. */
  lemma {:induction false} ForkRangeKeys(s: Flat, src: nat, dst: nat, hi: nat)
    requires src != dst
    ensures var t := ForkRange(s, src, dst, 0, hi);
      && s.shares.Keys <= t.shares.Keys && LeafFrames(t.leaf) <= LeafFrames(s.leaf)
      && forall k <- s.leaf | k.0 == src && k.1 < hi :: s.leaf[k].frame in t.shares && (dst, k.1) in t.leaf
  {
    ForkRangeLeaves(s, src, dst, 0, hi);
    if hi > 0 {
      ForkRangeKeys(s, src, dst, hi - 1);
      ForkRangeLeaves(s, src, dst, 0, hi - 1);
    }
  }
}
