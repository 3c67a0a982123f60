/**
 The four-level tables refine the flat map of leaves: every lookup through the tables of a root
 gives the leaf of the flat map, and each change of a table word is one change of the map, or none.
 */
module Mappings {
  import opened CopyOnWrite
  import opened PageTables

  /** The walk for page (r, v) ends in the leaf word of the flat map. */
  ghost predicate Shows(tables: Tables, leaf: map<Key, Leaf>, r: nat, v: nat) {
    Lookup(tables, r, v) == if (r, v) in leaf then LeafWord(leaf[(r, v)]) else ZERO
  }

  ghost predicate Tied(tables: Tables, owner: map<nat, Node>, leaf: map<Key, Leaf>) {
    && (forall k <- leaf :: IsRoot(owner, k.0) && k.1 < USER_PAGES)
    && (forall r, v {:trigger Shows(tables, leaf, r, v)} | IsRoot(owner, r) && 0 <= v < USER_PAGES :: Shows(tables, leaf, r, v))
  }

  ghost predicate Structure(tables: Tables, owner: map<nat, Node>, leaf: map<Key, Leaf>) {
    tables.Keys == owner.Keys && WellFormed(tables, owner) && Tied(tables, owner, leaf)
  }

  /** The page table of a page, found by a walk. */
  ghost predicate HasTable(tables: Tables, owner: map<nat, Node>, r: nat, v: nat, level: nat, t: nat) {
    IsRoot(owner, r) && v < USER_PAGES && 1 <= level <= 4 && TableAt(tables, r, v, level) == Some(t)
  }

  /** The tables of roots other than `r` are as they were. */
  ghost predicate OthersKept(tables: Tables, owner: map<nat, Node>, tables': Tables, owner': map<nat, Node>, r: nat)
    requires tables.Keys == owner.Keys && tables'.Keys == owner'.Keys
  {
    && (forall u <- tables | owner[u].root != r :: u in tables' && tables'[u] == tables[u] && owner'[u] == owner[u])
    && (forall u <- tables' | owner'[u].root != r :: u in tables && owner[u].root != r)
  }

  /** The tables of root `r` above this level are as they were. */
  ghost predicate UpperKept(tables: Tables, owner: map<nat, Node>, tables': Tables, owner': map<nat, Node>, r: nat, level: nat)
    requires tables.Keys == owner.Keys && tables'.Keys == owner'.Keys
  {
    forall u <- tables | owner[u].root == r && owner[u].level > level ::
      u in tables' && tables'[u] == tables[u] && owner'[u] == owner[u]
  }

  /** Word `i` of table `t` is zero now; the other words of `t` are as they were. */
  ghost predicate WordZeroed(tables: Tables, tables': Tables, t: nat, i: nat) {
    && t in tables && t in tables' && |tables[t]| == |tables'[t]| == ENTRIES && 0 <= i < ENTRIES
    && tables'[t] == tables[t][i := ZERO]
  }

  /** Every walk arrives where it arrived before. */
  ghost predicate WalksKept(tables: Tables, tables': Tables, owner: map<nat, Node>) {
    forall r, v, level {:trigger TableAt(tables', r, v, level)} | IsRoot(owner, r) && 0 <= v < USER_PAGES && 1 <= level <= 4 ::
      TableAt(tables', r, v, level) == TableAt(tables, r, v, level)
  }

  /** The only difference is the leaf word of page (r, v), in page table `t`. */
  ghost predicate WroteLeaf(tables: Tables, tables': Tables, owner: map<nat, Node>, r: nat, v: nat, t: nat, e: Entry) {
    && t in tables && |tables[t]| == ENTRIES
    && t in owner && owner[t].root == r && owner[t].level == 1
    && tables' == WithWord(tables, t, Index(v, 1), e)
    && WalksKept(tables, tables', owner)
  }

  function WithLeaf(leaf: map<Key, Leaf>, k: Key, e: Entry): map<Key, Leaf> {
    if e == ZERO then leaf - {k} else leaf[k := ToLeaf(e)]
  }

  /** Writing one leaf word is one update of the flat map; no other page of any space changes. */
  lemma SetLeafRefines(tables: Tables, owner: map<nat, Node>, leaf: map<Key, Leaf>, r: nat, v: nat, t: nat, e: Entry)
    requires Structure(tables, owner, leaf) && HasTable(tables, owner, r, v, 1, t)
    requires e == ZERO || e == LeafWord(ToLeaf(e))
    ensures t in tables && |tables[t]| == ENTRIES
    ensures Structure(WithWord(tables, t, Index(v, 1), e), owner, WithLeaf(leaf, (r, v), e))
    ensures WroteLeaf(tables, WithWord(tables, t, Index(v, 1), e), owner, r, v, t, e)
  {
    hide Index, PathOf, Reach, TableAt, Lookup, NodeOk, WordOk;
    WalkNode(tables, owner, r, v, 1);
    SetLeafKeeps(tables, owner, r, v, t, e);
    var tables', leaf' := WithWord(tables, t, Index(v, 1), e), WithLeaf(leaf, (r, v), e);
    forall r', v' | IsRoot(owner, r') && 0 <= v' < USER_PAGES
      ensures Shows(tables', leaf', r', v')
    {
      assert Shows(tables, leaf, r', v');
      SetLeafLookup(tables, owner, r, v, t, e, r', v');
    }
    forall r', v', level | IsRoot(owner, r') && 0 <= v' < USER_PAGES && 1 <= level <= 4
      ensures TableAt(tables', r', v', level) == TableAt(tables, r', v', level)
    {
      SetLeafLookup(tables, owner, r, v, t, e, r', v');
    }
  }

  /** Linking in a fresh table changes no page. */
  lemma LinkRefines(tables: Tables, owner: map<nat, Node>, leaf: map<Key, Leaf>, r: nat, v: nat, level: nat, t: nat, c: nat)
    requires Tied(tables, owner, leaf) && CanLink(tables, owner, r, v, level, t, c)
    ensures Structure(Linked(tables, t, Index(v, level), c), LinkedOwner(owner, r, v, level, c), leaf)
    ensures HasTable(Linked(tables, t, Index(v, level), c), LinkedOwner(owner, r, v, level, c), r, v, level - 1, c)
    ensures OthersKept(tables, owner, Linked(tables, t, Index(v, level), c), LinkedOwner(owner, r, v, level, c), r)
  {
    hide Index, PathOf, Reach, TableAt, Lookup, NodeOk, WordOk;
    var tables', owner' := Linked(tables, t, Index(v, level), c), LinkedOwner(owner, r, v, level, c);
    LinkWellFormed(tables, owner, r, v, level, t, c);
    forall r', v' | IsRoot(owner', r') && 0 <= v' < USER_PAGES ensures Shows(tables', leaf, r', v') {
      assert Shows(tables, leaf, r', v');
      LinkLookup(tables, owner, r, v, level, t, c, r', v');
    }
    LinkWalk(tables, owner, r, v, level, t, c, r, v, level - 1);
    WalkNode(tables, owner, r, v, level);
  }

  /** Unlinking an empty table changes no page. */
  lemma UnlinkRefines(tables: Tables, owner: map<nat, Node>, leaf: map<Key, Leaf>, r: nat, v: nat, level: nat, t: nat, c: nat)
    requires Tied(tables, owner, leaf) && CanUnlink(tables, owner, r, v, level, t, c)
    ensures Structure(Unlinked(tables, t, Index(v, level), c), owner - {c}, leaf)
    ensures c in owner && owner[c].root == r && owner[c].level == level - 1
    ensures owner[t].root == r && owner[t].level == level && t != c
  {
    hide Index, PathOf, Reach, TableAt, Lookup, NodeOk, WordOk;
    var tables', owner' := Unlinked(tables, t, Index(v, level), c), owner - {c};
    UnlinkWellFormed(tables, owner, r, v, level, t, c);
    UnlinkChild(tables, owner, r, v, level, t, c);
    forall r', v' | IsRoot(owner', r') && 0 <= v' < USER_PAGES ensures Shows(tables', leaf, r', v') {
      assert Shows(tables, leaf, r', v');
      UnlinkLookup(tables, owner, r, v, level, t, c, r', v');
    }
  }

  lemma NewRootRefines(tables: Tables, owner: map<nat, Node>, leaf: map<Key, Leaf>, r: nat, page: Table)
    requires Structure(tables, owner, leaf) && r !in tables && EmptyRoot(page)
    ensures Structure(tables[r := page], owner[r := Node(r, 4, 0)], leaf)
    ensures NoPages(leaf, r, 0, USER_PAGES)
  {
    hide Index, PathOf, Reach, TableAt, Lookup, NodeOk, WordOk;
    var tables', owner' := tables[r := page], owner[r := Node(r, 4, 0)];
    NewRootWellFormed(tables, owner, r, page);
    forall r', v' | IsRoot(owner', r') && 0 <= v' < USER_PAGES ensures Shows(tables', leaf, r', v') {
      if r' != r {
        assert Shows(tables, leaf, r', v');
      }
      NewRootLookup(tables, owner, r, page, r', v');
    }
  }

  lemma DropRootRefines(tables: Tables, owner: map<nat, Node>, leaf: map<Key, Leaf>, r: nat)
    requires Structure(tables, owner, leaf) && IsRoot(owner, r) && Bare(owner, r) && NoPages(leaf, r, 0, USER_PAGES)
    ensures Structure(tables - {r}, owner - {r}, leaf)
  {
    hide Index, PathOf, Reach, TableAt, Lookup, NodeOk, WordOk;
    var tables', owner' := tables - {r}, owner - {r};
    DropRootWellFormed(tables, owner, r);
    forall r', v' | IsRoot(owner', r') && 0 <= v' < USER_PAGES ensures Shows(tables', leaf, r', v') {
      assert Shows(tables, leaf, r', v');
      DropRootLookup(tables, owner, r, r', v');
    }
    forall k <- leaf ensures IsRoot(owner', k.0) {
      assert k == (k.0, k.1);
    }
  }

  // ----- the pages below one word -----

  /** The first page below word `i` of the table whose first page is `base`. */
  function WordBase(base: nat, level: nat, i: nat): nat
    requires 1 <= level <= 4
  {
    base + i * Reach(level)
  }

  /** The pages below word `i` of the table whose first page is `base` are those with that index and path. */
  lemma ChildPage(base: nat, level: nat, i: nat, w: nat)
    requires 1 <= level <= 4 && base % Reach(level + 1) == 0 && i < ENTRIES
    requires WordBase(base, level, i) <= w < WordBase(base, level, i + 1)
    ensures Index(w, level) == i && PathOf(w, level) == PathOf(base, level)
    ensures (WordBase(base, level, i)) % Reach(level) == 0
  {
    var p := base / Reach(level + 1);
    var x := p * ENTRIES + i;
    ReachStep(base, level, p, i);
    DivideBack(x, level, w - x * Reach(level));
    DivideBack(x, level, 0);
    assert x / ENTRIES == p && x % ENTRIES == i;
    if level == 1 {
      PageFromPath(w);
    } else {
      PathStep(w, level);
    }
  }

  lemma ReachStep(base: nat, level: nat, p: nat, i: nat)
    requires 1 <= level <= 4 && base % Reach(level + 1) == 0 && p == base / Reach(level + 1)
    ensures WordBase(base, level, i) == (p * ENTRIES + i) * Reach(level)
    ensures WordBase(base, level, i + 1) == (p * ENTRIES + i) * Reach(level) + Reach(level)
  {
  }

  lemma DivideBack(x: nat, level: nat, d: int)
    requires 1 <= level <= 4 && 0 <= d < Reach(level)
    ensures (x * Reach(level) + d) / Reach(level) == x && (x * Reach(level) + d) % Reach(level) == d
  {
  }

  /** The table covers user pages only. */
  lemma TableSpan(base: nat, level: nat)
    requires 1 <= level <= 4 && base % Reach(level + 1) == 0 && base < USER_PAGES
    ensures level < 4 ==> base + Reach(level + 1) <= USER_PAGES
    ensures level == 4 ==> base == 0 && HHDM_INDEX * Reach(4) == USER_PAGES
    ensures ENTRIES * Reach(level) == Reach(level + 1)
  {
  }

  lemma SubTable(tables: Tables, owner: map<nat, Node>, r: nat, base: nat, level: nat, t: nat, i: nat, w: nat)
    requires HasTable(tables, owner, r, base, level, t) && base % Reach(level + 1) == 0 && i < ENTRIES
    requires WordBase(base, level, i) <= w < WordBase(base, level, i + 1) && w < USER_PAGES
    ensures HasTable(tables, owner, r, w, level, t) && Index(w, level) == i
    ensures level > 1 ==> TableAt(tables, r, w, level - 1) == Next(tables, t, i)
  {
    hide Index, PathOf, Reach;
    ChildPage(base, level, i, w);
    WalkSamePath(tables, r, base, w, level);
  }

  /** Below a zero word there are no pages. */
  lemma EmptyBelow(tables: Tables, owner: map<nat, Node>, leaf: map<Key, Leaf>,
                   r: nat, base: nat, level: nat, t: nat, i: nat)
    requires Structure(tables, owner, leaf) && HasTable(tables, owner, r, base, level, t)
    requires base % Reach(level + 1) == 0 && i < ENTRIES && t in tables && |tables[t]| == ENTRIES
    requires tables[t][i] == ZERO
    ensures NoPages(leaf, r, WordBase(base, level, i), WordBase(base, level, i + 1))
  {
    hide Index, PathOf, Reach, NodeOk, WordOk;
    forall w | WordBase(base, level, i) <= w < WordBase(base, level, i + 1) ensures (r, w) !in leaf {
      if w < USER_PAGES {
        SubTable(tables, owner, r, base, level, t, i, w);
        assert Shows(tables, leaf, r, w);
        if level > 1 {
          WalkStopped(tables, r, w, level - 1, 1);
        }
      }
    }
  }

  /** A root whose user half is zero has no other table. */
  lemma EmptyRootIsBare(tables: Tables, owner: map<nat, Node>, r: nat)
    requires WellFormed(tables, owner) && IsRoot(owner, r) && EmptyRoot(tables[r])
    ensures Bare(owner, r)
  {
    hide Index, PathOf, Reach;
    forall t <- owner | owner[t].root == r ensures t == r {
      assert NodeOk(tables, owner, t);
      var n := owner[t];
      var v := n.path * Reach(n.level + 1);
      UserIndices(v);
      if n.level < 4 {
        WalkStopped(tables, r, v, 3, n.level);
      }
    }
  }

  /** A table stays where it is while only tables below it, or of other roots, change. */
  lemma TableStays(tables: Tables, owner: map<nat, Node>, tables': Tables, owner': map<nat, Node>,
                   r: nat, v: nat, level: nat, t: nat, low: nat)
    requires WellFormed(tables, owner) && tables.Keys == owner.Keys && tables'.Keys == owner'.Keys
    requires HasTable(tables, owner, r, v, level, t) && 0 <= low <= level
    requires UpperKept(tables, owner, tables', owner', r, low) && IsRoot(owner', r)
    ensures HasTable(tables', owner', r, v, level, t)
    ensures t in tables && |tables[t]| == ENTRIES
    ensures low < level ==> t in tables' && tables'[t] == tables[t]
  {
    hide Index, PathOf, Reach;
    WalkNode(tables, owner, r, v, level);
    assert NodeOk(tables, owner, t);
    WalkOwned(tables, tables', owner, r, v, level);
  }

  lemma KeptTwice(ta: Tables, oa: map<nat, Node>, tb: Tables, ob: map<nat, Node>, tc: Tables, oc: map<nat, Node>, r: nat, level: nat)
    requires ta.Keys == oa.Keys && tb.Keys == ob.Keys && tc.Keys == oc.Keys
    requires OthersKept(ta, oa, tb, ob, r) && OthersKept(tb, ob, tc, oc, r)
    requires UpperKept(ta, oa, tb, ob, r, level) && UpperKept(tb, ob, tc, oc, r, level)
    ensures OthersKept(ta, oa, tc, oc, r) && UpperKept(ta, oa, tc, oc, r, level)
  {
  }

  lemma UpperKeptMore(ta: Tables, oa: map<nat, Node>, tb: Tables, ob: map<nat, Node>, r: nat, low: nat, high: nat)
    requires ta.Keys == oa.Keys && tb.Keys == ob.Keys && low <= high
    requires UpperKept(ta, oa, tb, ob, r, low)
    ensures UpperKept(ta, oa, tb, ob, r, high)
  {
  }

  /** Fork changes no table of `src` above the page tables, and adds tables to `dst` only. */
  ghost predicate ForkKept(tables: Tables, owner: map<nat, Node>, tables': Tables, owner': map<nat, Node>, src: nat, dst: nat)
    requires tables.Keys == owner.Keys && tables'.Keys == owner'.Keys
  {
    && IsRoot(owner', src) && IsRoot(owner', dst)
    && (forall u <- owner | owner[u].root != dst :: u in owner' && owner'[u] == owner[u])
    && (forall u <- owner' | owner'[u].root != dst :: u in owner && owner[u].root != dst)
    && (forall u <- tables | owner[u].root == src && owner[u].level > 1 :: u in tables' && tables'[u] == tables[u])
  }

  lemma ForkKeptTwice(ta: Tables, oa: map<nat, Node>, tb: Tables, ob: map<nat, Node>, tc: Tables, oc: map<nat, Node>,
                      src: nat, dst: nat)
    requires ta.Keys == oa.Keys && tb.Keys == ob.Keys && tc.Keys == oc.Keys && src != dst
    requires ForkKept(ta, oa, tb, ob, src, dst) && ForkKept(tb, ob, tc, oc, src, dst)
    ensures ForkKept(ta, oa, tc, oc, src, dst)
  {
  }

  lemma ForkKeepsTable(tables: Tables, owner: map<nat, Node>, tables': Tables, owner': map<nat, Node>,
                       src: nat, dst: nat, v: nat, level: nat, t: nat)
    requires WellFormed(tables, owner) && tables.Keys == owner.Keys && tables'.Keys == owner'.Keys && src != dst
    requires HasTable(tables, owner, src, v, level, t) && ForkKept(tables, owner, tables', owner', src, dst)
    ensures HasTable(tables', owner', src, v, level, t)
  {
    hide Index, PathOf, Reach;
    WalkOwned(tables, tables', owner, src, v, level);
  }
}
