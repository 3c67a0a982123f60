/**
 Four-level page tables as they lie in physical memory: frames of 512 words, reached from a root.
 A walk picks a word by nine bits of the page number at each level.  The lemmas say how walks
 change when a leaf word is written, a fresh table is linked in, or an empty table is unlinked.
 */
module PageTables {
  import opened CopyOnWrite

  const ENTRIES: nat := 512
  const HHDM_INDEX: nat := 256

  /** A page-table word: the frame it points to and the flag bits the kernel uses. */
  datatype Entry = Entry(frame: nat, present: bool, write: bool, user: bool, large: bool, want: bool)

  const ZERO: Entry := Entry(0, false, false, false, false, false)

  type Table = seq<Entry>
  type Tables = map<nat, Table>

  datatype Option<+T> = None | Some(value: T)

  /** The word that links a lower table in. */
  function LinkTo(f: nat): Entry {
    Entry(f, true, true, true, false, true)
  }

  function LeafWord(l: Leaf): Entry {
    Entry(l.frame, true, l.write, true, false, l.want)
  }

  function ToLeaf(e: Entry): Leaf {
    Leaf(e.frame, e.write, e.want)
  }

  function ZeroTable(): (t: Table)
    ensures |t| == ENTRIES && forall i | 0 <= i < ENTRIES :: t[i] == ZERO
  {
    seq(ENTRIES, _ => ZERO)
  }

  // ----- page numbers -----

  /** Pages below one word of a table at this level; level 1 tables hold the leaves. */
  function Reach(level: nat): (r: nat)
    requires 1 <= level <= 5
    ensures r > 0
  {
    if level == 1 then 1 else if level == 2 then 0x200 else if level == 3 then 0x4_0000
    else if level == 4 then 0x800_0000 else 0x10_0000_0000
  }

  function Index(v: nat, level: nat): (i: nat)
    requires 1 <= level <= 4
    ensures i < ENTRIES
  {
    v / Reach(level) % ENTRIES
  }

  /** The indices followed above this level, read as one number. */
  function PathOf(v: nat, level: nat): nat
    requires 1 <= level <= 4
  {
    v / Reach(level + 1)
  }

  lemma PathStep(v: nat, level: nat)
    requires 2 <= level <= 4
    ensures PathOf(v, level - 1) == PathOf(v, level) * ENTRIES + Index(v, level)
  {
  }

  lemma PageFromPath(v: nat)
    ensures v == PathOf(v, 1) * ENTRIES + Index(v, 1)
  {
  }

  lemma UserIndices(v: nat)
    requires v < USER_PAGES
    ensures Index(v, 4) < HHDM_INDEX && PathOf(v, 4) == 0
  {
  }

  /** The four indices of an address; shifts and masks of the 64-bit address, written as divisions. */
  function Split(virt: nat): (nat, nat, nat, nat) {
    (virt / 0x80_0000_0000 % 512, virt / 0x4000_0000 % 512, virt / 0x20_0000 % 512, virt / 0x1000 % 512)
  }

  /** The address that fork rebuilds from four loop counters. */
  function Rebuild(i4: nat, i3: nat, i2: nat, i1: nat): nat {
    i4 * 0x80_0000_0000 + i3 * 0x4000_0000 + i2 * 0x20_0000 + i1 * 0x1000
  }

  /** Fork rebuilds the address it split: the four indices of a page give its address back. */
  lemma RebuildSplit(v: nat)
    requires v < USER_PAGES
    ensures Split(v * PAGE_SIZE) == (Index(v, 4), Index(v, 3), Index(v, 2), Index(v, 1))
    ensures Rebuild(Index(v, 4), Index(v, 3), Index(v, 2), Index(v, 1)) == v * PAGE_SIZE
  {
    ScaledDivision(v, 0x800_0000);
    ScaledDivision(v, 0x4_0000);
    ScaledDivision(v, 0x200);
    PathStep(v, 2);
    PathStep(v, 3);
    PathStep(v, 4);
    UserIndices(v);
  }

  lemma ScaledDivision(v: nat, n: nat)
    requires n == 0x800_0000 || n == 0x4_0000 || n == 0x200
    ensures v * PAGE_SIZE / (n * PAGE_SIZE) == v / n
  {
    var q, m := v / n, v % n;
    assert v * PAGE_SIZE == q * (n * PAGE_SIZE) + m * PAGE_SIZE;
    assert m * PAGE_SIZE < n * PAGE_SIZE;
  }

  /** Conversely, every choice of indices is the split of the page it rebuilds. */
  lemma SplitRebuild(i4: nat, i3: nat, i2: nat, i1: nat)
    requires i4 < 256 && i3 < 512 && i2 < 512 && i1 < 512
    ensures Split(Rebuild(i4, i3, i2, i1)) == (i4, i3, i2, i1)
    ensures Rebuild(i4, i3, i2, i1) % PAGE_SIZE == 0 && Rebuild(i4, i3, i2, i1) / PAGE_SIZE < USER_PAGES
  {
    var x := i4 * 512 + i3;
    var y := x * 512 + i2;
    var v := y * 512 + i1;
    assert v / 512 == y && v % 512 == i1;
    assert y / 512 == x && y % 512 == i2;
    assert x / 512 == i4 && x % 512 == i3;
    assert Rebuild(i4, i3, i2, i1) == v * PAGE_SIZE;
    PathStep(v, 2);
    PathStep(v, 3);
    PathStep(v, 4);
    RebuildSplit(v);
  }

  // ----- walks -----

  /** The table that a word points to, if the word is a present user link. */
  function Next(tables: Tables, t: nat, i: nat): Option<nat> {
    if t in tables && i < |tables[t]| then
      var e := tables[t][i];
      if e.present && e.user && !e.large then Some(e.frame) else None
    else None
  }

  /** The table of page `v` at a level, walking down from the root `r`. */
  function TableAt(tables: Tables, r: nat, v: nat, level: nat): Option<nat>
    requires 1 <= level <= 4
    decreases 4 - level
  {
    if level == 4 then Some(r)
    else
      match TableAt(tables, r, v, level + 1)
      case None => None
      case Some(t) => Next(tables, t, Index(v, level + 1))
  }

  /** The leaf word of a page; zero if a table on the way is missing. */
  function Lookup(tables: Tables, r: nat, v: nat): Entry {
    match TableAt(tables, r, v, 1)
    case None => ZERO
    case Some(t) => if t in tables && Index(v, 1) < |tables[t]| then tables[t][Index(v, 1)] else ZERO
  }

  // ----- the kept invariant: every table is reached by exactly one path -----

  /** Where a table sits: its root, its level, and the path of indices that leads to it. */
  datatype Node = Node(root: nat, level: nat, path: nat)

  ghost predicate NodeOk(tables: Tables, owner: map<nat, Node>, t: nat)
    requires t in tables && t in owner
  {
    var n := owner[t];
    && |tables[t]| == ENTRIES
    && 1 <= n.level <= 4
    && n.path * Reach(n.level + 1) < USER_PAGES
    && (n.level == 4 ==> n == Node(t, 4, 0))
    && n.root in owner && owner[n.root] == Node(n.root, 4, 0)
    && TableAt(tables, n.root, n.path * Reach(n.level + 1), n.level) == Some(t)
  }

  /** A word of the user half is zero, a leaf, or a link to the table one level down on its path. */
  ghost predicate WordOk(tables: Tables, owner: map<nat, Node>, t: nat, i: nat)
    requires t in tables && t in owner && i < |tables[t]|
  {
    var n, e := owner[t], tables[t][i];
    || e == ZERO
    || (n.level == 4 && i >= HHDM_INDEX)
    || (n.level == 1 && e == LeafWord(ToLeaf(e)))
    || (n.level > 1 && e == LinkTo(e.frame) && e.frame in owner
        && owner[e.frame] == Node(n.root, n.level - 1, n.path * ENTRIES + i))
  }

  ghost predicate WellFormed(tables: Tables, owner: map<nat, Node>) {
    && tables.Keys == owner.Keys
    && (forall t {:trigger NodeOk(tables, owner, t)} | t in tables :: NodeOk(tables, owner, t))
    && (forall t, i {:trigger WordOk(tables, owner, t, i)} | t in tables && 0 <= i < |tables[t]| :: WordOk(tables, owner, t, i))
  }

  /** A walk that arrives at a table arrives at the node of that table. */
  lemma {:induction false} WalkNode(tables: Tables, owner: map<nat, Node>, r: nat, v: nat, level: nat)
    requires WellFormed(tables, owner) && v < USER_PAGES && 1 <= level <= 4
    requires r in owner && owner[r] == Node(r, 4, 0)
    ensures TableAt(tables, r, v, level).Some? ==>
              var t := TableAt(tables, r, v, level).value;
              t in tables && owner[t] == Node(r, level, PathOf(v, level))
    decreases 4 - level
  {
    UserIndices(v);
    if level < 4 && TableAt(tables, r, v, level + 1).Some? {
      WalkNode(tables, owner, r, v, level + 1);
      var t := TableAt(tables, r, v, level + 1).value;
      var i := Index(v, level + 1);
      assert NodeOk(tables, owner, t);
      assert WordOk(tables, owner, t, i);
      PathStep(v, level + 1);
    }
  }

  /** A walk depends only on the path. */
  lemma {:induction false} WalkSamePath(tables: Tables, r: nat, v: nat, w: nat, level: nat)
    requires 1 <= level <= 4 && PathOf(v, level) == PathOf(w, level)
    ensures TableAt(tables, r, v, level) == TableAt(tables, r, w, level)
    decreases 4 - level
  {
    if level < 4 {
      PathStep(v, level + 1);
      PathStep(w, level + 1);
      WalkSamePath(tables, r, v, w, level + 1);
    }
  }

  /** Walks from different roots, or for different paths, never meet in a table. */
  lemma WalksNeverMeet(tables: Tables, owner: map<nat, Node>, r: nat, v: nat, r': nat, v': nat, level: nat, level': nat)
    requires WellFormed(tables, owner) && v < USER_PAGES && v' < USER_PAGES && 1 <= level <= 4 && 1 <= level' <= 4
    requires r in owner && owner[r] == Node(r, 4, 0) && r' in owner && owner[r'] == Node(r', 4, 0)
    requires TableAt(tables, r, v, level).Some? && TableAt(tables, r, v, level) == TableAt(tables, r', v', level')
    ensures r == r' && level == level' && PathOf(v, level) == PathOf(v', level)
  {
    WalkNode(tables, owner, r, v, level);
    WalkNode(tables, owner, r', v', level');
  }

  // ----- how walks change -----

  ghost predicate IsRoot(owner: map<nat, Node>, r: nat) {
    r in owner && owner[r] == Node(r, 4, 0)
  }

  lemma {:induction false} WalkStopped(tables: Tables, r: nat, v: nat, high: nat, low: nat)
    requires 1 <= low <= high <= 4 && TableAt(tables, r, v, high).None?
    ensures TableAt(tables, r, v, low).None?
    decreases high - low
  {
    if low < high {
      WalkStopped(tables, r, v, high, low + 1);
    }
  }

  /** A walk looks only at tables of its own root, above the level it goes down to. */
  lemma {:induction false} WalkOwned(tables: Tables, tables': Tables, owner: map<nat, Node>, r: nat, v: nat, level: nat)
    requires WellFormed(tables, owner) && IsRoot(owner, r) && v < USER_PAGES && 1 <= level <= 4
    requires forall u <- tables | owner[u].root == r && owner[u].level > level :: u in tables' && tables'[u] == tables[u]
    ensures TableAt(tables', r, v, level) == TableAt(tables, r, v, level)
    decreases 4 - level
  {
    hide Index, PathOf, Reach;
    if level < 4 {
      WalkOwned(tables, tables', owner, r, v, level + 1);
      WalkNode(tables, owner, r, v, level + 1);
    }
  }

  /** The walk for `v` goes through word `i` of table `t` before it gets down to `level`. */
  ghost predicate Through(tables: Tables, owner: map<nat, Node>, t: nat, i: nat, r: nat, v: nat, level: nat)
    requires t in owner && 1 <= owner[t].level <= 4 && 1 <= level <= 4
  {
    var n := owner[t];
    level < n.level && TableAt(tables, r, v, n.level) == Some(t) && Index(v, n.level) == i
  }

  /** The two memories agree except in word `i` of `t` and in table `c`. */
  ghost predicate AgreeBut(tables: Tables, tables': Tables, t: nat, i: nat, c: nat) {
    && t in tables && t in tables' && |tables[t]| == |tables'[t]|
    && (forall j | 0 <= j < |tables[t]| && j != i :: tables'[t][j] == tables[t][j])
    && (forall u <- tables :: u != t && u != c ==> u in tables' && tables'[u] == tables[u])
  }

  lemma PathBack(path: nat, level: nat)
    requires 1 <= level <= 4
    ensures PathOf(path * Reach(level + 1), level) == path
  {
  }

  /** Two tables with the same node are the same table. */
  lemma NodeUnique(tables: Tables, owner: map<nat, Node>, t: nat, u: nat)
    requires WellFormed(tables, owner) && t in owner && u in owner && owner[t] == owner[u]
    ensures t == u
  {
    assert NodeOk(tables, owner, t) && NodeOk(tables, owner, u);
  }

  /** A walk reaches the child table `c` of a word only through that word. */
  lemma OnlyThrough(tables: Tables, owner: map<nat, Node>, t: nat, i: nat, c: nat, r: nat, v: nat, level: nat)
    requires WellFormed(tables, owner) && IsRoot(owner, r) && v < USER_PAGES && 1 <= level < 4
    requires t in owner && c in owner && 2 <= owner[t].level <= 4 && i < ENTRIES
    requires owner[c] == Node(owner[t].root, owner[t].level - 1, owner[t].path * ENTRIES + i)
    requires TableAt(tables, r, v, level) == Some(c)
    ensures level == owner[t].level - 1 && TableAt(tables, r, v, level + 1) == Some(t) && Index(v, level + 1) == i
  {
    WalkNode(tables, owner, r, v, level);
    PathStep(v, level + 1);
    assert TableAt(tables, r, v, level + 1).Some?;
    WalkNode(tables, owner, r, v, level + 1);
    var p, q := PathOf(v, level + 1), Index(v, level + 1);
    assert p * ENTRIES + q == owner[t].path * ENTRIES + i;
    assert p == owner[t].path && q == i;
    NodeUnique(tables, owner, t, TableAt(tables, r, v, level + 1).value);
  }

  lemma {:induction false} WalkFrame(tables: Tables, tables': Tables, owner: map<nat, Node>, t: nat, i: nat, c: nat,
                                     r: nat, v: nat, level: nat)
    requires WellFormed(tables, owner) && IsRoot(owner, r) && v < USER_PAGES && 1 <= level <= 4
    requires AgreeBut(tables, tables', t, i, c) && t in owner && 1 <= owner[t].level <= 4 && i < ENTRIES
    requires c in owner && c != t ==> (owner[t].level > 1
                                      && owner[c] == Node(owner[t].root, owner[t].level - 1, owner[t].path * ENTRIES + i))
    requires !Through(tables, owner, t, i, r, v, level)
    ensures TableAt(tables', r, v, level) == TableAt(tables, r, v, level)
    decreases 4 - level
  {
    hide Index, PathOf, Reach;
    if level < 4 {
      WalkFrame(tables, tables', owner, t, i, c, r, v, level + 1);
      WalkNode(tables, owner, r, v, level + 1);
      if TableAt(tables, r, v, level + 1) == Some(c) && c != t {
        assert level + 1 < 4;
        OnlyThrough(tables, owner, t, i, c, r, v, level + 1);
      }
    }
  }

  // ----- writing a leaf word -----

  function WithWord(tables: Tables, t: nat, i: nat, e: Entry): Tables
    requires t in tables && i < |tables[t]|
  {
    tables[t := tables[t][i := e]]
  }

  /** Writing the leaf word of page (r, v) keeps the structure and changes the lookup of that page only. */
  lemma SetLeafKeeps(tables: Tables, owner: map<nat, Node>, r: nat, v: nat, t: nat, e: Entry)
    requires WellFormed(tables, owner) && IsRoot(owner, r) && v < USER_PAGES
    requires TableAt(tables, r, v, 1) == Some(t)
    requires e == ZERO || e == LeafWord(ToLeaf(e))
    ensures t in tables && |tables[t]| == ENTRIES
    ensures WellFormed(WithWord(tables, t, Index(v, 1), e), owner)
  {
    hide Index, PathOf, Reach, TableAt;
    WalkNode(tables, owner, r, v, 1);
    assert NodeOk(tables, owner, t);
    var i := Index(v, 1);
    var tables' := WithWord(tables, t, i, e);
    forall u <- tables' ensures NodeOk(tables', owner, u) {
      assert NodeOk(tables, owner, u);
      NodeKept(tables, tables', owner, t, i, t, u);
    }
    SetLeafWords(tables, owner, t, i, e);
  }

  lemma SetLeafWords(tables: Tables, owner: map<nat, Node>, t: nat, i: nat, e: Entry)
    requires WellFormed(tables, owner) && t in tables && |tables[t]| == ENTRIES && i < ENTRIES && owner[t].level == 1
    requires e == ZERO || e == LeafWord(ToLeaf(e))
    ensures var tables' := WithWord(tables, t, i, e); forall u, j | u in tables' && 0 <= j < |tables'[u]| :: WordOk(tables', owner, u, j)
  {
    hide NodeOk;
    var tables' := WithWord(tables, t, i, e);
    forall u, j | u in tables' && 0 <= j < |tables'[u]| ensures WordOk(tables', owner, u, j) {
      assert WordOk(tables, owner, u, j);
    }
  }

  /** A table whose own path does not use the changed word stays where it was. */
  lemma NodeKept(tables: Tables, tables': Tables, owner: map<nat, Node>, t: nat, i: nat, c: nat, u: nat)
    requires WellFormed(tables, owner) && AgreeBut(tables, tables', t, i, c)
    requires t in owner && 1 <= owner[t].level <= 4 && i < ENTRIES && u in tables && u in tables' && (u == c ==> u == t)
    requires c in owner && c != t ==> (owner[t].level > 1
                                      && owner[c] == Node(owner[t].root, owner[t].level - 1, owner[t].path * ENTRIES + i))
    requires NodeOk(tables, owner, u)
    requires !Through(tables, owner, t, i, owner[u].root, owner[u].path * Reach(owner[u].level + 1), owner[u].level)
    ensures NodeOk(tables', owner, u)
  {
    hide Index, PathOf, Reach;
    var n := owner[u];
    WalkFrame(tables, tables', owner, t, i, c, n.root, n.path * Reach(n.level + 1), n.level);
  }

  lemma SetLeafLookup(tables: Tables, owner: map<nat, Node>, r: nat, v: nat, t: nat, e: Entry, r': nat, v': nat)
    requires WellFormed(tables, owner) && IsRoot(owner, r) && v < USER_PAGES
    requires TableAt(tables, r, v, 1) == Some(t) && t in tables && |tables[t]| == ENTRIES
    requires IsRoot(owner, r') && v' < USER_PAGES
    ensures Lookup(WithWord(tables, t, Index(v, 1), e), r', v')
         == if (r', v') == (r, v) then e else Lookup(tables, r', v')
    ensures forall level | 1 <= level <= 4 ::
              TableAt(WithWord(tables, t, Index(v, 1), e), r', v', level) == TableAt(tables, r', v', level)
  {
    hide Index, PathOf, Reach;
    var i := Index(v, 1);
    var tables' := WithWord(tables, t, i, e);
    WalkNode(tables, owner, r, v, 1);
    forall level | 1 <= level <= 4 ensures TableAt(tables', r', v', level) == TableAt(tables, r', v', level) {
      WalkFrame(tables, tables', owner, t, i, t, r', v', level);
    }
    WalkNode(tables, owner, r', v', 1);
    PageFromPath(v);
    PageFromPath(v');
  }

  // ----- linking in a fresh table -----

  function Linked(tables: Tables, t: nat, i: nat, c: nat): Tables
    requires t in tables && i < |tables[t]|
  {
    tables[t := tables[t][i := LinkTo(c)]][c := ZeroTable()]
  }

  ghost function LinkedOwner(owner: map<nat, Node>, r: nat, v: nat, level: nat, c: nat): map<nat, Node>
    requires 2 <= level <= 4
  {
    owner[c := Node(r, level - 1, PathOf(v, level - 1))]
  }

  ghost predicate CanLink(tables: Tables, owner: map<nat, Node>, r: nat, v: nat, level: nat, t: nat, c: nat) {
    && WellFormed(tables, owner) && IsRoot(owner, r) && v < USER_PAGES && 2 <= level <= 4
    && TableAt(tables, r, v, level) == Some(t) && t in tables && |tables[t]| == ENTRIES
    && tables[t][Index(v, level)] == ZERO && c !in tables
  }

  /** Below a fresh link there is the fresh table and nothing else; every other walk is as before. */
  lemma LinkWalk(tables: Tables, owner: map<nat, Node>, r: nat, v: nat, level: nat, t: nat, c: nat,
                 r': nat, v': nat, low: nat)
    requires CanLink(tables, owner, r, v, level, t, c)
    requires IsRoot(owner, r') && v' < USER_PAGES && 1 <= low <= 4
    ensures TableAt(Linked(tables, t, Index(v, level), c), r', v', low)
         == if r' == r && low == level - 1 && PathOf(v', low) == PathOf(v, low) then Some(c) else TableAt(tables, r', v', low)
  {
    hide Index, PathOf, Reach;
    var i := Index(v, level);
    var tables' := Linked(tables, t, i, c);
    WalkNode(tables, owner, r, v, level);
    WalkNode(tables, owner, r', v', level);
    PathStep(v, level);
    PathStep(v', level);
    if Through(tables, owner, t, i, r', v', low) {
      WalkFrame(tables, tables', owner, t, i, c, r', v', level);
      WalkStopped(tables, r', v', level - 1, low);
      assert TableAt(tables', r', v', level - 1) == Some(c);
      if low < level - 1 {
        assert TableAt(tables', r', v', level - 2).None?;
        WalkStopped(tables', r', v', level - 2, low);
      }
    } else {
      WalkFrame(tables, tables', owner, t, i, c, r', v', low);
      if r' == r && low == level - 1 && PathOf(v', low) == PathOf(v, low) {
        WalkSamePath(tables, r, v, v', level);
      }
    }
  }

  lemma LinkLookup(tables: Tables, owner: map<nat, Node>, r: nat, v: nat, level: nat, t: nat, c: nat, r': nat, v': nat)
    requires CanLink(tables, owner, r, v, level, t, c) && IsRoot(owner, r') && v' < USER_PAGES
    ensures Lookup(Linked(tables, t, Index(v, level), c), r', v') == Lookup(tables, r', v')
  {
    hide Index, PathOf, Reach;
    var i := Index(v, level);
    var tables' := Linked(tables, t, i, c);
    LinkWalk(tables, owner, r, v, level, t, c, r', v', 1);
    WalkNode(tables, owner, r', v', 1);
    WalkNode(tables, owner, r, v, level);
    if r' == r && 1 == level - 1 && PathOf(v', 1) == PathOf(v, 1) {
      PathStep(v, level);
      PathStep(v', level);
      WalkSamePath(tables, r, v, v', 2);
      assert TableAt(tables, r', v', 1).None?;
    }
  }

  lemma LinkWellFormed(tables: Tables, owner: map<nat, Node>, r: nat, v: nat, level: nat, t: nat, c: nat)
    requires CanLink(tables, owner, r, v, level, t, c)
    ensures WellFormed(Linked(tables, t, Index(v, level), c), LinkedOwner(owner, r, v, level, c))
  {
    hide Index, PathOf, Reach, TableAt, NodeOk;
    var i := Index(v, level);
    var tables', owner' := Linked(tables, t, i, c), LinkedOwner(owner, r, v, level, c);
    WalkNode(tables, owner, r, v, level);
    PathStep(v, level);
    forall u <- tables' ensures NodeOk(tables', owner', u) {
      LinkKeepsNode(tables, owner, r, v, level, t, c, u);
    }
    forall u, j | u in tables' && 0 <= j < |tables'[u]| ensures WordOk(tables', owner', u, j) {
      if u != c {
        assert WordOk(tables, owner, u, j);
      }
    }
  }

  lemma LinkKeepsNode(tables: Tables, owner: map<nat, Node>, r: nat, v: nat, level: nat, t: nat, c: nat, u: nat)
    requires CanLink(tables, owner, r, v, level, t, c) && (u in tables || u == c)
    ensures NodeOk(Linked(tables, t, Index(v, level), c), LinkedOwner(owner, r, v, level, c), u)
  {
    hide Index, PathOf, Reach;
    var i := Index(v, level);
    var tables' := Linked(tables, t, i, c);
    if u == c {
      LinkedNode(tables, owner, r, v, level, t, c);
    } else {
      WalkNode(tables, owner, r, v, level);
      assert NodeOk(tables, owner, u);
      var n := owner[u];
      var w := n.path * Reach(n.level + 1);
      if Through(tables, owner, t, i, n.root, w, n.level) {
        WalkStopped(tables, n.root, w, level - 1, n.level);
      }
      NodeKept(tables, tables', owner, t, i, c, u);
    }
  }

  lemma LinkedNode(tables: Tables, owner: map<nat, Node>, r: nat, v: nat, level: nat, t: nat, c: nat)
    requires CanLink(tables, owner, r, v, level, t, c)
    ensures NodeOk(Linked(tables, t, Index(v, level), c), LinkedOwner(owner, r, v, level, c), c)
  {
    hide Index;
    var p := PathOf(v, level - 1);
    var w := p * Reach(level);
    PathBack(p, level - 1);
    assert w <= v;
    LinkWalk(tables, owner, r, v, level, t, c, r, w, level - 1);
  }

  // ----- unlinking an empty table -----

  function Unlinked(tables: Tables, t: nat, i: nat, c: nat): Tables
    requires t in tables && i < |tables[t]|
  {
    tables[t := tables[t][i := ZERO]] - {c}
  }

  ghost predicate CanUnlink(tables: Tables, owner: map<nat, Node>, r: nat, v: nat, level: nat, t: nat, c: nat) {
    && WellFormed(tables, owner) && IsRoot(owner, r) && v < USER_PAGES && 2 <= level <= 4
    && TableAt(tables, r, v, level) == Some(t) && t in tables && |tables[t]| == ENTRIES
    && TableAt(tables, r, v, level - 1) == Some(c) && c in tables && tables[c] == ZeroTable()
  }

  lemma UnlinkChild(tables: Tables, owner: map<nat, Node>, r: nat, v: nat, level: nat, t: nat, c: nat)
    requires CanUnlink(tables, owner, r, v, level, t, c)
    ensures owner[t] == Node(r, level, PathOf(v, level)) && t != c
    ensures owner[c] == Node(r, level - 1, PathOf(v, level) * ENTRIES + Index(v, level))
    ensures tables[t][Index(v, level)].frame == c
  {
    hide Index, PathOf, Reach;
    WalkNode(tables, owner, r, v, level);
    WalkNode(tables, owner, r, v, level - 1);
    PathStep(v, level);
  }

  /** A walk that went through the word of an empty table ended there. */
  lemma UnlinkWalk(tables: Tables, owner: map<nat, Node>, r: nat, v: nat, level: nat, t: nat, c: nat,
                   r': nat, v': nat, low: nat)
    requires CanUnlink(tables, owner, r, v, level, t, c)
    requires IsRoot(owner, r') && v' < USER_PAGES && 1 <= low <= 4
    ensures TableAt(Unlinked(tables, t, Index(v, level), c), r', v', low)
         == if TableAt(tables, r', v', low) == Some(c) then None else TableAt(tables, r', v', low)
  {
    hide Index, PathOf, Reach;
    var i := Index(v, level);
    var tables' := Unlinked(tables, t, i, c);
    UnlinkChild(tables, owner, r, v, level, t, c);
    WalkNode(tables, owner, r', v', low);
    if Through(tables, owner, t, i, r', v', low) {
      WalkFrame(tables, tables', owner, t, i, c, r', v', level);
      assert TableAt(tables', r', v', level - 1).None?;
      WalkStopped(tables', r', v', level - 1, low);
      assert TableAt(tables, r', v', level - 1) == Some(c);
      if low < level - 1 {
        assert TableAt(tables, r', v', level - 2).None?;
        WalkStopped(tables, r', v', level - 2, low);
      }
    } else {
      WalkFrame(tables, tables', owner, t, i, c, r', v', low);
      if TableAt(tables, r', v', low) == Some(c) {
        assert low < 4;
        OnlyThrough(tables, owner, t, i, c, r', v', low);
      }
    }
  }

  lemma UnlinkLookup(tables: Tables, owner: map<nat, Node>, r: nat, v: nat, level: nat, t: nat, c: nat, r': nat, v': nat)
    requires CanUnlink(tables, owner, r, v, level, t, c) && IsRoot(owner, r') && v' < USER_PAGES
    ensures Lookup(Unlinked(tables, t, Index(v, level), c), r', v') == Lookup(tables, r', v')
  {
    hide Index, PathOf, Reach;
    UnlinkChild(tables, owner, r, v, level, t, c);
    UnlinkWalk(tables, owner, r, v, level, t, c, r', v', 1);
    WalkNode(tables, owner, r', v', 1);
  }

  lemma UnlinkKeepsNode(tables: Tables, owner: map<nat, Node>, r: nat, v: nat, level: nat, t: nat, c: nat, u: nat)
    requires CanUnlink(tables, owner, r, v, level, t, c) && u in tables && u != c
    ensures NodeOk(Unlinked(tables, t, Index(v, level), c), owner - {c}, u)
  {
    hide Index, PathOf, Reach;
    UnlinkChild(tables, owner, r, v, level, t, c);
    assert NodeOk(tables, owner, u);
    var n := owner[u];
    UnlinkWalk(tables, owner, r, v, level, t, c, n.root, n.path * Reach(n.level + 1), n.level);
  }

  lemma UnlinkWellFormed(tables: Tables, owner: map<nat, Node>, r: nat, v: nat, level: nat, t: nat, c: nat)
    requires CanUnlink(tables, owner, r, v, level, t, c)
    ensures WellFormed(Unlinked(tables, t, Index(v, level), c), owner - {c})
  {
    hide Index, PathOf, Reach, TableAt;
    var i := Index(v, level);
    var tables', owner' := Unlinked(tables, t, i, c), owner - {c};
    UnlinkChild(tables, owner, r, v, level, t, c);
    forall u <- tables' ensures NodeOk(tables', owner', u) {
      UnlinkKeepsNode(tables, owner, r, v, level, t, c, u);
    }
    forall u, j | u in tables' && 0 <= j < |tables'[u]| ensures WordOk(tables', owner', u, j) {
      assert NodeOk(tables, owner, u) && WordOk(tables, owner, u, j);
      var n, e := owner[u], tables[u][j];
      if n.level > 1 && e == LinkTo(c) && !(n.level == 4 && j >= HHDM_INDEX) {
        assert n.path * ENTRIES + j == PathOf(v, level) * ENTRIES + i;
        assert n.path == PathOf(v, level) && j == i;
        NodeUnique(tables, owner, t, u);
      }
    }
  }

  // ----- roots -----

  /** A page that can serve as a root: nothing in its user half. */
  ghost predicate EmptyRoot(t: Table) {
    |t| == ENTRIES && forall i | 0 <= i < HHDM_INDEX :: t[i] == ZERO
  }

  lemma NewRootWellFormed(tables: Tables, owner: map<nat, Node>, r: nat, page: Table)
    requires WellFormed(tables, owner) && r !in tables && EmptyRoot(page)
    ensures WellFormed(tables[r := page], owner[r := Node(r, 4, 0)])
  {
    hide Index, PathOf;
    var tables', owner' := tables[r := page], owner[r := Node(r, 4, 0)];
    forall u <- tables' ensures NodeOk(tables', owner', u) {
      if u != r {
        assert NodeOk(tables, owner, u);
        var n := owner[u];
        WalkOwned(tables, tables', owner, n.root, n.path * Reach(n.level + 1), n.level);
      }
    }
    forall u, j | u in tables' && 0 <= j < |tables'[u]| ensures WordOk(tables', owner', u, j) {
      if u != r {
        assert WordOk(tables, owner, u, j);
      }
    }
  }

  lemma NewRootLookup(tables: Tables, owner: map<nat, Node>, r: nat, page: Table, r': nat, v': nat)
    requires WellFormed(tables, owner) && r !in tables && EmptyRoot(page) && v' < USER_PAGES
    requires IsRoot(owner, r') || r' == r
    ensures Lookup(tables[r := page], r', v') == if r' == r then ZERO else Lookup(tables, r', v')
  {
    hide Index, PathOf, Reach;
    var tables' := tables[r := page];
    if r' == r {
      UserIndices(v');
      assert TableAt(tables', r, v', 3).None?;
      WalkStopped(tables', r, v', 3, 1);
    } else {
      WalkOwned(tables, tables', owner, r', v', 1);
      WalkNode(tables, owner, r', v', 1);
    }
  }

  /** The root has no table below it any more. */
  ghost predicate Bare(owner: map<nat, Node>, r: nat) {
    forall t <- owner :: owner[t].root == r ==> t == r
  }

  lemma DropRootWellFormed(tables: Tables, owner: map<nat, Node>, r: nat)
    requires WellFormed(tables, owner) && IsRoot(owner, r) && Bare(owner, r)
    ensures WellFormed(tables - {r}, owner - {r})
  {
    hide Index, PathOf, Reach;
    var tables', owner' := tables - {r}, owner - {r};
    forall u <- tables' ensures NodeOk(tables', owner', u) {
      assert NodeOk(tables, owner, u);
      var n := owner[u];
      WalkOwned(tables, tables', owner, n.root, n.path * Reach(n.level + 1), n.level);
    }
    forall u, j | u in tables' && 0 <= j < |tables'[u]| ensures WordOk(tables', owner', u, j) {
      assert NodeOk(tables, owner, u) && WordOk(tables, owner, u, j);
    }
  }

  lemma DropRootLookup(tables: Tables, owner: map<nat, Node>, r: nat, r': nat, v': nat)
    requires WellFormed(tables, owner) && IsRoot(owner, r) && IsRoot(owner, r') && r' != r && v' < USER_PAGES
    ensures Lookup(tables - {r}, r', v') == Lookup(tables, r', v')
  {
    hide Index, PathOf, Reach;
    assert forall u <- tables | owner[u].root == r' :: u != r;
    WalkOwned(tables, tables - {r}, owner, r', v', 1);
    WalkNode(tables, owner, r', v', 1);
  }
}
