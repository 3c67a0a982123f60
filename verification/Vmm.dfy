/**
 `kernel/vmm.c`: the operations on user address spaces, over page tables in physical memory, the
 share table and the frame allocator.  Each operation is one transition of `CopyOnWrite`, and the
 managed frames stay divided into free frames, page tables, mapped pages and frames held by others.
 */
module VirtualMemory {
  import opened CopyOnWrite
  import opened PageTables
  import opened Mappings
  import opened Forks
  import opened FramePools
  import opened ShareTables

  /** Every managed frame is in exactly one of the four parts. */
  ghost predicate Partition(universe: set<nat>, free: set<nat>, tables: set<nat>, pages: set<nat>, held: set<nat>) {
    universe == free + tables + pages + held && free !! tables !! pages !! held
  }

  /** A frame that moves from one part to another leaves the division exact. */
  lemma Moved(universe: set<nat>, free: set<nat>, tables: set<nat>, pages: set<nat>, held: set<nat>, f: nat)
    requires Partition(universe, free, tables, pages, held)
    ensures f in free ==> Partition(universe, free - {f}, tables + {f}, pages, held)
    ensures f in free ==> Partition(universe, free - {f}, tables, pages + {f}, held)
    ensures f in free ==> Partition(universe, free - {f}, tables, pages, held + {f})
    ensures f in tables ==> Partition(universe, free + {f}, tables - {f}, pages, held)
    ensures f in pages ==> Partition(universe, free + {f}, tables, pages - {f}, held)
    ensures f in held ==> Partition(universe, free + {f}, tables, pages, held - {f})
    ensures f in held ==> Partition(universe, free, tables, pages + {f}, held - {f})
    ensures f in free ==> f !in tables && f !in pages && f !in held && f in universe
    ensures f in tables + pages + held ==> f in universe && f !in free
  {
  }

  lemma HeldToPages(universe: set<nat>, free: set<nat>, tables: set<nat>, pages: set<nat>, held: set<nat>, f: nat)
    requires Partition(universe, free, tables, pages, held) && f in held
    ensures Partition(universe, free, tables, pages + {f}, held - {f})
  {
  }

  lemma OthersKeptTwice(ta: Tables, oa: map<nat, Node>, tb: Tables, ob: map<nat, Node>, tc: Tables, oc: map<nat, Node>, r: nat)
    requires ta.Keys == oa.Keys && tb.Keys == ob.Keys && tc.Keys == oc.Keys
    requires OthersKept(ta, oa, tb, ob, r) && OthersKept(tb, ob, tc, oc, r)
    ensures OthersKept(ta, oa, tc, oc, r)
  {
  }

  class Vmm {
    const pool: FramePool
    const share: ShareTable
    const bootTable: Table
    var tables: Tables
    var mem: map<nat, PageData>
    ghost const universe: set<nat>
    ghost var owner: map<nat, Node>
    ghost var leaf: map<Key, Leaf>
    ghost var held: set<nat>

    ghost predicate Parts()
      reads pool, pool.bits, share, share.ents
    {
      && pool.Valid() && share.Valid() && |bootTable| == ENTRIES
      && pool.bits as object != share.ents
      && forall f <- universe :: pool.reservedEnd <= f * FRAME_SIZE && f < pool.frameCount
    }

    lemma PartsValid()
      requires Parts()
      ensures pool.Valid() && share.Valid()
      ensures this as object != pool && this as object != share
      ensures this as object != pool.bits && this as object != share.ents && pool.bits as object != share.ents
    {
    }

    ghost function Spaces(): Flat
      reads this`leaf, this`mem, share`counts
    {
      Flat(leaf, share.counts, mem)
    }

    /** What makes a fork give up: no frame for a table it lacks, or no entry for a frame that is not shared yet. */
    ghost predicate Starved(dst: nat, ways: set<Way>, frames: set<nat>)
      reads this`owner, pool`free, share`counts
    {
      || (pool.free == {} && !(ways <= Present(owner, dst)))
      || (|share.counts| == COW_MAX && !(frames <= share.counts.Keys))
    }

    /** The tables are well formed and show the leaves, and every managed frame is accounted for. */
    ghost predicate Sound()
      reads this, pool, pool.bits, share, share.ents
    {
      && Parts()
      && Structure(tables, owner, leaf)
      && Partition(universe, pool.free, tables.Keys, LeafFrames(leaf), held)
    }

    ghost predicate Valid()
      reads this, pool, pool.bits, share, share.ents
    {
      Sound() && Inv(Spaces())
    }

    constructor (pool: FramePool, bootTable: Table)
      requires pool.Valid() && |bootTable| == ENTRIES
      ensures Valid() && fresh(share) && fresh(share.ents) && this.pool == pool
      ensures Spaces() == Flat(map[], map[], map[]) && held == {} && tables == map[] && universe == pool.free
    {
      hide Structure, Inv, Partition, ShareTable.Valid;
      this.pool := pool;
      this.bootTable := bootTable;
      share := new ShareTable();
      tables, mem := map[], map[];
      universe, owner, leaf, held := pool.free, map[], map[], {};
      new;
      NothingMapped(pool.free);
      assert Spaces() == Flat(map[], map[], map[]) && tables.Keys == {};
    }

    // ----- table words -----

    /** Links a zeroed frame in where the word is zero. */
    method LinkTable(r: nat, v: nat, level: nat, t: nat) returns (ok: bool, next: nat)
      requires Sound() && HasTable(tables, owner, r, v, level, t) && 2 <= level && CanLinkAt(tables, owner, r, v, level, t)
      modifies this`tables, this`owner, pool`freeCount, pool`free, pool.bits
      ensures Sound()
      ensures ok ==> HasTable(tables, owner, r, v, level - 1, next)
      ensures !ok ==> pool.free == {} && owner == old(owner)
      ensures IsRoot(owner, r) && OthersKept(old(tables), old(owner), tables, owner, r)
      ensures Grew(old(owner), owner, r, {Way(level - 1, PathOf(v, level - 1))})
    {
      hide Inv, Index, PathOf, Reach, Tied, LeafFrames, ShareTable.Valid, FramePool.Valid, Partition, Grew, OthersKept, WellFormed, TableAt;
      hide CanLinkAt, Linked, LinkedOwner;
      GrewSelf(owner, r, {Way(level - 1, PathOf(v, level - 1))});
      OthersKeptSelf(tables, owner, r);
      CanLinkWord(tables, owner, r, v, level, t);
      var phys := pool.Alloc();
      if phys == 0 {
        return false, 0;
      }
      next := phys / FRAME_SIZE;
      Moved(universe, old(pool.free), tables.Keys, LeafFrames(leaf), held, next);
      CanLinkThis(tables, owner, r, v, level, t, next);
      LinkRefines(tables, owner, leaf, r, v, level, t, next);
      LinkedKeys(tables, t, Index(v, level), next);
      GrewByOne(owner, r, v, level, next);
      tables := Linked(tables, t, Index(v, level), next);
      owner := LinkedOwner(owner, r, v, level, next);
      ok := true;
    }

    /** Finds or makes the next table down; fails only when no frame is free. */
    method EnsureTable(r: nat, v: nat, level: nat, t: nat) returns (ok: bool, next: nat)
      requires Sound() && HasTable(tables, owner, r, v, level, t) && 2 <= level
      modifies this`tables, this`owner, pool`freeCount, pool`free, pool.bits
      ensures Sound()
      ensures ok ==> HasTable(tables, owner, r, v, level - 1, next)
      ensures !ok ==> pool.free == {} && Way(level - 1, PathOf(v, level - 1)) !in Present(owner, r)
      ensures IsRoot(owner, r) && OthersKept(old(tables), old(owner), tables, owner, r)
      ensures Grew(old(owner), owner, r, {Way(level - 1, PathOf(v, level - 1))})
    {
      hide Inv, Index, PathOf, Reach, Tied, LeafFrames, ShareTable.Valid, FramePool.Valid, Partition, Present, Grew, OthersKept, Parts;
      WalkNode(tables, owner, r, v, level);
      UserIndices(v);
      assert NodeOk(tables, owner, t) && WordOk(tables, owner, t, Index(v, level));
      var e := tables[t][Index(v, level)];
      if e.present {
        GrewSelf(owner, r, {Way(level - 1, PathOf(v, level - 1))});
        OthersKeptSelf(tables, owner, r);
        return true, e.frame;
      }
      NotPresent(tables, owner, r, v, level - 1);
      ok, next := LinkTable(r, v, level, t);
    }

    /** Writes the leaf word of a page. */
    method PutLeaf(r: nat, v: nat, t: nat, e: Entry)
      requires Structure(tables, owner, leaf) && HasTable(tables, owner, r, v, 1, t)
      requires e == ZERO || e == LeafWord(ToLeaf(e))
      modifies this`tables, this`leaf
      ensures Structure(tables, owner, leaf)
      ensures leaf == WithLeaf(old(leaf), (r, v), e)
      ensures Parts() == old(Parts()) && Spaces() == old(Spaces()).(leaf := leaf)
      ensures WroteLeaf(old(tables), tables, owner, r, v, t, e)
    {
      hide Index, PathOf, Reach, TableAt, Lookup, Tied, WellFormed, WroteLeaf, Parts;
      SetLeafRefines(tables, owner, leaf, r, v, t, e);
      tables := tables[t := tables[t][Index(v, 1) := e]];
      leaf := WithLeaf(leaf, (r, v), e);
    }

    /** Makes the three tables on the way and writes the leaf; on failure no page has changed. */
    method WriteLeaf(r: nat, v: nat, l: Leaf) returns (ok: bool)
      requires Sound() && IsRoot(owner, r) && v < USER_PAGES
      modifies this`tables, this`owner, this`leaf, pool`freeCount, pool`free, pool.bits
      ensures Parts() && Structure(tables, owner, leaf)
      ensures Partition(universe, pool.free, tables.Keys, LeafFrames(old(leaf)), held)
      ensures leaf == if ok then old(leaf)[(r, v) := l] else old(leaf)
      ensures !ok ==> pool.free == {} && !(PageWays(v) <= Present(owner, r))
      ensures IsRoot(owner, r) && OthersKept(old(tables), old(owner), tables, owner, r)
      ensures Grew(old(owner), owner, r, PageWays(v))
    {
      hide Index, PathOf, Reach, TableAt, Inv, Tied, WellFormed, LeafFrames, OthersKept, ShareTable.Valid, FramePool.Valid, Partition, WroteLeaf;
      hide Grew, Present;
      assert HasTable(tables, owner, r, v, 4, r) by { RootWalk(tables, r, v); }
      var pdpt, pd, pt;
      ghost var ways := PageWays(v);
      ok, pdpt := EnsureTable(r, v, 4, r);
      ghost var t1, o1 := tables, owner;
      GrewSelf(old(owner), r, ways);
      GrewTwice(old(owner), old(owner), o1, r, ways, {Way(3, PathOf(v, 3))}, ways);
      if !ok {
        return;
      }
      ok, pd := EnsureTable(r, v, 3, pdpt);
      ghost var t2, o2 := tables, owner;
      OthersKeptTwice(old(tables), old(owner), t1, o1, t2, o2, r);
      GrewTwice(old(owner), o1, o2, r, ways, {Way(2, PathOf(v, 2))}, ways);
      if !ok {
        return;
      }
      ok, pt := EnsureTable(r, v, 2, pd);
      ghost var t3, o3 := tables, owner;
      OthersKeptTwice(old(tables), old(owner), t2, o2, t3, o3, r);
      GrewTwice(old(owner), o2, o3, r, ways, {Way(1, PathOf(v, 1))}, ways);
      if !ok {
        return;
      }
      PutLeaf(r, v, pt, LeafWord(l));
      LeafWriteKeys(t3, tables, owner, r, v, pt, LeafWord(l));
      OthersKeptTwice(old(tables), old(owner), t3, o3, tables, owner, r);
    }

    /**
     `vmm_map_user_flags`: makes the tables that the walk lacks and writes the leaf; it succeeds exactly when there
     is a frame for each of them, and takes no other.
     */
    method MapUserFlags(r: nat, v: nat, l: Leaf) returns (ok: bool)
      requires Sound() && IsRoot(owner, r) && v < USER_PAGES
      modifies this`tables, this`owner, this`leaf, pool`freeCount, pool`free, pool.bits
      ensures Parts() && Structure(tables, owner, leaf)
      ensures Partition(universe, pool.free, tables.Keys, LeafFrames(old(leaf)), held)
      ensures leaf == if ok then old(leaf)[(r, v) := l] else old(leaf)
      ensures !ok ==> pool.free == {} && !(PageWays(v) <= Present(owner, r))
      ensures IsRoot(owner, r) && OthersKept(old(tables), old(owner), tables, owner, r)
      ensures Grew(old(owner), owner, r, PageWays(v))
      ensures ok <==> RoomFor(old(owner), r, PageWays(v), |old(pool.free)|)
      ensures ok ==> Present(owner, r) == Present(old(owner), r) + PageWays(v)
                     && |pool.free| == |old(pool.free)| - |PageWays(v) - Present(old(owner), r)|
    {
      hide Present, PageWays, Inv, Tied, WellFormed, LeafFrames, OthersKept, ShareTable.Valid, FramePool.Valid, Partition, Parts, Grew;
      ok := WriteLeaf(r, v, l);
      Counted(universe, old(pool.free), old(owner), pool.free, tables, owner, LeafFrames(old(leaf)), held, r, PageWays(v));
      if ok {
        MappedHasWays(tables, owner, leaf, r, v);
        GrewPresent(old(owner), owner, r, PageWays(v));
      }
    }

    /** One step of a read-only walk. */
    method Down(r: nat, v: nat, level: nat, t: nat) returns (ok: bool, next: nat)
      requires Structure(tables, owner, leaf) && HasTable(tables, owner, r, v, level, t) && 2 <= level
      ensures ok ==> HasTable(tables, owner, r, v, level - 1, next)
      ensures !ok ==> (r, v) !in leaf
    {
      hide Index, PathOf, Reach;
      WalkNode(tables, owner, r, v, level);
      UserIndices(v);
      assert NodeOk(tables, owner, t) && WordOk(tables, owner, t, Index(v, level));
      var e := tables[t][Index(v, level)];
      if !e.present || !e.user || e.large {
        WalkStopped(tables, r, v, level - 1, 1);
        assert Shows(tables, leaf, r, v);
        return false, 0;
      }
      return true, e.frame;
    }

    /** The walk of `vmm_leaf_pte`: the page table and the word of a page, if the page is mapped. */
    method LeafTable(r: nat, v: nat) returns (ok: bool, t: nat, e: Entry)
      requires Structure(tables, owner, leaf) && IsRoot(owner, r) && v < USER_PAGES
      ensures ok <==> (r, v) in leaf
      ensures ok ==> HasTable(tables, owner, r, v, 1, t) && e == LeafWord(leaf[(r, v)])
    {
      hide Index, PathOf, Reach, WellFormed, Tied;
      RootWalk(tables, r, v);
      e := ZERO;
      ok, t := Down(r, v, 4, r);
      if !ok {
        return;
      }
      ok, t := Down(r, v, 3, t);
      if !ok {
        return;
      }
      ok, t := Down(r, v, 2, t);
      if !ok {
        return;
      }
      LeafWordOf(tables, owner, leaf, r, v, t);
      e := tables[t][Index(v, 1)];
      ok := e.present && e.user;
    }

    /** Maps a held frame at page `v`, whatever the page held. */
    method MapHeld(r: nat, v: nat, f: nat) returns (ok: bool)
      requires Valid() && IsRoot(owner, r) && v < USER_PAGES && f in held && Backed(mem, f)
      modifies this`tables, this`owner, this`leaf, this`held, pool`freeCount, pool`free, pool.bits
      ensures ok <==> RoomFor(old(owner), r, PageWays(v), |old(pool.free)|)
      ensures Valid() <==> !(ok && (r, v) in old(leaf))
      ensures Spaces() == if ok then MapPage(old(Spaces()), (r, v), f) else old(Spaces())
      ensures held == (if ok then old(held) - {f} else old(held)) && (!ok ==> pool.free == {})
      ensures ok ==> Present(owner, r) == Present(old(owner), r) + PageWays(v)
                     && |pool.free| == |old(pool.free)| - |PageWays(v) - Present(old(owner), r)|
      ensures tables.Keys == owner.Keys && IsRoot(owner, r) && OthersKept(old(tables), old(owner), tables, owner, r)
    {
      hide Inv, Tied, WellFormed, LeafFrames, OthersKept, ShareTable.Valid, FramePool.Valid, Partition, PageWays, Present, RoomFor, Parts, View, Grew;
      ghost var was := Spaces();
      NotALeaf(universe, pool.free, tables.Keys, leaf, held, f);
      ok := MapUserFlags(r, v, Leaf(f, true, true));
      if !ok {
        assert Spaces() == was;
        return;
      }
      held := held - {f};
      assert Spaces() == MapPage(was, (r, v), f);
      if (r, v) in was.leaf {
        Overmapped(universe, pool.free, tables.Keys, was, old(held), (r, v), Leaf(f, true, true));
        assert !Valid();
      } else {
        MapPageCorrect(was, (r, v), f);
        HeldToPages(universe, pool.free, tables.Keys, LeafFrames(was.leaf), old(held), f);
        assert Valid();
      }
    }

    /**
     `vmm_map_user`: the page becomes writable and holds the frame, exactly when the addresses are aligned and there
     is a frame for each table its walk lacks.  A page that was mapped already loses its frame without a trace, so
     the books are kept exactly when it was not.
     */
    method MapUser(r: nat, virt: nat, phys: nat) returns (ok: bool)
      requires Valid() && IsRoot(owner, r) && virt / PAGE_SIZE < USER_PAGES
      requires phys / PAGE_SIZE in held && Backed(mem, phys / PAGE_SIZE)
      modifies this`tables, this`owner, this`leaf, this`held, pool`freeCount, pool`free, pool.bits
      ensures ok <==> virt % PAGE_SIZE == 0 && phys % PAGE_SIZE == 0 && RoomFor(old(owner), r, PageWays(virt / PAGE_SIZE), |old(pool.free)|)
      ensures Valid() <==> !(virt % PAGE_SIZE == 0 && phys % PAGE_SIZE == 0 && (r, virt / PAGE_SIZE) in old(leaf)
                             && RoomFor(old(owner), r, PageWays(virt / PAGE_SIZE), |old(pool.free)|))
      ensures Spaces() == if ok then MapPage(old(Spaces()), (r, virt / PAGE_SIZE), phys / PAGE_SIZE) else old(Spaces())
      ensures held == if ok then old(held) - {phys / PAGE_SIZE} else old(held)
      ensures !ok ==> virt % PAGE_SIZE != 0 || phys % PAGE_SIZE != 0 || pool.free == {}
      ensures ok ==> Present(owner, r) == Present(old(owner), r) + PageWays(virt / PAGE_SIZE)
                     && |pool.free| == |old(pool.free)| - |PageWays(virt / PAGE_SIZE) - Present(old(owner), r)|
      ensures tables.Keys == owner.Keys && IsRoot(owner, r) && OthersKept(old(tables), old(owner), tables, owner, r)
    {
      hide Inv, Tied, WellFormed, LeafFrames, OthersKept, ShareTable.Valid, FramePool.Valid, Partition, PageWays, Present, RoomFor, Parts, View;
      if virt % PAGE_SIZE != 0 || phys % PAGE_SIZE != 0 {
        OthersKeptSelf(tables, owner, r);
        return false;
      }
      ok := MapHeld(r, virt / PAGE_SIZE, phys / PAGE_SIZE);
    }

    /** `cow_free_leaf`: one mapping of the frame is gone; the last one gives the frame back. */
    method FreeLeaf(f: nat)
      requires Parts() && f in universe
      modifies share`counts, share.ents, pool`freeCount, pool`free, pool.bits
      ensures Parts()
      ensures share.counts == Dropped(old(share.counts), f)
      ensures pool.free == if Count(old(share.counts), f) <= 1 then old(pool.free) + {f} else old(pool.free)
    {
      hide ShareTable.Valid, FramePool.Valid;
      var last := share.Drop(f);
      if last {
        pool.Release(f * FRAME_SIZE);
      }
    }

    /** Clears the leaf word of a mapped page and gives its frame up. */
    method ClearLeaf(r: nat, v: nat, t: nat)
      requires Valid() && HasTable(tables, owner, r, v, 1, t) && (r, v) in leaf
      modifies this`tables, this`leaf, share`counts, share.ents, pool`freeCount, pool`free, pool.bits
      ensures Valid()
      ensures Spaces() == UnmapPage(old(Spaces()), (r, v))
      ensures |pool.free| <= |old(pool.free)| + 1
      ensures WroteLeaf(old(tables), tables, owner, r, v, t, ZERO)
    {
      hide Index, PathOf, Reach, TableAt, Inv, Tied, WellFormed, LeafFrames, ShareTable.Valid, FramePool.Valid, Partition, WroteLeaf, OthersKept, UpperKept, Parts, View;
      ghost var was := Spaces();
      LeafWordOf(tables, owner, leaf, r, v, t);
      var f := tables[t][Index(v, 1)].frame;
      LeafFrameOf(leaf, (r, v));
      Moved(universe, pool.free, tables.Keys, LeafFrames(leaf), held, f);
      UnmapPageCorrect(was, (r, v));
      PutLeaf(r, v, t, ZERO);
      LeafWriteKeys(old(tables), tables, owner, r, v, t, ZERO);
      FreeLeaf(f);
      assert Parts() && Spaces() == UnmapPage(was, (r, v));
    }

    /** `vmm_unmap_user`: fails exactly on an unaligned or unmapped address. */
    method UnmapUser(r: nat, virt: nat) returns (ok: bool)
      requires Valid() && IsRoot(owner, r) && virt / PAGE_SIZE < USER_PAGES
      modifies this`tables, this`leaf, share`counts, share.ents, pool`freeCount, pool`free, pool.bits
      ensures Valid()
      ensures ok <==> virt % PAGE_SIZE == 0 && (r, virt / PAGE_SIZE) in old(leaf)
      ensures Spaces() == if ok then UnmapPage(old(Spaces()), (r, virt / PAGE_SIZE)) else old(Spaces())
      ensures |pool.free| <= |old(pool.free)| + 1
      ensures tables.Keys == old(tables).Keys
    {
      hide Inv, Tied, WellFormed, LeafFrames, ShareTable.Valid, FramePool.Valid, Partition, WroteLeaf, Parts, HasTable;
      hide OthersKept, UpperKept;
      if virt % PAGE_SIZE != 0 {
        return false;
      }
      var v := virt / PAGE_SIZE;
      var t, e;
      ok, t, e := LeafTable(r, v);
      if ok {
        ClearLeaf(r, v, t);
        LeafWriteKeys(old(tables), tables, owner, r, v, t, ZERO);
      }
    }

    /** `vmm_translate_user`: the physical address behind a mapped user address. */
    method Translate(r: nat, virt: nat) returns (ok: bool, phys: nat)
      requires Structure(tables, owner, leaf) && IsRoot(owner, r) && virt / PAGE_SIZE < USER_PAGES
      ensures ok <==> (r, virt / PAGE_SIZE) in leaf
      ensures ok ==> phys / PAGE_SIZE == leaf[(r, virt / PAGE_SIZE)].frame && phys % PAGE_SIZE == virt % PAGE_SIZE
    {
      hide Tied, WellFormed, HasTable;
      var t, e;
      ok, t, e := LeafTable(r, virt / PAGE_SIZE);
      phys := e.frame * PAGE_SIZE + virt % PAGE_SIZE;
    }

    /** A frame at or above 2 MiB if there is one, else any. */
    method AllocHigh() returns (phys: nat)
      requires pool.Valid()
      modifies pool`freeCount, pool`free, pool.bits
      ensures pool.Valid()
      ensures phys == 0 <==> old(pool.free) == {}
      ensures phys == 0 ==> pool.free == old(pool.free)
      ensures phys != 0 ==> phys % FRAME_SIZE == 0 && phys / FRAME_SIZE in old(pool.free)
      ensures phys != 0 ==> pool.free == old(pool.free) - {phys / FRAME_SIZE}
    {
      hide FramePool.Valid;
      phys := pool.AllocAbove(IDENTITY_END);
      if phys == 0 {
        phys := pool.Alloc();
      }
    }

    /**
     `vmm_cow_break`: makes a page privately writable.  It fails exactly when the page is not
     mapped, is not meant to be writable, or is shared and no frame is free.
     */
    method CowBreak(r: nat, virt: nat) returns (ok: bool, ghost neu: nat)
      requires Valid() && IsRoot(owner, r) && virt / PAGE_SIZE < USER_PAGES
      modifies this`tables, this`leaf, this`mem, share`counts, share.ents, pool`freeCount, pool`free, pool.bits
      ensures Valid()
      ensures var k := (r, virt / PAGE_SIZE);
        ok <==> k in old(leaf) && old(leaf)[k].want
                && (Count(old(share.counts), old(leaf)[k].frame) > 1 ==> old(pool.free) != {})
      ensures ok ==> Enabled(old(Spaces()), Break((r, virt / PAGE_SIZE), neu))
                     && Spaces() == BreakPage(old(Spaces()), (r, virt / PAGE_SIZE), neu)
      ensures !ok ==> Spaces() == old(Spaces()) && pool.free == old(pool.free)
      ensures tables.Keys == old(tables).Keys
    {
      hide Inv, Tied, WellFormed, LeafFrames, ShareTable.Valid, FramePool.Valid, Partition, WroteLeaf, HasTable;
      hide OthersKept, UpperKept, Index;
      neu := 0;
      var v := virt / PAGE_SIZE;
      var t, e;
      ok, t, e := LeafTable(r, v);
      if !ok {
        return;
      }
      if !e.want {
        return false, 0;
      }
      MappedIsBacked(Spaces(), (r, v));
      var n := share.Refs(e.frame);
      if n <= 1 {
        BreakSolePage(r, v, t, e.frame);
        return true, 0;
      }
      var p := BreakSharedPage(r, v, t, e.frame);
      return p != 0, p;
    }

    /** The frame has no other mapping: it only gets its write bit back. */
    method BreakSolePage(r: nat, v: nat, t: nat, f: nat)
      requires Valid() && HasTable(tables, owner, r, v, 1, t) && (r, v) in leaf && leaf[(r, v)].want
      requires leaf[(r, v)].frame == f && f in mem && Count(share.counts, f) <= 1
      modifies this`tables, this`leaf, share`counts, share.ents
      ensures Valid()
      ensures Spaces() == BreakPage(old(Spaces()), (r, v), 0)
      ensures tables.Keys == old(tables).Keys
    {
      hide Inv, Tied, WellFormed, LeafFrames, ShareTable.Valid, FramePool.Valid, Partition, WroteLeaf, HasTable, View;
      hide OthersKept, UpperKept, Index;
      ghost var was := Spaces();
      BreakPageCorrect(was, (r, v), 0);
      PutLeaf(r, v, t, LeafWord(Leaf(f, true, true)));
      LeafWriteKeys(old(tables), tables, owner, r, v, t, LeafWord(Leaf(f, true, true)));
      share.Forget(f);
      assert Parts() && Spaces() == BreakPage(was, (r, v), 0);
    }

    /** The frame is shared: its bytes go to a private frame; 0 if there is none. */
    method BreakSharedPage(r: nat, v: nat, t: nat, f: nat) returns (p: nat)
      requires Valid() && HasTable(tables, owner, r, v, 1, t) && (r, v) in leaf && leaf[(r, v)].want
      requires leaf[(r, v)].frame == f && f in mem && Count(share.counts, f) > 1
      modifies this`tables, this`leaf, this`mem, share`counts, share.ents, pool`freeCount, pool`free, pool.bits
      ensures Valid()
      ensures p == 0 <==> old(pool.free) == {}
      ensures p != 0 ==> Enabled(old(Spaces()), Break((r, v), p)) && Spaces() == BreakPage(old(Spaces()), (r, v), p)
      ensures p == 0 ==> Spaces() == old(Spaces()) && pool.free == old(pool.free)
      ensures tables.Keys == old(tables).Keys
    {
      hide Inv, Tied, WellFormed, LeafFrames, ShareTable.Valid, FramePool.Valid, Partition, WroteLeaf, HasTable, View;
      hide OthersKept, UpperKept, Index;
      ghost var was := Spaces();
      var phys := AllocHigh();
      if phys == 0 {
        return 0;
      }
      p := phys / FRAME_SIZE;
      NotALeaf(universe, old(pool.free), tables.Keys, leaf, held, p);
      Moved(universe, old(pool.free), tables.Keys, LeafFrames(leaf), held, p);
      BreakPageCorrect(was, (r, v), p);
      mem := mem[p := mem[f]];
      PutLeaf(r, v, t, LeafWord(Leaf(p, true, true)));
      LeafWriteKeys(old(tables), tables, owner, r, v, t, LeafWord(Leaf(p, true, true)));
      var last := share.Drop(f);
      assert Parts() && Spaces() == BreakPage(was, (r, v), p);
    }

    /** `vmm_protect_user`: fails exactly on an unmapped page; a shared page never gets the write bit. */
    method ProtectUser(r: nat, virt: nat, wr: bool) returns (ok: bool)
      requires Valid() && IsRoot(owner, r) && virt / PAGE_SIZE < USER_PAGES
      modifies this`tables, this`leaf
      ensures Valid()
      ensures ok <==> (r, virt / PAGE_SIZE) in old(leaf)
      ensures Spaces() == if ok then ProtectPage(old(Spaces()), (r, virt / PAGE_SIZE), wr) else old(Spaces())
      ensures tables.Keys == old(tables).Keys
    {
      hide Inv, Tied, WellFormed, LeafFrames, ShareTable.Valid, FramePool.Valid, Partition, WroteLeaf, HasTable, View;
      hide OthersKept, UpperKept, Index, Parts;
      PartsValid();
      var v := virt / PAGE_SIZE;
      var t, e;
      ok, t, e := LeafTable(r, v);
      if !ok {
        return;
      }
      var n := share.Refs(e.frame);
      var l := Leaf(e.frame, wr && n <= 1, wr);
      ghost var was, now := Spaces(), ProtectPage(Spaces(), (r, v), wr);
      assert now == was.(leaf := was.leaf[(r, v) := l]);
      ProtectPageCorrect(was, (r, v), wr);
      PutLeaf(r, v, t, LeafWord(l));
      LeafWriteKeys(old(tables), tables, owner, r, v, t, LeafWord(l));
      assert Parts() && Spaces() == now;
    }

    // ----- frames and roots -----

    /** `alloc_page`: a zeroed frame held by the caller. */
    method AllocPage() returns (phys: nat)
      requires Valid()
      modifies this`mem, this`held, pool`freeCount, pool`free, pool.bits
      ensures Valid()
      ensures phys == 0 <==> old(pool.free) == {}
      ensures phys == 0 ==> Spaces() == old(Spaces()) && held == old(held) && pool.free == old(pool.free)
      ensures phys != 0 ==> phys % PAGE_SIZE == 0 && phys / PAGE_SIZE in old(pool.free)
      ensures phys != 0 ==> held == old(held) + {phys / PAGE_SIZE} && pool.free == old(pool.free) - {phys / PAGE_SIZE}
      ensures phys != 0 ==> Enabled(old(Spaces()), Fill(phys / PAGE_SIZE, ZeroPage()))
                            && Spaces() == Step(old(Spaces()), Fill(phys / PAGE_SIZE, ZeroPage()))
    {
      hide Inv, Tied, WellFormed, LeafFrames, ShareTable.Valid, FramePool.Valid, Partition;
      phys := AllocHigh();
      if phys == 0 {
        return;
      }
      var f := phys / FRAME_SIZE;
      NotALeaf(universe, old(pool.free), tables.Keys, leaf, held, f);
      Moved(universe, old(pool.free), tables.Keys, LeafFrames(leaf), held, f);
      FillCorrect(Spaces(), f, ZeroPage());
      mem := mem[f := ZeroPage()];
      held := held + {f};
    }

    /** `pmm_free` of a frame the caller holds. */
    method ReleaseHeld(f: nat)
      requires Valid() && f in held
      modifies this`held, pool`freeCount, pool`free, pool.bits
      ensures Valid()
      ensures held == old(held) - {f} && pool.free == old(pool.free) + {f}
    {
      hide Inv, Tied, WellFormed, LeafFrames, ShareTable.Valid, FramePool.Valid, Partition;
      Moved(universe, pool.free, tables.Keys, LeafFrames(leaf), held, f);
      pool.Release(f * FRAME_SIZE);
      held := held - {f};
    }

    /** `vmm_clone_pml4`: a root with the kernel half of the boot table and an empty user half. */
    method ClonePml4() returns (r: nat)
      requires Valid()
      modifies this`tables, this`owner, pool`freeCount, pool`free, pool.bits
      ensures Valid()
      ensures r == 0 <==> old(pool.free) == {}
      ensures r == 0 ==> tables == old(tables) && owner == old(owner) && pool.free == old(pool.free)
      ensures r != 0 ==> r in old(pool.free) && pool.free == old(pool.free) - {r}
      ensures r != 0 ==> r !in old(tables) && owner == old(owner)[r := Node(r, 4, 0)]
      ensures r != 0 ==> tables.Keys == old(tables).Keys + {r} && forall u <- old(tables) :: tables[u] == old(tables)[u]
      ensures r != 0 ==> NoPages(leaf, r, 0, USER_PAGES)
    {
      hide Inv, Tied, WellFormed, LeafFrames, ShareTable.Valid, FramePool.Valid, Partition;
      var phys := pool.Alloc();
      if phys == 0 {
        return 0;
      }
      r := phys / FRAME_SIZE;
      Moved(universe, old(pool.free), tables.Keys, LeafFrames(leaf), held, r);
      var page := seq(ENTRIES, i requires 0 <= i < ENTRIES => if i >= HHDM_INDEX then bootTable[i] else ZERO);
      NewRootRefines(tables, owner, leaf, r, page);
      tables := tables[r := page];
      assert tables.Keys == old(tables).Keys + {r};
      owner := owner[r := Node(r, 4, 0)];
    }

    /** `pmm_free` of a root that has been torn down. */
    method DropRoot(r: nat)
      requires Valid() && IsRoot(owner, r) && Bare(owner, r) && NoPages(leaf, r, 0, USER_PAGES)
      modifies this`tables, this`owner, pool`freeCount, pool`free, pool.bits
      ensures Valid()
      ensures tables == old(tables) - {r} && owner == old(owner) - {r} && pool.free == old(pool.free) + {r}
    {
      hide Inv, Tied, WellFormed, LeafFrames, ShareTable.Valid, FramePool.Valid, Partition;
      Moved(universe, pool.free, tables.Keys, LeafFrames(leaf), held, r);
      DropRootRefines(tables, owner, leaf, r);
      pool.Release(r * FRAME_SIZE);
      tables := tables - {r};
      assert tables.Keys == old(tables).Keys - {r};
      owner := owner - {r};
    }

    // ----- teardown -----

    /** Unlinks a table whose words are all zero and frees it. */
    method UnlinkTable(r: nat, v: nat, level: nat, t: nat, c: nat)
      requires Valid() && CanUnlink(tables, owner, r, v, level, t, c)
      modifies this`tables, this`owner, pool`freeCount, pool`free, pool.bits
      ensures Valid()
      ensures tables == Unlinked(old(tables), t, Index(v, level), c) && owner == old(owner) - {c}
      ensures OthersKept(old(tables), old(owner), tables, owner, r)
      ensures UpperKept(old(tables), old(owner), tables, owner, r, level)
    {
      hide Inv, Tied, WellFormed, LeafFrames, ShareTable.Valid, FramePool.Valid, Partition;
      hide Index, PathOf, Reach, TableAt, OthersKept, UpperKept;
      Moved(universe, pool.free, tables.Keys, LeafFrames(leaf), held, c);
      UnlinkRefines(tables, owner, leaf, r, v, level, t, c);
      UnlinkKeeps(tables, owner, r, level, t, Index(v, level), c);
      pool.Release(c * FRAME_SIZE);
      tables := Unlinked(tables, t, Index(v, level), c);
      assert tables.Keys == old(tables).Keys - {c};
      owner := owner - {c};
    }

    /** `vmm_table_clear`: no word is set. */
    method TableClear(t: nat) returns (clear: bool)
      requires t in tables && |tables[t]| == ENTRIES
      ensures clear <==> tables[t] == ZeroTable()
    {
      var i := 0;
      while i < ENTRIES
        invariant 0 <= i <= ENTRIES
        invariant forall j | 0 <= j < i :: tables[t][j] == ZERO
      {
        if tables[t][i] != ZERO {
          return false;
        }
        i := i + 1;
      }
      return true;
    }

    /** How many words of a table the teardown and copy loops visit: the user half of a root, all of the others. */
    static function Width(level: nat): nat {
      if level == 4 then HHDM_INDEX else ENTRIES
    }

    /**
     The body of the teardown loops for one word: its page is unmapped, or its table is torn down,
     unlinked and freed.  The word ends up zero.
     */
    method TeardownWord(r: nat, base: nat, level: nat, t: nat, i: nat)
      requires Valid() && HasTable(tables, owner, r, base, level, t) && base % Reach(level + 1) == 0 && i < Width(level)
      modifies this`tables, this`owner, this`leaf, share`counts, share.ents, pool`freeCount, pool`free, pool.bits
      ensures Valid()
      ensures Spaces() == UnmapRange(old(Spaces()), r, WordBase(base, level, i), WordBase(base, level, i + 1))
      ensures OthersKept(old(tables), old(owner), tables, owner, r) && UpperKept(old(tables), old(owner), tables, owner, r, level)
      ensures HasTable(tables, owner, r, base, level, t)
      ensures WordZeroed(old(tables), tables, t, i)
      decreases level, 0
    {
      hide Inv, Tied, LeafFrames, ShareTable.Valid, FramePool.Valid, Partition, Parts, OthersKept, UpperKept;
      hide Index, PathOf, Reach, TableAt, UnmapRange, WroteLeaf, WellFormed, CanUnlink;
      var v := WordBase(base, level, i);
      TableOfWord(tables, owner, leaf, r, base, level, t, i);
      ghost var s0 := Spaces();
      if tables[t][i] == ZERO {
        EmptyBelow(tables, owner, leaf, r, base, level, t, i);
        UnmapRangeEmpty(s0, r, v, WordBase(base, level, i + 1));
        KeptSelf(tables, owner, r, level);
      } else if level == 1 {
        UnmapRangeOne(s0, r, v);
        ClearLeaf(r, v, t);
        LeafWriteKeys(old(tables), tables, owner, r, v, t, ZERO);
        LeafWriteWord(old(tables), tables, owner, r, base, v, t, ZERO);
      } else {
        TeardownChild(r, base, level, t, i, v, tables[t][i].frame);
      }
    }

    /** The word links a table: that table is torn down, unlinked and freed. */
    method TeardownChild(r: nat, base: nat, level: nat, t: nat, i: nat, v: nat, c: nat)
      requires Valid() && 2 <= level && HasTable(tables, owner, r, base, level, t) && i < ENTRIES
      requires HasTable(tables, owner, r, v, level, t) && Index(v, level) == i
      requires HasTable(tables, owner, r, v, level - 1, c) && v % Reach(level) == 0
      modifies this`tables, this`owner, this`leaf, share`counts, share.ents, pool`freeCount, pool`free, pool.bits
      ensures Valid()
      ensures Spaces() == UnmapRange(old(Spaces()), r, v, v + Reach(level))
      ensures OthersKept(old(tables), old(owner), tables, owner, r) && UpperKept(old(tables), old(owner), tables, owner, r, level)
      ensures HasTable(tables, owner, r, base, level, t)
      ensures WordZeroed(old(tables), tables, t, i)
      decreases level - 1, 2
    {
      hide Inv, Tied, LeafFrames, ShareTable.Valid, FramePool.Valid, Partition, Parts, OthersKept, UpperKept;
      hide Index, PathOf, Reach, TableAt, UnmapRange, NodeOk, WordOk;
      ChildSpan(level);
      TeardownLevel(r, v, level - 1, c);
      ghost var t1, o1 := tables, owner;
      TableStays(old(tables), old(owner), t1, o1, r, base, level, t, level - 1);
      TableStays(old(tables), old(owner), t1, o1, r, v, level, t, level - 1);
      assert tables[c] == ZeroTable();
      var clear := TableClear(c);
      if clear {
        UnlinkTable(r, v, level, t, c);
        UpperKeptMore(old(tables), old(owner), t1, o1, r, level - 1, level);
        KeptTwice(old(tables), old(owner), t1, o1, tables, owner, r, level);
        UnlinkedWord(t1, o1, leaf, r, v, level, t, c);
        TableStays(t1, o1, tables, owner, r, base, level, t, level);
      }
    }

    /** One loop of `vmm_teardown_user`: every page below the table goes, and every table below it is freed. */
    method TeardownLevel(r: nat, base: nat, level: nat, t: nat)
      requires Valid() && HasTable(tables, owner, r, base, level, t) && base % Reach(level + 1) == 0
      modifies this`tables, this`owner, this`leaf, share`counts, share.ents, pool`freeCount, pool`free, pool.bits
      ensures Valid()
      ensures Spaces() == UnmapRange(old(Spaces()), r, base, WordBase(base, level, Width(level)))
      ensures OthersKept(old(tables), old(owner), tables, owner, r) && UpperKept(old(tables), old(owner), tables, owner, r, level)
      ensures HasTable(tables, owner, r, base, level, t)
      ensures t in tables && |tables[t]| == ENTRIES && forall j | 0 <= j < Width(level) :: tables[t][j] == ZERO
      decreases level, 1
    {
      hide Inv, Tied, LeafFrames, ShareTable.Valid, FramePool.Valid, Partition, Parts, OthersKept, UpperKept;
      hide Index, PathOf, Reach, TableAt, NodeOk, WordOk, UnmapRange;
      ghost var s0 := Spaces();
      TableOfWord(tables, owner, leaf, r, base, level, t, 0);
      KeptSelf(tables, owner, r, level);
      UnmapRangeNone(s0, r, base);
      var i := 0;
      while i < Width(level)
        invariant 0 <= i <= Width(level)
        invariant Valid()
        invariant Spaces() == UnmapRange(s0, r, base, WordBase(base, level, i))
        invariant OthersKept(old(tables), old(owner), tables, owner, r) && UpperKept(old(tables), old(owner), tables, owner, r, level)
        invariant HasTable(tables, owner, r, base, level, t)
        invariant t in tables && |tables[t]| == ENTRIES && forall j | 0 <= j < i :: tables[t][j] == ZERO
      {
        ghost var t1, o1 := tables, owner;
        UnmapRangeSplit(s0, r, base, WordBase(base, level, i), WordBase(base, level, i + 1));
        TeardownWord(r, base, level, t, i);
        KeptTwice(old(tables), old(owner), t1, o1, tables, owner, r, level);
        i := i + 1;
      }
    }

    /**
     `vmm_teardown_user`: the space has no pages left and no table but its root.  The frames that
     became free are exactly those tables and the pages that no other space maps.
     */
    method Teardown(r: nat)
      requires Valid() && IsRoot(owner, r)
      modifies this`tables, this`owner, this`leaf, share`counts, share.ents, pool`freeCount, pool`free, pool.bits
      ensures Valid() && IsRoot(owner, r) && Bare(owner, r)
      ensures Spaces() == UnmapRange(old(Spaces()), r, 0, USER_PAGES)
      ensures NoPages(leaf, r, 0, USER_PAGES)
      ensures OthersKept(old(tables), old(owner), tables, owner, r)
      ensures forall f :: f in tables <==> f in old(tables) && (old(owner)[f].root == r ==> f == r)
      ensures forall f :: f in pool.free <==>
                || f in old(pool.free)
                || (f in old(tables) && old(owner)[f].root == r && f != r)
                || (f in LeafFrames(old(leaf)) && f !in LeafFrames(leaf))
    {
      hide Inv, Tied, LeafFrames, ShareTable.Valid, FramePool.Valid, Parts, UpperKept;
      hide Index, PathOf, Reach, TableAt, NodeOk, WordOk, UnmapRange;
      RootWalk(tables, r, 0);
      RootSpan();
      TeardownLevel(r, 0, 4, r);
      EmptyRootIsBare(tables, owner, r);
      UnmapRangeLeaves(old(Spaces()), r, 0, USER_PAGES);
      FewerFrames(old(leaf), leaf);
    }

    // ----- fork -----

    /** Counts one more mapping of the frame and maps it in the child; takes the count back if that fails. */
    method MapShared(dst: nat, v: nat, ro: Leaf, ghost src: nat, ghost ways: set<Way>, ghost frames: set<nat>) returns (ok: bool)
      requires Valid() && src != dst && IsRoot(owner, src) && IsRoot(owner, dst) && v < USER_PAGES && (dst, v) !in leaf
      requires PageWays(v) <= ways && ro.frame in frames
      modifies this`tables, this`owner, this`leaf, share`counts, share.ents, pool`freeCount, pool`free, pool.bits
      ensures !ok ==> Valid() && leaf == old(leaf) && Starved(dst, ways, frames)
      ensures Grew(old(owner), owner, dst, ways) && share.counts.Keys <= old(share.counts).Keys + frames
      ensures ok ==> Parts() && Structure(tables, owner, leaf)
      ensures ok ==> Partition(universe, pool.free, tables.Keys, LeafFrames(old(leaf)), held)
      ensures ok ==> Spaces() == Flat(old(leaf)[(dst, v) := ro], Shared(old(share.counts), ro.frame), mem)
      ensures tables.Keys == owner.Keys && ForkKept(old(tables), old(owner), tables, owner, src, dst)
      ensures IsRoot(owner, src) && IsRoot(owner, dst)
    {
      hide Inv, Tied, LeafFrames, ShareTable.Valid, FramePool.Valid, Partition, WellFormed;
      hide OthersKept, UpperKept, ForkKept, HasTable, Grew, Present, PageWays;
      ghost var s0 := Spaces();
      GrewSelf(owner, dst, ways);
      ok := share.Share(ro.frame);
      if !ok {
        ForkKeptSelf(tables, owner, src, dst);
        return;
      }
      ok := MapUserFlags(dst, v, ro);
      OthersKeptForks(old(tables), old(owner), tables, owner, src, dst);
      GrewTwice(old(owner), old(owner), owner, dst, ways, PageWays(v), ways);
      if !ok {
        ShareUndone(s0, ro.frame);
        share.Unshare(ro.frame);
        assert Spaces() == s0.(shares := Unshared(Shared(s0.shares, ro.frame), ro.frame));
      }
    }

    /** The parent's word loses the write bit and keeps its intention. */
    method Demote(ghost dst: nat, src: nat, v: nat, t: nat, ro: Leaf)
      requires Parts() && Structure(tables, owner, leaf) && HasTable(tables, owner, src, v, 1, t)
      requires tables.Keys == owner.Keys && IsRoot(owner, src) && IsRoot(owner, dst)
      modifies this`tables, this`leaf
      ensures Parts() && Structure(tables, owner, leaf) && tables.Keys == old(tables).Keys
      ensures Spaces() == old(Spaces()).(leaf := old(leaf)[(src, v) := ro])
      ensures ForkKept(old(tables), owner, tables, owner, src, dst)
    {
      hide Structure, Parts, WroteLeaf, OthersKept, UpperKept, ForkKept, HasTable, IsRoot;
      PutLeaf(src, v, t, LeafWord(ro));
      LeafWriteKeys(old(tables), tables, owner, src, v, t, LeafWord(ro));
      LeafWriteForks(old(tables), tables, owner, src, dst, v, t, LeafWord(ro));
    }

    /** The innermost body of `vmm_copy_user`: one page is shared, or nothing is mapped. */
    method ShareLeaf(dst: nat, src: nat, v: nat, t: nat, ghost ways: set<Way>, ghost frames: set<nat>) returns (ok: bool)
      requires Valid() && src != dst && IsRoot(owner, dst) && HasTable(tables, owner, src, v, 1, t)
      requires (src, v) in leaf && (dst, v) !in leaf && Covers(leaf, src, ways, frames)
      modifies this`tables, this`owner, this`leaf, share`counts, share.ents, pool`freeCount, pool`free, pool.bits
      ensures Valid()
      ensures ok ==> Spaces() == SharePage(old(Spaces()), src, dst, v)
      ensures !ok ==> leaf == old(leaf) && Starved(dst, ways, frames)
      ensures Grew(old(owner), owner, dst, ways) && share.counts.Keys <= old(share.counts).Keys + frames
      ensures ForkKept(old(tables), old(owner), tables, owner, src, dst)
    {
      hide Inv, Tied, LeafFrames, ShareTable.Valid, FramePool.Valid, Partition, WroteLeaf, WellFormed;
      hide OthersKept, UpperKept, Index, TableAt, ForkKept, Parts, HasTable, IsRoot, View, Grew, Starved, PageWays;
      PartsValid();
      ghost var s0 := Spaces();
      assert PageWays((src, v).1) <= ways && leaf[(src, v)].frame in frames;
      LeafWordOf(tables, owner, leaf, src, v, t);
      var e := tables[t][Index(v, 1)];
      SharePageCorrect(s0, src, dst, v);
      TableHasRoot(tables, owner, src, v, 1, t);
      var ro := Leaf(e.frame, false, e.write || e.want);
      ok := MapShared(dst, v, ro, src, ways, frames);
      if !ok {
        return;
      }
      ghost var t1 := tables;
      ForkKeepsTable(old(tables), old(owner), tables, owner, src, dst, v, 1, t);
      Demote(dst, src, v, t, ro);
      ForkKeptTwice(old(tables), old(owner), t1, owner, tables, owner, src, dst);
      assert Spaces() == SharePage(s0, src, dst, v);
      assert Inv(Spaces());
      assert LeafFrames(leaf) == LeafFrames(s0.leaf);
      assert Sound();
    }

    /** The body of the copy loops for one word; `upto` says how far a failed copy got. */
    method CopyWord(dst: nat, src: nat, base: nat, level: nat, t: nat, i: nat, ghost ways: set<Way>, ghost frames: set<nat>)
      returns (ok: bool, ghost upto: nat)
      requires Valid() && src != dst && IsRoot(owner, dst) && HasTable(tables, owner, src, base, level, t)
      requires base % Reach(level + 1) == 0 && i < Width(level) && NoPages(leaf, dst, WordBase(base, level, i), USER_PAGES)
      requires Covers(leaf, src, ways, frames)
      modifies this`tables, this`owner, this`leaf, share`counts, share.ents, pool`freeCount, pool`free, pool.bits
      ensures Valid()
      ensures ok ==> upto == WordBase(base, level, i + 1)
      ensures ok ==> Spaces() == ForkRange(old(Spaces()), src, dst, WordBase(base, level, i), upto)
      ensures !ok ==> Starved(dst, ways, frames)
      ensures Grew(old(owner), owner, dst, ways) && share.counts.Keys <= old(share.counts).Keys + frames
      ensures WordBase(base, level, i) <= upto <= WordBase(base, level, i + 1)
      ensures leaf == ForkRange(old(Spaces()), src, dst, WordBase(base, level, i), upto).leaf
      ensures NoPages(leaf, dst, upto, USER_PAGES)
      ensures ForkKept(old(tables), old(owner), tables, owner, src, dst)
      decreases level, 0
    {
      hide Inv, Tied, LeafFrames, ShareTable.Valid, FramePool.Valid, Partition, Parts, WellFormed, ForkKept;
      hide Index, PathOf, Reach, TableAt, ForkRange, WordBase, Grew, Starved, Covers;
      GrewSelf(owner, dst, ways);
      var v := WordBase(base, level, i);
      TableOfWord(tables, owner, leaf, src, base, level, t, i);
      ghost var s0 := Spaces();
      upto := WordBase(base, level, i + 1);
      WordsAscend(base, level, i, i + 1);
      if tables[t][i] == ZERO {
        EmptyBelow(tables, owner, leaf, src, base, level, t, i);
        ForkRangeEmpty(s0, src, dst, v, upto);
        TableHasRoot(tables, owner, src, base, level, t);
        ForkKeptSelf(tables, owner, src, dst);
        ok := true;
      } else if level == 1 {
        LeafWordSpan(base, i);
        ForkRangeOne(s0, src, dst, v);
        ok := ShareLeaf(dst, src, v, t, ways, frames);
        if !ok {
          upto := v;
        }
      } else {
        ChildWordSpan(base, level, i);
        ok, upto := CopyLevel(dst, src, v, level - 1, tables[t][i].frame, ways, frames);
      }
      ForkRangeLeaves(s0, src, dst, v, upto);
    }

    /** One loop of `vmm_copy_user`. */
    method CopyLevel(dst: nat, src: nat, base: nat, level: nat, t: nat, ghost ways: set<Way>, ghost frames: set<nat>)
      returns (ok: bool, ghost upto: nat)
      requires Valid() && src != dst && IsRoot(owner, dst) && HasTable(tables, owner, src, base, level, t)
      requires base % Reach(level + 1) == 0 && NoPages(leaf, dst, base, USER_PAGES) && Covers(leaf, src, ways, frames)
      modifies this`tables, this`owner, this`leaf, share`counts, share.ents, pool`freeCount, pool`free, pool.bits
      ensures Valid()
      ensures ok ==> upto == WordBase(base, level, Width(level))
      ensures ok ==> Spaces() == ForkRange(old(Spaces()), src, dst, base, upto)
      ensures !ok ==> Starved(dst, ways, frames)
      ensures Grew(old(owner), owner, dst, ways) && share.counts.Keys <= old(share.counts).Keys + frames
      ensures base <= upto <= WordBase(base, level, Width(level))
      ensures leaf == ForkRange(old(Spaces()), src, dst, base, upto).leaf
      ensures NoPages(leaf, dst, upto, USER_PAGES)
      ensures ForkKept(old(tables), old(owner), tables, owner, src, dst)
      decreases level, 1
    {
      hide Inv, Tied, LeafFrames, ShareTable.Valid, FramePool.Valid, Partition, Parts, ForkKept;
      hide Index, PathOf, Reach, TableAt, ForkRange, NodeOk, WordOk, Grew, Starved, Covers;
      ghost var s0 := Spaces();
      GrewSelf(owner, dst, ways);
      TableHasRoot(tables, owner, src, base, level, t);
      ForkKeptSelf(tables, owner, src, dst);
      ForkRangeNone(s0, src, dst, base);
      ok, upto := true, base;
      var i := 0;
      while i < Width(level)
        invariant 0 <= i <= Width(level)
        invariant Valid() && upto == WordBase(base, level, i)
        invariant Spaces() == ForkRange(s0, src, dst, base, upto)
        invariant NoPages(leaf, dst, upto, USER_PAGES)
        invariant ForkKept(old(tables), old(owner), tables, owner, src, dst) && IsRoot(owner, dst)
        invariant HasTable(tables, owner, src, base, level, t)
        invariant Grew(old(owner), owner, dst, ways) && share.counts.Keys <= s0.shares.Keys + frames
      {
        ghost var t1, o1, lo := tables, owner, upto;
        ForkCovers(s0, src, dst, base, lo, ways, frames);
        ok, upto := CopyWord(dst, src, base, level, t, i, ways, frames);
        GrewTwice(old(owner), o1, owner, dst, ways, ways, ways);
        ForkRangeSplit(s0, src, dst, base, lo, upto);
        ForkKeptTwice(old(tables), old(owner), t1, o1, tables, owner, src, dst);
        WordsAscend(base, level, i, Width(level));
        if !ok {
          return;
        }
        ForkKeepsTable(t1, o1, tables, owner, src, dst, base, level, t);
        ForkKeepsRoot(t1, o1, tables, owner, src, dst);
        i := i + 1;
      }
    }

    /**
     `vmm_copy_user`: on success the child has every page of the parent, shared read-only.  On
     failure it has the pages below `upto`; tearing it down is the caller's business.
     */
    method CopyUser(dst: nat, src: nat) returns (ok: bool, ghost upto: nat)
      requires Valid() && src != dst && IsRoot(owner, dst) && IsRoot(owner, src) && NoPages(leaf, dst, 0, USER_PAGES)
      modifies this`tables, this`owner, this`leaf, share`counts, share.ents, pool`freeCount, pool`free, pool.bits
      ensures Valid()
      ensures ok ==> Spaces() == ForkRange(old(Spaces()), src, dst, 0, USER_PAGES)
      ensures Bare(old(owner), dst) ==> (ok <==> ForkFits(old(leaf), old(share.counts), src, |old(pool.free)|))
      ensures upto <= USER_PAGES && leaf == ForkRange(old(Spaces()), src, dst, 0, upto).leaf
      ensures ForkKept(old(tables), old(owner), tables, owner, src, dst)
    {
      hide Inv, Tied, LeafFrames, ShareTable.Valid, FramePool.Valid, Partition, Parts, WellFormed, ForkKept;
      hide Index, PathOf, Reach, TableAt, ForkRange, WordBase, Grew, Starved, Covers, Bare, Ways, FramesOf, ForkFits;
      RootWalk(tables, src, 0);
      RootSpan();
      ghost var s0, ways, frames := Spaces(), Ways(leaf, src), FramesOf(leaf, src);
      TiedPages(tables, owner, leaf);
      CoversItself(leaf, src);
      ok, upto := CopyLevel(dst, src, 0, 4, src, ways, frames);
      if Bare(old(owner), dst) {
        Verdict(s0, old(owner), old(pool.free), src, dst, ok, upto);
      }
    }

    /** A fork into a bare space succeeds exactly when it fits. */
    lemma Verdict(s0: Flat, o0: map<nat, Node>, free: set<nat>, src: nat, dst: nat, ok: bool, upto: nat)
      requires Valid() && src != dst && Bare(o0, dst) && IsRoot(o0, dst) && NoPages(s0.leaf, dst, 0, USER_PAGES)
      requires Partition(universe, free, o0.Keys, LeafFrames(s0.leaf), held) && leaf == ForkRange(s0, src, dst, 0, upto).leaf
      requires forall k <- s0.leaf :: k.1 < USER_PAGES
      requires Grew(o0, owner, dst, Ways(s0.leaf, src)) && share.counts.Keys <= s0.shares.Keys + FramesOf(s0.leaf, src)
      requires if ok then Spaces() == ForkRange(s0, src, dst, 0, USER_PAGES) else Starved(dst, Ways(s0.leaf, src), FramesOf(s0.leaf, src))
      ensures ok <==> ForkFits(s0.leaf, s0.shares, src, |free|)
    {
      hide Inv, Tied, WellFormed, Grew, Ways, FramesOf, Present, Bare, Partition, ForkRange, NoPages, LeafFrames;
      var ways, frames := Ways(s0.leaf, src), FramesOf(s0.leaf, src);
      ForkedFrames(s0, src, dst, upto);
      WaysAreLow(s0.leaf, src);
      BareLacks(o0, dst, ways);
      Counted(universe, free, o0, pool.free, tables, owner, LeafFrames(s0.leaf), held, dst, ways);
      if ok {
        ForkedAll(s0, tables, owner, src, dst);
        share.Bounded();
        Within(frames + s0.shares.Keys, share.counts);
      } else if |share.counts| == COW_MAX && !(frames <= share.counts.Keys) {
        Beyond(frames, s0.shares.Keys, share.counts);
      }
    }
  }

  lemma TiedPages(tables: Tables, owner: map<nat, Node>, leaf: map<Key, Leaf>)
    requires Structure(tables, owner, leaf)
    ensures forall k <- leaf :: k.1 < USER_PAGES
  {
  }

  lemma WaysAreLow(leaf: map<Key, Leaf>, src: nat)
    ensures forall w <- Ways(leaf, src) :: w.level < 4
  {
  }

  /** The word that the walk to the next level reads is zero. */
  ghost predicate CanLinkAt(tables: Tables, owner: map<nat, Node>, r: nat, v: nat, level: nat, t: nat) {
    && WellFormed(tables, owner) && IsRoot(owner, r) && v < USER_PAGES && 2 <= level <= 4
    && TableAt(tables, r, v, level) == Some(t) && t in tables && |tables[t]| == ENTRIES
    && tables[t][Index(v, level)] == ZERO
  }

  lemma CanLinkWord(tables: Tables, owner: map<nat, Node>, r: nat, v: nat, level: nat, t: nat)
    requires CanLinkAt(tables, owner, r, v, level, t)
    ensures t in tables && |tables[t]| == ENTRIES
  {
  }

  lemma CanLinkThis(tables: Tables, owner: map<nat, Node>, r: nat, v: nat, level: nat, t: nat, c: nat)
    requires CanLinkAt(tables, owner, r, v, level, t) && c !in tables
    ensures CanLink(tables, owner, r, v, level, t, c)
  {
  }

  lemma LinkedKeys(tables: Tables, t: nat, i: nat, c: nat)
    requires t in tables && i < |tables[t]|
    ensures Linked(tables, t, i, c).Keys == tables.Keys + {c}
  {
  }

  /** Enough frames for the tables of the child, and entries for the frames that become shared. */
  ghost predicate ForkFits(leaf: map<Key, Leaf>, counts: map<nat, nat>, src: nat, free: nat) {
    |Ways(leaf, src)| <= free && |FramesOf(leaf, src) + counts.Keys| <= COW_MAX
  }

  lemma ForkedFrames(s: Flat, src: nat, dst: nat, upto: nat)
    requires src != dst && NoPages(s.leaf, dst, 0, USER_PAGES) && forall k <- s.leaf :: k.1 < USER_PAGES
    ensures LeafFrames(ForkRange(s, src, dst, 0, upto).leaf) == LeafFrames(s.leaf)
  {
    hide ForkRange;
    ForkRangeKeys(s, src, dst, upto);
    ForkRangeLeaves(s, src, dst, 0, upto);
    var t := ForkRange(s, src, dst, 0, upto);
    forall f | f in LeafFrames(s.leaf) ensures f in LeafFrames(t.leaf) {
      var k :| k in s.leaf && s.leaf[k].frame == f;
      assert k.0 != dst;
    }
  }

  /** A complete fork has every table that the parent's pages need, and counts every frame of theirs. */
  lemma ForkedAll(s: Flat, tables: Tables, owner: map<nat, Node>, src: nat, dst: nat)
    requires src != dst && Structure(tables, owner, ForkRange(s, src, dst, 0, USER_PAGES).leaf) && forall k <- s.leaf :: k.1 < USER_PAGES
    ensures Ways(s.leaf, src) <= Present(owner, dst)
    ensures FramesOf(s.leaf, src) + s.shares.Keys <= ForkRange(s, src, dst, 0, USER_PAGES).shares.Keys
  {
    hide ForkRange, PageWays, Present, Structure;
    var t := ForkRange(s, src, dst, 0, USER_PAGES);
    ForkRangeKeys(s, src, dst, USER_PAGES);
    forall w <- Ways(s.leaf, src) ensures w in Present(owner, dst) {
      var k :| k in s.leaf && k.0 == src && w in PageWays(k.1);
      MappedHasWays(tables, owner, t.leaf, dst, k.1);
    }
  }

  lemma Within(keys: set<nat>, counts: map<nat, nat>)
    requires keys <= counts.Keys && |counts| <= COW_MAX
    ensures |keys| <= COW_MAX
  {
    Subset(keys, counts.Keys);
    assert |counts.Keys| == |counts|;
  }

  lemma Beyond(frames: set<nat>, was: set<nat>, counts: map<nat, nat>)
    requires counts.Keys <= was + frames && !(frames <= counts.Keys) && |counts| == COW_MAX
    ensures |frames + was| > COW_MAX
  {
    var f :| f in frames && f !in counts.Keys;
    Subset(counts.Keys + {f}, frames + was);
    assert |counts.Keys| == |counts|;
  }

  lemma {:induction false} Subset<T>(a: set<T>, b: set<T>)
    requires a <= b
    ensures |a| <= |b| && (a != b ==> |a| < |b|)
  {
    assert b == a + (b - a);
    assert |b| == |a| + |b - a|;
    assert a != b ==> b - a != {};
  }

  /** Tables with different nodes are different: a new table per place. */
  lemma {:induction false} NewPlaces(tables: Tables, owner: map<nat, Node>, dst: nat, us: set<nat>) returns (ws: set<Way>)
    requires WellFormed(tables, owner) && us <= owner.Keys && forall u <- us :: owner[u].root == dst
    ensures |ws| == |us| && forall w :: w in ws <==> exists u :: u in us && Way(owner[u].level, owner[u].path) == w
    decreases us
  {
    hide WellFormed;
    if us == {} {
      ws := {};
    } else {
      var u :| u in us;
      var rest := NewPlaces(tables, owner, dst, us - {u});
      var w := Way(owner[u].level, owner[u].path);
      if w in rest {
        var x :| x in us - {u} && Way(owner[x].level, owner[x].path) == w;
        NodeUnique(tables, owner, u, x);
        assert false;
      }
      ws := rest + {w};
    }
  }

  /** The frames that were taken are the tables that were made, one for each place that lacked one. */
  lemma Counted(universe: set<nat>, free: set<nat>, o0: map<nat, Node>, free': set<nat>, tables: Tables, owner: map<nat, Node>,
                pages: set<nat>, held: set<nat>, r: nat, ways: set<Way>)
    requires Partition(universe, free, o0.Keys, pages, held) && Partition(universe, free', tables.Keys, pages, held)
    requires WellFormed(tables, owner) && Grew(o0, owner, r, ways)
    ensures ways <= Present(owner, r) ==> |ways - Present(o0, r)| == |free| - |free'|
    ensures !(ways <= Present(owner, r)) && free' == {} ==> |ways - Present(o0, r)| > |free|
  {
    hide WellFormed, Present, Partition, Grew;
    var us := set u | u in owner && u !in o0;
    GrewKeys(o0, owner, r, ways);
    var ws := NewPlaces(tables, owner, r, us);
    assert owner.Keys == o0.Keys + us;
    assert tables.Keys == owner.Keys by { SameKeys(tables, owner); }
    TookTables(universe, free, o0.Keys, free', tables.Keys, pages, held, us);
    var lacked := ways - Present(o0, r);
    forall w ensures w in ws <==> w in lacked && w in Present(owner, r) {
      OnlyNew(tables, o0, owner, r, us, w, ways);
    }
    assert ws <= lacked;
    Subset(ws, lacked);
    if ways <= Present(owner, r) {
      assert ws == lacked;
    } else {
      var w :| w in ways && w !in Present(owner, r);
      assert w !in Present(o0, r) by {
        if w in Present(o0, r) {
          PresentStays(o0, owner, r, ways, w);
        }
      }
      assert w in lacked && w !in ws;
    }
  }

  lemma GrewKeys(o0: map<nat, Node>, owner: map<nat, Node>, r: nat, ways: set<Way>)
    requires Grew(o0, owner, r, ways)
    ensures o0.Keys <= owner.Keys && forall u <- owner | u !in o0 :: owner[u].root == r
  {
  }

  lemma PresentStays(o0: map<nat, Node>, owner: map<nat, Node>, r: nat, ways: set<Way>, w: Way)
    requires Grew(o0, owner, r, ways) && w in Present(o0, r)
    ensures w in Present(owner, r)
  {
    var u :| u in o0 && o0[u].root == r && Way(o0[u].level, o0[u].path) == w;
    assert u in owner && owner[u] == o0[u];
  }

  lemma SameKeys(tables: Tables, owner: map<nat, Node>)
    requires WellFormed(tables, owner)
    ensures tables.Keys == owner.Keys
  {
  }

  /** The places of new tables are those of these places that were lacking and are not any more. */
  lemma OnlyNew(tables: Tables, o0: map<nat, Node>, owner: map<nat, Node>, r: nat, us: set<nat>, w: Way, ways: set<Way>)
    requires WellFormed(tables, owner) && Grew(o0, owner, r, ways) && us == set u | u in owner && u !in o0
    ensures (exists u :: u in us && Way(owner[u].level, owner[u].path) == w) <==>
            w in ways && w !in Present(o0, r) && w in Present(owner, r)
  {
    hide WellFormed;
    if u :| u in us && Way(owner[u].level, owner[u].path) == w {
      forall x | x in o0 && o0[x].root == r && Way(o0[x].level, o0[x].path) == w ensures false {
        assert owner[x] == o0[x] == owner[u];
        NodeUnique(tables, owner, x, u);
      }
    }
  }

  lemma BareLacks(owner: map<nat, Node>, r: nat, ways: set<Way>)
    requires Bare(owner, r) && IsRoot(owner, r) && forall w <- ways :: w.level < 4
    ensures ways - Present(owner, r) == ways
  {
  }

  lemma TookTables(universe: set<nat>, free: set<nat>, tables: set<nat>, free': set<nat>, tables': set<nat>, pages: set<nat>, held: set<nat>, us: set<nat>)
    requires Partition(universe, free, tables, pages, held) && Partition(universe, free', tables', pages, held)
    requires tables' == tables + us && tables !! us
    ensures |free| == |free'| + |us|
  {
    assert free == free' + us;
  }

  lemma ForkRangeNone(s: Flat, src: nat, dst: nat, v: nat)
    ensures ForkRange(s, src, dst, v, v) == s
  {
  }

  lemma ForkRangeOne(s: Flat, src: nat, dst: nat, v: nat)
    ensures ForkRange(s, src, dst, v, v + 1) == SharePage(s, src, dst, v)
    ensures ForkRange(s, src, dst, v, v) == s
  {
  }

  lemma LeafWordSpan(base: nat, i: nat)
    ensures WordBase(base, 1, i) == base + i && WordBase(base, 1, i + 1) == WordBase(base, 1, i) + 1
  {
  }

  lemma ChildWordSpan(base: nat, level: nat, i: nat)
    requires 2 <= level <= 4
    ensures WordBase(WordBase(base, level, i), level - 1, Vmm.Width(level - 1)) == WordBase(base, level, i + 1)
  {
  }

  lemma WordsAscend(base: nat, level: nat, i: nat, n: nat)
    requires 1 <= level <= 4 && i < n
    ensures WordBase(base, level, 0) == base <= WordBase(base, level, i) <= WordBase(base, level, i + 1) <= WordBase(base, level, n)
  {
  }

  lemma ForkKeepsRoot(tables: Tables, owner: map<nat, Node>, tables': Tables, owner': map<nat, Node>, src: nat, dst: nat)
    requires tables.Keys == owner.Keys && tables'.Keys == owner'.Keys && ForkKept(tables, owner, tables', owner', src, dst)
    ensures IsRoot(owner', src) && IsRoot(owner', dst)
  {
  }

  lemma TableHasRoot(tables: Tables, owner: map<nat, Node>, r: nat, v: nat, level: nat, t: nat)
    requires HasTable(tables, owner, r, v, level, t)
    ensures IsRoot(owner, r) && v < USER_PAGES
  {
  }

  lemma ForkKeptSelf(tables: Tables, owner: map<nat, Node>, src: nat, dst: nat)
    requires tables.Keys == owner.Keys && IsRoot(owner, src) && IsRoot(owner, dst)
    ensures ForkKept(tables, owner, tables, owner, src, dst)
  {
  }

  lemma OthersKeptForks(tables: Tables, owner: map<nat, Node>, tables': Tables, owner': map<nat, Node>, src: nat, dst: nat)
    requires tables.Keys == owner.Keys && tables'.Keys == owner'.Keys && src != dst
    requires IsRoot(owner, src) && IsRoot(owner', dst) && OthersKept(tables, owner, tables', owner', dst)
    ensures ForkKept(tables, owner, tables', owner', src, dst) && IsRoot(owner', src)
  {
  }

  lemma LeafWriteForks(tables: Tables, tables': Tables, owner: map<nat, Node>, src: nat, dst: nat, v: nat, t: nat, e: Entry)
    requires tables.Keys == owner.Keys && WroteLeaf(tables, tables', owner, src, v, t, e) && tables'.Keys == owner.Keys
    requires IsRoot(owner, src) && IsRoot(owner, dst)
    ensures ForkKept(tables, owner, tables', owner, src, dst)
  {
    hide Index, WalksKept;
  }

  /** `cow_unshare` after `cow_share_frame`: at most an entry that counted one is lost. */
  lemma ShareUndone(s: Flat, f: nat)
    requires Inv(s)
    ensures Inv(s.(shares := Unshared(Shared(s.shares, f), f)))
  {
    var n := Unshared(Shared(s.shares, f), f);
    assert f in s.shares ==> Listed(s.leaf, s.shares, f);
    if Count(s.shares, f) <= 1 {
      ClearCounts(s.leaf, s.shares, f);
      assert n == s.shares - {f};
    } else {
      assert n == s.shares;
    }
  }

  lemma RootSpan()
    ensures 0 % Reach(5) == 0 && WordBase(0, 4, Vmm.Width(4)) == USER_PAGES
  {
  }

  lemma FewerFrames(leaf: map<Key, Leaf>, leaf': map<Key, Leaf>)
    requires forall k <- leaf' :: k in leaf && leaf'[k] == leaf[k]
    ensures LeafFrames(leaf') <= LeafFrames(leaf)
  {
  }

  lemma ChildSpan(level: nat)
    requires 2 <= level <= 4
    ensures Vmm.Width(level - 1) == ENTRIES && ENTRIES * Reach(level - 1) == Reach(level)
  {
  }

  lemma UnlinkedWord(tables: Tables, owner: map<nat, Node>, leaf: map<Key, Leaf>, r: nat, v: nat, level: nat, t: nat, c: nat)
    requires CanUnlink(tables, owner, r, v, level, t, c)
    ensures WordZeroed(tables, Unlinked(tables, t, Index(v, level), c), t, Index(v, level))
    ensures IsRoot(owner - {c}, r)
  {
    hide Index, PathOf, Reach;
    UnlinkChild(tables, owner, r, v, level, t, c);
  }

  lemma UnlinkKeeps(tables: Tables, owner: map<nat, Node>, r: nat, level: nat, t: nat, i: nat, c: nat)
    requires tables.Keys == owner.Keys && t in tables && c in tables && i < |tables[t]|
    requires owner[t].root == r && owner[t].level == level && owner[c].root == r && owner[c].level <= level
    ensures OthersKept(tables, owner, Unlinked(tables, t, i, c), owner - {c}, r)
    ensures UpperKept(tables, owner, Unlinked(tables, t, i, c), owner - {c}, r, level)
  {
  }

  lemma KeptSelf(tables: Tables, owner: map<nat, Node>, r: nat, level: nat)
    requires tables.Keys == owner.Keys
    ensures OthersKept(tables, owner, tables, owner, r) && UpperKept(tables, owner, tables, owner, r, level)
  {
  }

  lemma UnmapRangeNone(s: Flat, r: nat, v: nat)
    ensures UnmapRange(s, r, v, v) == s
  {
  }

  lemma UnmapRangeOne(s: Flat, r: nat, v: nat)
    ensures UnmapRange(s, r, v, v + 1) == UnmapPage(s, (r, v))
  {
  }

  /** What a nonzero word of a table says about the pages below it. */
  lemma TableOfWord(tables: Tables, owner: map<nat, Node>, leaf: map<Key, Leaf>, r: nat, base: nat, level: nat, t: nat, i: nat)
    requires Structure(tables, owner, leaf) && HasTable(tables, owner, r, base, level, t)
    requires base % Reach(level + 1) == 0 && i < Vmm.Width(level)
    ensures t in tables && |tables[t]| == ENTRIES && owner[t].root == r && owner[t].level == level
    ensures WordBase(base, level, i + 1) <= USER_PAGES && WordBase(base, level, i) < USER_PAGES
    ensures HasTable(tables, owner, r, WordBase(base, level, i), level, t) && Index(WordBase(base, level, i), level) == i
    ensures (WordBase(base, level, i)) % Reach(level) == 0
    ensures level == 1 ==> Reach(level) == 1 && ((r, base + i) in leaf <==> tables[t][i] != ZERO)
    ensures level > 1 && tables[t][i] != ZERO ==>
              HasTable(tables, owner, r, WordBase(base, level, i), level - 1, tables[t][i].frame)
  {
    hide Index, PathOf;
    WalkNode(tables, owner, r, base, level);
    assert NodeOk(tables, owner, t) && WordOk(tables, owner, t, i);
    var v := WordBase(base, level, i);
    WordSpan(base, level, i);
    ChildPage(base, level, i, v);
    SubTable(tables, owner, r, base, level, t, i, v);
    if level == 1 {
      LeafWordOf(tables, owner, leaf, r, v, t);
    }
  }

  lemma WordSpan(base: nat, level: nat, i: nat)
    requires 1 <= level <= 4 && base % Reach(level + 1) == 0 && base < USER_PAGES && i < Vmm.Width(level)
    ensures WordBase(base, level, i + 1) <= USER_PAGES && WordBase(base, level, i) < WordBase(base, level, i + 1)
  {
    TableSpan(base, level);
  }

  lemma LeafWriteWord(tables: Tables, tables': Tables, owner: map<nat, Node>, r: nat, base: nat, v: nat, t: nat, e: Entry)
    requires WroteLeaf(tables, tables', owner, r, v, t, e) && HasTable(tables, owner, r, base, 1, t)
    ensures t in tables && t in tables' && |tables[t]| == |tables'[t]| == ENTRIES && tables'[t] == tables[t][Index(v, 1) := e]
    ensures HasTable(tables', owner, r, base, 1, t)
  {
    hide Index;
  }

  function ZeroPage(): (d: PageData)
    ensures |d| == PAGE_SIZE && forall i | 0 <= i < PAGE_SIZE :: d[i] == 0
  {
    seq(PAGE_SIZE, _ => 0)
  }

  lemma MappedIsBacked(s: Flat, k: Key)
    requires Inv(s) && k in s.leaf
    ensures Backed(s.mem, s.leaf[k].frame)
  {
  }

  lemma OthersKeptSelf(tables: Tables, owner: map<nat, Node>, r: nat)
    requires tables.Keys == owner.Keys
    ensures OthersKept(tables, owner, tables, owner, r)
  {
  }

  /** A leaf word that is written over leaves a frame that nobody has, or a count that is one too high. */
  lemma Overmapped(universe: set<nat>, free: set<nat>, tables: set<nat>, s: Flat, held: set<nat>, k: Key, l: Leaf)
    requires Inv(s) && k in s.leaf && l.frame in held && Partition(universe, free, tables, LeafFrames(s.leaf), held)
    ensures !(Partition(universe, free, tables, LeafFrames(s.leaf[k := l]), held - {l.frame}) && Inv(s.(leaf := s.leaf[k := l])))
  {
    var leaf', f := s.leaf[k := l], s.leaf[k].frame;
    assert f in LeafFrames(s.leaf);
    if x :| x in s.leaf && s.leaf[x].frame == f && x != k {
      RefsAfterSet(s.leaf, k, l, f);
      assert CountExact(s.leaf, s.shares, x);
      assert !CountExact(leaf', s.shares, x);
    } else {
      assert f !in LeafFrames(leaf');
    }
  }

  lemma FilledIs(s: Flat, f: nat, d: PageData)
    requires Inv(s) && Enabled(s, Fill(f, d))
    ensures Step(s, Fill(f, d)) == s.(mem := s.mem[f := d]) && |d| == PAGE_SIZE
  {
  }

  lemma NotALeaf(universe: set<nat>, free: set<nat>, tables: set<nat>, leaf: map<Key, Leaf>, held: set<nat>, f: nat)
    requires Partition(universe, free, tables, LeafFrames(leaf), held) && f in held + free + tables
    ensures f !in LeafFrames(leaf)
  {
  }

  /** The word at the end of a complete walk is the leaf of the flat map, or zero. */
  lemma LeafWordOf(tables: Tables, owner: map<nat, Node>, leaf: map<Key, Leaf>, r: nat, v: nat, t: nat)
    requires Structure(tables, owner, leaf) && HasTable(tables, owner, r, v, 1, t)
    ensures t in tables && |tables[t]| == ENTRIES && owner[t].root == r && owner[t].level == 1
    ensures tables[t][Index(v, 1)] == if (r, v) in leaf then LeafWord(leaf[(r, v)]) else ZERO
  {
    hide Index, PathOf, Reach;
    WalkNode(tables, owner, r, v, 1);
    assert NodeOk(tables, owner, t);
    assert Shows(tables, leaf, r, v);
  }

  lemma NothingMapped(free: set<nat>)
    ensures Structure(map[], map[], map[])
    ensures Partition(free, free, {}, LeafFrames(map[]), {})
    ensures Inv(Flat(map[], map[], map[]))
  {
  }

  lemma RootWalk(tables: Tables, r: nat, v: nat)
    ensures TableAt(tables, r, v, 4) == Some(r)
  {
  }

  lemma LeafWriteKeys(tables: Tables, tables': Tables, owner: map<nat, Node>, r: nat, v: nat, t: nat, e: Entry)
    requires tables.Keys == owner.Keys && WroteLeaf(tables, tables', owner, r, v, t, e)
    ensures tables'.Keys == tables.Keys
    ensures OthersKept(tables, owner, tables', owner, r) && UpperKept(tables, owner, tables', owner, r, 1)
  {
    hide Index, WalksKept;
  }

  lemma LeafFrameOf(leaf: map<Key, Leaf>, k: Key)
    requires k in leaf
    ensures leaf[k].frame in LeafFrames(leaf)
  {
  }
}
