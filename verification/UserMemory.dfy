/**
 The memory side of the system calls in `kernel/user.c`: user stores with their write faults, the
 kernel writing into user pages, and fork with its roll-back.  Their effects are stated on what the
 address spaces read, as if no page were ever shared.
 */
module UserMemory {
  import opened Bytes
  import opened CopyOnWrite
  import opened PageTables
  import opened Mappings
  import opened Forks
  import opened FramePools
  import opened ShareTables
  import opened VirtualMemory

  /** A store of the user program at `virt`, with the fault it may take. */
  method StoreByte(vm: Vmm, r: nat, virt: nat, b: Byte) returns (ok: bool)
    requires vm.Valid() && IsRoot(vm.owner, r) && virt / PAGE_SIZE < USER_PAGES
    modifies vm`tables, vm`leaf, vm`mem, vm.share`counts, vm.share.ents, vm.pool`freeCount, vm.pool`free, vm.pool.bits
    ensures vm.Valid()
    ensures View(vm.Spaces()) == if ok then EagerStore(old(View(vm.Spaces())), (r, virt / PAGE_SIZE), virt % PAGE_SIZE, b)
                                 else old(View(vm.Spaces()))
    ensures var k := (r, virt / PAGE_SIZE); var e := old(View(vm.Spaces()));
      && (ok ==> k in e && e[k].writable)
      && (!ok && k in e && e[k].writable ==> old(vm.pool.free) == {})
    ensures StoredAt(old(View(vm.Spaces())), View(vm.Spaces()), r, virt, if ok then [b] else [])
  {
    hide Tied, LeafFrames, ShareTable.Valid, FramePool.Valid, Partition, WellFormed, CountsOk, StoredAt;
    var v := virt / PAGE_SIZE;
    ghost var s0 := vm.Spaces();
    StoredHere(s0, r, virt, b);
    var t, e;
    ok, t, e := vm.LeafTable(r, v);
    if !ok {
      return;
    }
    if !e.write {
      ghost var neu;
      ok, neu := vm.CowBreak(r, virt);
      if !ok {
        return;
      }
      BreakPageCorrect(s0, (r, v), neu);
      ok, t, e := vm.LeafTable(r, v);
    } else {
      WritableIsWanted(s0, (r, v));
    }
    Poke(vm, r, v, e.frame, virt % PAGE_SIZE, b);
  }

  lemma WritableIsWanted(s: Flat, k: Key)
    requires Inv(s) && k in s.leaf && s.leaf[k].write
    ensures s.leaf[k].want && Refs(s.leaf, s.leaf[k].frame) == {k}
  {
    assert WriteAlone(s.leaf, k);
  }

  /** The store itself, through a writable leaf. */
  method Poke(vm: Vmm, r: nat, v: nat, f: nat, off: nat, b: Byte)
    requires vm.Valid() && (r, v) in vm.leaf && vm.leaf[(r, v)].write && vm.leaf[(r, v)].frame == f && off < PAGE_SIZE
    modifies vm`mem
    ensures vm.Valid()
    ensures View(vm.Spaces()) == EagerStore(old(View(vm.Spaces())), (r, v), off, b)
    ensures vm.Spaces() == PokeByte(old(vm.Spaces()), (r, v), off, b)
  {
    hide Tied, LeafFrames, ShareTable.Valid, FramePool.Valid, Partition, WellFormed, CountsOk;
    MappedIsBacked(vm.Spaces(), (r, v));
    PokeByteCorrect(vm.Spaces(), (r, v), off, b);
    vm.mem := vm.mem[f := vm.mem[f][off := b]];
  }

  /** The bytes `d` stored at consecutive addresses of space `r`. */
  ghost function EagerStores(e: Eager, r: nat, virt: nat, d: seq<Byte>): Eager
    decreases |d|
  {
    if d == [] then e
    else
      var n := |d| - 1;
      EagerStore(EagerStores(e, r, virt, d[..n]), (r, (virt + n) / PAGE_SIZE), (virt + n) % PAGE_SIZE, d[n])
  }

  ghost predicate FullPages(e: Eager) {
    forall k <- e :: |e[k].bytes| == PAGE_SIZE
  }

  /** Byte `a` of space `r` is `d[a - virt]` for the addresses stored to, and what it was for all others. */
  ghost predicate StoredAt(e: Eager, e': Eager, r: nat, virt: nat, d: seq<Byte>) {
    && e'.Keys == e.Keys && (forall k <- e | k.0 != r :: e'[k] == e[k])
    && (forall k <- e | k.0 == r :: e'[k].writable == e[k].writable && |e'[k].bytes| == |e[k].bytes|)
    && (forall k <- e, j | k.0 == r && 0 <= j < |e[k].bytes| && |e[k].bytes| == PAGE_SIZE ::
          e'[k].bytes[j] == var a := k.1 * PAGE_SIZE + j; if virt <= a < virt + |d| then d[a - virt] else e[k].bytes[j])
  }

  lemma {:induction false} EagerStoresAre(e: Eager, r: nat, virt: nat, d: seq<Byte>)
    requires FullPages(e)
    ensures StoredAt(e, EagerStores(e, r, virt, d), r, virt, d)
    decreases |d|
  {
    if d != [] {
      var n := |d| - 1;
      EagerStoresAre(e, r, virt, d[..n]);
      StoredOneMore(e, EagerStores(e, r, virt, d[..n]), r, virt, d);
    }
  }

  lemma StoredOneMore(e: Eager, m: Eager, r: nat, virt: nat, d: seq<Byte>)
    requires d != [] && StoredAt(e, m, r, virt, d[..|d| - 1]) && FullPages(e)
    ensures var n := |d| - 1; StoredAt(e, EagerStore(m, (r, (virt + n) / PAGE_SIZE), (virt + n) % PAGE_SIZE, d[n]), r, virt, d)
  {
    var n := |d| - 1;
    var e' := EagerStore(m, (r, (virt + n) / PAGE_SIZE), (virt + n) % PAGE_SIZE, d[n]);
    forall k, j | k in e && k.0 == r && 0 <= j < PAGE_SIZE
      ensures e'[k].bytes[j] == var a := k.1 * PAGE_SIZE + j; if virt <= a < virt + |d| then d[a - virt] else e[k].bytes[j]
    {
      AddressOf(k.1, j, virt + n);
      assert k == (r, k.1);
    }
  }

  lemma StoredHere(s: Flat, r: nat, virt: nat, b: Byte)
    requires Inv(s)
    ensures StoredAt(View(s), View(s), r, virt, [])
    ensures StoredAt(View(s), EagerStore(View(s), (r, virt / PAGE_SIZE), virt % PAGE_SIZE, b), r, virt, [b])
  {
    hide StoredAt, EagerStore, View;
    PagesFull(s);
    EagerStoresAre(View(s), r, virt, []);
    StoredOneMore(View(s), View(s), r, virt, [b]) by {
      assert [b][..0] == [];
    }
  }

  lemma AddressOf(v: nat, j: nat, a: nat)
    requires j < PAGE_SIZE
    ensures v * PAGE_SIZE + j == a <==> a / PAGE_SIZE == v && a % PAGE_SIZE == j
  {
  }

  lemma PagesFull(s: Flat)
    requires Inv(s)
    ensures FullPages(View(s))
  {
  }

  lemma EagerStoresMore(e: Eager, r: nat, virt: nat, d: seq<Byte>, n: nat)
    requires n < |d|
    ensures EagerStores(e, r, virt, d[..n + 1])
         == EagerStore(EagerStores(e, r, virt, d[..n]), (r, (virt + n) / PAGE_SIZE), (virt + n) % PAGE_SIZE, d[n])
  {
    assert d[..n + 1][..n] == d[..n];
  }

  /** A page that cannot be written: not mapped, not to be written, or no frame is free for its copy. */
  ghost predicate Refused(vm: Vmm, k: Key)
    reads vm`leaf, vm.pool`free
  {
    k !in vm.leaf || !vm.leaf[k].want || vm.pool.free == {}
  }

  /** The loop of `copy_to_user_pml4`. */
  method CopyLoop(vm: Vmm, r: nat, dst: nat, src: seq<Byte>) returns (ok: bool, ghost done: nat)
    requires vm.Valid() && IsRoot(vm.owner, r) && (dst + |src|) / PAGE_SIZE < USER_PAGES
    modifies vm`tables, vm`leaf, vm`mem, vm.share`counts, vm.share.ents, vm.pool`freeCount, vm.pool`free, vm.pool.bits
    ensures vm.Valid()
    ensures done <= |src| && (ok ==> done == |src|)
    ensures !ok ==> done < |src| && Refused(vm, (r, (dst + done) / PAGE_SIZE))
    ensures View(vm.Spaces()) == EagerStores(old(View(vm.Spaces())), r, dst, src[..done])
  {
    hide Tied, LeafFrames, ShareTable.Valid, FramePool.Valid, Partition, WellFormed, CountsOk, PagesOk, View, EagerStore;
    hide Vmm.Parts, Dropped;
    ghost var e0 := View(vm.Spaces());
    NoStores(e0, r, dst, src);
    var pageBase, page := -1, 0;
    var i := 0;
    done := 0;
    while i < |src|
      invariant 0 <= i <= |src| && done == i
      invariant vm.Valid() && IsRoot(vm.owner, r)
      invariant View(vm.Spaces()) == EagerStores(e0, r, dst, src[..i])
      invariant pageBase != -1 ==> 0 <= pageBase && (r, pageBase) in vm.leaf && vm.leaf[(r, pageBase)].write
      invariant pageBase != -1 ==> page == vm.leaf[(r, pageBase)].frame
    {
      var va := dst + i;
      if va / PAGE_SIZE != pageBase {
        ghost var s0 := vm.Spaces();
        ghost var neu;
        ok, neu := vm.CowBreak(r, va);
        if !ok {
          return;
        }
        BreakPageCorrect(s0, (r, va / PAGE_SIZE), neu);
        var phys;
        ok, phys := vm.Translate(r, va);
        page := phys / PAGE_SIZE;
        pageBase := va / PAGE_SIZE;
      }
      Poke(vm, r, pageBase, page, va % PAGE_SIZE, src[i]);
      EagerStoresMore(e0, r, dst, src, i);
      i := i + 1;
      done := i;
    }
    ok := true;
  }

  /**
   `copy_to_user_pml4`: writes bytes into user pages, breaking the sharing of each page it enters.
   If it gives up, the bytes before that point have been stored and nothing else.
   */
  method CopyOut(vm: Vmm, r: nat, dst: nat, src: seq<Byte>) returns (ok: bool, ghost done: nat)
    requires vm.Valid() && IsRoot(vm.owner, r) && (dst + |src|) / PAGE_SIZE < USER_PAGES
    modifies vm`tables, vm`leaf, vm`mem, vm.share`counts, vm.share.ents, vm.pool`freeCount, vm.pool`free, vm.pool.bits
    ensures vm.Valid()
    ensures done <= |src| && (ok ==> done == |src|)
    ensures !ok ==> done < |src| && Refused(vm, (r, (dst + done) / PAGE_SIZE))
    ensures View(vm.Spaces()) == EagerStores(old(View(vm.Spaces())), r, dst, src[..done])
    ensures StoredAt(old(View(vm.Spaces())), View(vm.Spaces()), r, dst, src[..done])
  {
    hide Vmm.Sound, CountsOk, PagesOk, View, StoredAt, EagerStores, FullPages, Refused;
    ghost var e0 := View(vm.Spaces());
    PagesFull(vm.Spaces());
    ok, done := CopyLoop(vm, r, dst, src);
    EagerStoresAre(e0, r, dst, src[..done]);
  }

  lemma NoStores(e: Eager, r: nat, virt: nat, d: seq<Byte>)
    ensures EagerStores(e, r, virt, d[..0]) == e
  {
  }

  // ----- fork -----

  /** Nothing a program or the kernel could notice has changed. */
  ghost predicate AsBefore(s: Flat, t: Flat)
    requires Inv(s) && Inv(t)
  {
    View(t) == View(s) && SameMappings(s, t)
  }

  lemma SameMappingsSameFrames(s: Flat, t: Flat)
    requires SameMappings(s, t)
    ensures LeafFrames(t.leaf) == LeafFrames(s.leaf)
  {
    forall f | f in LeafFrames(s.leaf) ensures f in LeafFrames(t.leaf) {
      var k :| k in s.leaf && s.leaf[k].frame == f;
      assert k in t.leaf && t.leaf[k].frame == f;
    }
    forall f | f in LeafFrames(t.leaf) ensures f in LeafFrames(s.leaf) {
      var k :| k in t.leaf && t.leaf[k].frame == f;
      assert k in s.leaf && s.leaf[k].frame == f;
    }
  }

  lemma SameRestSameFree(universe: set<nat>, free: set<nat>, free': set<nat>, tables: set<nat>, pages: set<nat>, held: set<nat>)
    requires Partition(universe, free, tables, pages, held) && Partition(universe, free', tables, pages, held)
    ensures free' == free
  {
  }

  /** A kernel stack and an empty space for the child, or nothing. */
  method NewSpace(vm: Vmm) returns (cr3: nat, kstack: nat)
    requires vm.Valid()
    modifies vm`tables, vm`owner, vm`mem, vm`held, vm.pool`freeCount, vm.pool`free, vm.pool.bits
    ensures vm.Valid() && AsBefore(old(vm.Spaces()), vm.Spaces())
    ensures cr3 != 0 <==> |old(vm.pool.free)| >= 2
    ensures cr3 == 0 ==> kstack == 0 && vm.pool.free == old(vm.pool.free) && vm.held == old(vm.held) && vm.tables.Keys == old(vm.tables).Keys
    ensures cr3 != 0 ==> |vm.pool.free| == |old(vm.pool.free)| - 2 && kstack !in old(vm.held) && vm.held == old(vm.held) + {kstack}
    ensures cr3 != 0 ==> cr3 !in old(vm.owner) && vm.owner == old(vm.owner)[cr3 := Node(cr3, 4, 0)] && Bare(vm.owner, cr3)
    ensures cr3 != 0 ==> NoPages(vm.leaf, cr3, 0, USER_PAGES)
  {
    hide Tied, LeafFrames, ShareTable.Valid, FramePool.Valid, Partition, CountsOk, PagesOk, View;
    hide Vmm.Parts, NodeOk, WordOk, SameMappings, WellFormed, Bare;
    ghost var s0 := vm.Spaces();
    AsBeforeSelf(s0);
    var kphys := vm.AllocPage();
    if kphys == 0 {
      return 0, 0;
    }
    kstack := kphys / PAGE_SIZE;
    NewFrame(vm.universe, old(vm.pool.free), vm.tables.Keys, LeafFrames(vm.leaf), old(vm.held), kstack);
    FilledAsBefore(s0, kstack, ZeroPage());
    cr3 := vm.ClonePml4();
    if cr3 == 0 {
      vm.ReleaseHeld(kstack);
      OneLeft(old(vm.pool.free), kstack);
      return 0, 0;
    }
    NewIsBare(old(vm.tables), old(vm.owner), cr3);
    TwoFewer(old(vm.pool.free), kstack, cr3);
  }

  lemma OneLeft(free: set<nat>, f: nat)
    requires f in free && free - {f} == {}
    ensures |free| == 1
  {
    assert free == {f};
  }

  /**
   `user_fork`: `slotFree` is the answer of `sched_fork`.  It succeeds exactly when there is a slot, two frames
   for the kernel stack and the root, one for each table on the walks of the parent's pages, and room to count
   the parent's frames as shared.  On success the child is a new space that reads what an immediate copy of the
   parent would read.  On failure every space reads what it read, every frame and count is as it was, and the
   same frames are free.
   */
  method UserFork(vm: Vmm, src: nat, slotFree: bool) returns (cr3: nat, kstack: nat)
    requires vm.Valid() && IsRoot(vm.owner, src)
    modifies vm`tables, vm`owner, vm`leaf, vm`mem, vm`held
    modifies vm.share`counts, vm.share.ents, vm.pool`freeCount, vm.pool`free, vm.pool.bits
    ensures vm.Valid()
    ensures cr3 != 0 <==> slotFree && |old(vm.pool.free)| >= 2 && ForkFits(old(vm.leaf), old(vm.share.counts), src, |old(vm.pool.free)| - 2)
    ensures cr3 != 0 ==> cr3 !in old(vm.owner) && IsRoot(vm.owner, cr3)
    ensures cr3 != 0 ==> View(vm.Spaces()) == EagerForkBelow(old(View(vm.Spaces())), src, cr3, USER_PAGES)
    ensures cr3 != 0 ==> Copied(old(View(vm.Spaces())), View(vm.Spaces()), src, cr3)
    ensures cr3 != 0 ==> vm.held == old(vm.held) + {kstack}
    ensures cr3 == 0 ==> AsBefore(old(vm.Spaces()), vm.Spaces())
    ensures cr3 == 0 ==> vm.pool.free == old(vm.pool.free) && vm.held == old(vm.held) && vm.tables.Keys == old(vm.tables).Keys
  {
    hide Tied, LeafFrames, ShareTable.Valid, FramePool.Valid, Partition, CountsOk, PagesOk, View, ForkRange, UnmapRange;
    hide Vmm.Parts, NodeOk, WordOk, SameMappings, ForkKept, WellFormed, ForkFits, Bare;
    ghost var s0 := vm.Spaces();
    cr3, kstack := NewSpace(vm);
    if cr3 == 0 {
      return;
    }
    ghost var s1, o1, t1 := vm.Spaces(), vm.owner, vm.tables;
    var ok;
    ghost var upto;
    ok, upto := vm.CopyUser(cr3, src);
    ForkRangeCorrect(s1, src, cr3, upto);
    ForkKeepsRoot(t1, o1, vm.tables, vm.owner, src, cr3);
    if ok && slotFree {
      ForkRangeCorrect(s1, src, cr3, USER_PAGES);
      ForkedIsCopy(s0, s1, src, cr3);
      return;
    }
    ForkFailedRestores(s1, vm.Spaces(), src, cr3, upto);
    RootsBefore(old(vm.tables), old(vm.owner), t1, o1, vm.tables, vm.owner, src, cr3);
    UndoFork(vm, cr3, kstack);
    AsBeforeFilled(s0, s1, vm.Spaces());
    SameMappingsSameFrames(s0, vm.Spaces());
    assert vm.tables.Keys == old(vm.tables).Keys;
    SameRestSameFree(vm.universe, old(vm.pool.free), vm.pool.free, vm.tables.Keys, LeafFrames(vm.leaf), vm.held);
    return 0, 0;
  }

  lemma ForkedIsCopy(s0: Flat, s: Flat, src: nat, dst: nat)
    requires Inv(s0) && Inv(s) && AsBefore(s0, s) && src != dst && NoPages(s.leaf, dst, 0, USER_PAGES)
    ensures Copied(View(s0), EagerForkBelow(View(s), src, dst, USER_PAGES), src, dst)
  {
    hide CountsOk, EagerForkBelow;
    forall k <- View(s) ensures k.0 != dst && k.1 < USER_PAGES {
      assert k == (k.0, k.1);
    }
    EagerForkCopies(View(s), src, dst);
  }

  lemma NewIsBare(tables: Tables, owner: map<nat, Node>, r: nat)
    requires WellFormed(tables, owner) && r !in owner
    ensures Bare(owner[r := Node(r, 4, 0)], r)
  {
    forall t <- owner ensures owner[t].root != r {
      assert NodeOk(tables, owner, t);
    }
  }

  lemma TwoFewer(free: set<nat>, f: nat, g: nat)
    requires f in free && g in free - {f}
    ensures |free - {f} - {g}| == |free| - 2
  {
  }

  /** The frames of a failed child go back: its pages, its tables, its root and its kernel stack. */
  method UndoFork(vm: Vmm, cr3: nat, kstack: nat)
    requires vm.Valid() && IsRoot(vm.owner, cr3) && kstack in vm.held
    modifies vm`tables, vm`owner, vm`leaf, vm`held
    modifies vm.share`counts, vm.share.ents, vm.pool`freeCount, vm.pool`free, vm.pool.bits
    ensures vm.Valid()
    ensures vm.Spaces() == UnmapRange(old(vm.Spaces()), cr3, 0, USER_PAGES)
    ensures vm.held == old(vm.held) - {kstack}
    ensures forall f :: f in vm.tables <==> f in old(vm.tables) && old(vm.owner)[f].root != cr3
  {
    hide Tied, LeafFrames, ShareTable.Valid, FramePool.Valid, Partition, Inv, UnmapRange, OthersKept;
    hide Vmm.Parts, WellFormed;
    vm.Teardown(cr3);
    vm.DropRoot(cr3);
    vm.ReleaseHeld(kstack);
  }

  /** The tables that belong to no root but the child are those there were before it. */
  lemma RootsBefore(t0: Tables, o0: map<nat, Node>, t1: Tables, o1: map<nat, Node>, t2: Tables, o2: map<nat, Node>,
                    src: nat, dst: nat)
    requires t0.Keys == o0.Keys && WellFormed(t0, o0) && dst !in o0 && o1 == o0[dst := Node(dst, 4, 0)]
    requires t1.Keys == o1.Keys && t2.Keys == o2.Keys && ForkKept(t1, o1, t2, o2, src, dst)
    ensures forall f :: f in t0 <==> f in t2 && o2[f].root != dst
  {
    forall f <- o0 ensures o0[f].root != dst {
      assert NodeOk(t0, o0, f);
    }
  }

  lemma NewFrame(universe: set<nat>, free: set<nat>, tables: set<nat>, pages: set<nat>, held: set<nat>, f: nat)
    requires Partition(universe, free, tables, pages, held) && f in free
    ensures f !in held && f !in pages && f !in tables && held + {f} - {f} == held && free - {f} + {f} == free
  {
  }

  lemma FilledAsBefore(s: Flat, f: nat, d: PageData)
    requires Inv(s) && f !in LeafFrames(s.leaf) && |d| == PAGE_SIZE
    ensures Inv(s.(mem := s.mem[f := d])) && AsBefore(s, s.(mem := s.mem[f := d]))
  {
    FillCorrect(s, f, d);
  }

  lemma AsBeforeFilled(s0: Flat, s1: Flat, t: Flat)
    requires Inv(s0) && Inv(s1) && Inv(t) && AsBefore(s0, s1) && s0.leaf == s1.leaf && s0.shares == s1.shares
    requires View(t) == View(s1) && SameMappings(s1, t)
    ensures AsBefore(s0, t)
  {
  }

  lemma AsBeforeSelf(s: Flat)
    requires Inv(s)
    ensures AsBefore(s, s)
  {
  }
}
