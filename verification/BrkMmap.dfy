/**
 `user_brk`, `user_mmap`, `user_munmap` and `user_mprotect` of `kernel/user.c`: loops over pages
 that either complete or take back what they did.
 */
module BrkMmap {
  import opened Bytes
  import opened CopyOnWrite
  import opened PageTables
  import opened Mappings
  import opened Forks
  import opened FramePools
  import opened ShareTables
  import opened VirtualMemory
  import opened UserMemory

  const HEAP_PAGES: nat := 16
  const MMAP_PAGES: nat := 16

  function PageUp(a: nat): (r: nat)
    ensures r % PAGE_SIZE == 0 && a <= r < a + PAGE_SIZE
  {
    (a + PAGE_SIZE - 1) / PAGE_SIZE * PAGE_SIZE
  }

  /** Every leaf there was is still there, unchanged. */
  ghost predicate Extends(leaf: map<Key, Leaf>, leaf': map<Key, Leaf>) {
    forall k <- leaf :: k in leaf' && leaf'[k] == leaf[k]
  }

  /** Space `r` with the pages `ds` added from page `lo` on. */
  ghost function WithPages(e: Eager, r: nat, lo: nat, ds: seq<PageData>): Eager
    decreases |ds|
  {
    if ds == [] then e
    else WithPages(e, r, lo, ds[..|ds| - 1])[(r, lo + |ds| - 1) := Page(true, ds[|ds| - 1])]
  }

  lemma {:induction false} WithPagesKeys(e: Eager, r: nat, lo: nat, ds: seq<PageData>)
    ensures forall k: Key :: k in WithPages(e, r, lo, ds) <==> k in e || (k.0 == r && lo <= k.1 < lo + |ds|)
    ensures forall k <- e :: !(k.0 == r && lo <= k.1 < lo + |ds|) ==> WithPages(e, r, lo, ds)[k] == e[k]
    ensures forall i | 0 <= i < |ds| :: WithPages(e, r, lo, ds)[(r, lo + i)] == Page(true, ds[i])
    decreases |ds|
  {
    if ds != [] {
      WithPagesKeys(e, r, lo, ds[..|ds| - 1]);
    }
  }

  /** Space `r` without the pages from `lo` up to `hi`. */
  ghost function WithoutPages(e: Eager, r: nat, lo: nat, hi: nat): Eager {
    map k | k in e && !(k.0 == r && lo <= k.1 < hi) :: e[k]
  }

  /** One fresh page: allocated, filled and mapped, or given back. */
  method MapFresh(vm: Vmm, r: nat, v: nat, d: PageData) returns (ok: bool)
    requires vm.Valid() && IsRoot(vm.owner, r) && v < USER_PAGES && (r, v) !in vm.leaf && |d| == PAGE_SIZE
    modifies vm`tables, vm`owner, vm`leaf, vm`mem, vm`held, vm.pool`freeCount, vm.pool`free, vm.pool.bits
    ensures vm.Valid() && IsRoot(vm.owner, r) && vm.held == old(vm.held)
    ensures View(vm.Spaces()) == if ok then old(View(vm.Spaces()))[(r, v) := Page(true, d)] else old(View(vm.Spaces()))
    ensures Extends(old(vm.leaf), vm.leaf)
    ensures !ok ==> vm.leaf == old(vm.leaf) && |vm.pool.free| <= 1
    ensures ok <==> RoomFor(old(vm.owner), r, PageWays(v), |old(vm.pool.free)| - 1)
    ensures ok ==> Present(vm.owner, r) == Present(old(vm.owner), r) + PageWays(v)
                   && |vm.pool.free| == |old(vm.pool.free)| - 1 - |PageWays(v) - Present(old(vm.owner), r)|
  {
    hide LeafFrames, Partition, Inv, View, Structure, Vmm.Parts, OthersKept, Present, PageWays;
    var phys := FreshPage(vm, d);
    if phys == 0 {
      return false;
    }
    var f := phys / PAGE_SIZE;
    NotALeaf(vm.universe, vm.pool.free, vm.tables.Keys, vm.leaf, vm.held, f);
    ghost var s := vm.Spaces();
    PageAddress(v);
    ok := vm.MapUser(r, v * PAGE_SIZE, phys);
    if ok {
      MapPageCorrect(s, (r, v), f);
      assert vm.held == old(vm.held);
    } else {
      vm.ReleaseHeld(f);
    }
  }

  lemma PageAddress(v: nat)
    ensures v * PAGE_SIZE / PAGE_SIZE == v && v * PAGE_SIZE % PAGE_SIZE == 0
  {
  }

  /** A frame that nobody has, holding `d`; no page changes. */
  method FreshPage(vm: Vmm, d: PageData) returns (phys: nat)
    requires vm.Valid() && |d| == PAGE_SIZE
    modifies vm`mem, vm`held, vm.pool`freeCount, vm.pool`free, vm.pool.bits
    ensures vm.Valid() && View(vm.Spaces()) == old(View(vm.Spaces()))
    ensures phys == 0 <==> old(vm.pool.free) == {}
    ensures phys == 0 ==> vm.held == old(vm.held) && vm.pool.free == old(vm.pool.free)
    ensures phys != 0 ==> phys % PAGE_SIZE == 0 && Backed(vm.mem, phys / PAGE_SIZE) && vm.mem[phys / PAGE_SIZE] == d
    ensures phys != 0 ==> phys / PAGE_SIZE !in old(vm.held) && vm.held == old(vm.held) + {phys / PAGE_SIZE}
    ensures phys != 0 ==> |vm.pool.free| == |old(vm.pool.free)| - 1
  {
    hide LeafFrames, Partition, Inv, View, Structure, Vmm.Parts, Step, Enabled;
    ghost var s0 := vm.Spaces();
    phys := vm.AllocPage();
    if phys == 0 {
      return;
    }
    var f := phys / PAGE_SIZE;
    NewFrame(vm.universe, old(vm.pool.free), vm.tables.Keys, LeafFrames(vm.leaf), old(vm.held), f);
    FilledIs(s0, f, ZeroPage());
    FillCorrect(s0, f, ZeroPage());
    FillCorrect(vm.Spaces(), f, d);
    vm.mem := vm.mem[f := d];
  }

  /** Takes back the pages from `lo` up to `hi`, the last one first. */
  method UnmapDown(vm: Vmm, r: nat, lo: nat, hi: nat)
    requires vm.Valid() && IsRoot(vm.owner, r) && lo <= hi <= USER_PAGES
    requires forall v | lo <= v < hi :: (r, v) in vm.leaf
    modifies vm`tables, vm`leaf, vm.share`counts, vm.share.ents, vm.pool`freeCount, vm.pool`free, vm.pool.bits
    ensures vm.Valid()
    ensures View(vm.Spaces()) == WithoutPages(old(View(vm.Spaces())), r, lo, hi)
    ensures Extends(vm.leaf, old(vm.leaf))
    ensures |vm.pool.free| <= |old(vm.pool.free)| + hi - lo
  {
    hide Tied, LeafFrames, ShareTable.Valid, FramePool.Valid, Partition, CountsOk;
    hide Vmm.Parts, WellFormed, OthersKept, PagesOk, View, WithoutPages, UnmapPage;
    ghost var e0 := View(vm.Spaces());
    NoneGone(e0, r, hi);
    var v := hi;
    while v > lo
      invariant lo <= v <= hi
      invariant vm.Valid()
      invariant View(vm.Spaces()) == WithoutPages(e0, r, v, hi)
      invariant Extends(vm.leaf, old(vm.leaf)) && |vm.pool.free| <= |old(vm.pool.free)| + hi - v
      invariant forall w | lo <= w < v :: (r, w) in vm.leaf
    {
      v := v - 1;
      ghost var s := vm.Spaces();
      UnmapPageCorrect(s, (r, v));
      UnmappedLeaf(s, (r, v));
      var ok := vm.UnmapUser(r, v * PAGE_SIZE);
      OneLess(e0, r, v, hi);
    }
  }

  lemma NoneGone(e: Eager, r: nat, v: nat)
    ensures WithoutPages(e, r, v, v) == e
  {
  }

  lemma UnmappedLeaf(s: Flat, k: Key)
    requires k in s.leaf
    ensures UnmapPage(s, k).leaf == s.leaf - {k}
  {
  }

  lemma OneLess(e: Eager, r: nat, v: nat, hi: nat)
    requires v < hi
    ensures WithoutPages(e, r, v + 1, hi) - {(r, v)} == WithoutPages(e, r, v, hi)
    ensures WithoutPages(e, r, v, v) == e
  {
  }

  lemma OneLessUp(e: Eager, r: nat, lo: nat, v: nat)
    requires lo <= v
    ensures WithoutPages(e, r, lo, v) - {(r, v)} == WithoutPages(e, r, lo, v + 1)
    ensures WithoutPages(e, r, lo, lo) == e
  {
  }

  /** Pages added and taken away again: nothing has changed. */
  lemma RolledBack(s: Flat, t: Flat, r: nat, lo: nat, ds: seq<PageData>)
    requires Inv(s) && Inv(t) && NoPages(s.leaf, r, lo, lo + |ds|)
    requires View(t) == WithoutPages(WithPages(View(s), r, lo, ds), r, lo, lo + |ds|)
    requires forall k <- s.leaf :: k in t.leaf ==> t.leaf[k] == s.leaf[k]
    ensures AsBefore(s, t)
  {
    hide CountsOk, PagesOk, View;
    ViewKeys(s);
    ViewKeys(t);
    AddedThenRemoved(View(s), r, lo, ds);
    SameFramesSameCounts(s, t);
  }

  lemma AddedThenRemoved(e: Eager, r: nat, lo: nat, ds: seq<PageData>)
    requires forall v | lo <= v < lo + |ds| :: (r, v) !in e
    ensures WithoutPages(WithPages(e, r, lo, ds), r, lo, lo + |ds|) == e
  {
    WithPagesKeys(e, r, lo, ds);
    forall k <- e ensures !(k.0 == r && lo <= k.1 < lo + |ds|) {
      assert k == (k.0, k.1);
    }
  }

  /** Adds the pages `ds` from page `lo` on, all of them or none. */
  method MapRun(vm: Vmm, r: nat, lo: nat, ds: seq<PageData>) returns (ok: bool)
    requires vm.Valid() && IsRoot(vm.owner, r) && lo + |ds| <= USER_PAGES && NoPages(vm.leaf, r, lo, lo + |ds|)
    requires forall d <- ds :: |d| == PAGE_SIZE
    modifies vm`tables, vm`owner, vm`leaf, vm`mem, vm`held
    modifies vm.share`counts, vm.share.ents, vm.pool`freeCount, vm.pool`free, vm.pool.bits
    ensures vm.Valid() && IsRoot(vm.owner, r) && vm.held == old(vm.held)
    ensures ok ==> View(vm.Spaces()) == WithPages(old(View(vm.Spaces())), r, lo, ds)
    ensures !ok ==> AsBefore(old(vm.Spaces()), vm.Spaces()) && |vm.pool.free| <= |ds|
    ensures ok <==> RunFits(old(vm.owner), r, lo, |ds|, |old(vm.pool.free)|)
  {
    hide Tied, LeafFrames, ShareTable.Valid, FramePool.Valid, Partition, CountsOk;
    hide Vmm.Parts, WellFormed, OthersKept, PagesOk, View, SameMappings, WithPages, NoPages, Present, PageWays, RunWays, RoomFor, RunFits, RunDone;
    ghost var s0, o0, free := vm.Spaces(), vm.owner, |vm.pool.free|;
    RunNone(o0, r, lo, free);
    WithPagesNone(View(s0), r, lo, ds);
    var n := 0;
    while n < |ds|
      invariant 0 <= n <= |ds|
      invariant vm.Valid() && IsRoot(vm.owner, r) && vm.held == old(vm.held)
      invariant View(vm.Spaces()) == WithPages(View(s0), r, lo, ds[..n])
      invariant Extends(s0.leaf, vm.leaf)
      invariant RunDone(o0, vm.owner, r, lo, n, free, |vm.pool.free|)
    {
      RunSoFar(s0, vm.Spaces(), r, lo, ds, n);
      ghost var o1, free1 := vm.owner, |vm.pool.free|;
      var more := MapFresh(vm, r, lo + n, ds[n]);
      if !more {
        RunStops(o0, o1, r, lo, n, |ds|, free, free1);
        UnmapDown(vm, r, lo, lo + n);
        RolledBack(s0, vm.Spaces(), r, lo, ds[..n]);
        return false;
      }
      WithPagesMore(View(s0), r, lo, ds, n);
      RunMore(o0, o1, vm.owner, r, lo, n, free, free1, |vm.pool.free|);
      n := n + 1;
    }
    assert ds[..n] == ds;
    RunAll(o0, vm.owner, r, lo, n, free, |vm.pool.free|);
    return true;
  }

  lemma WithPagesNone(e: Eager, r: nat, lo: nat, ds: seq<PageData>)
    ensures WithPages(e, r, lo, ds[..0]) == e
  {
  }

  lemma WithPagesMore(e: Eager, r: nat, lo: nat, ds: seq<PageData>, n: nat)
    requires n < |ds|
    ensures WithPages(e, r, lo, ds[..n + 1]) == WithPages(e, r, lo, ds[..n])[(r, lo + n) := Page(true, ds[n])]
  {
    assert ds[..n + 1][..n] == ds[..n];
  }

  /** After `n` pages of a run exactly those pages are there. */
  lemma RunSoFar(s0: Flat, s: Flat, r: nat, lo: nat, ds: seq<PageData>, n: nat)
    requires Inv(s0) && Inv(s) && n < |ds| && NoPages(s0.leaf, r, lo, lo + |ds|)
    requires View(s) == WithPages(View(s0), r, lo, ds[..n])
    ensures (r, lo + n) !in s.leaf && forall v | lo <= v < lo + n :: (r, v) in s.leaf
    ensures NoPages(s0.leaf, r, lo, lo + n)
  {
    hide CountsOk, PagesOk, View;
    ViewKeys(s0);
    ViewKeys(s);
    WithPagesKeys(View(s0), r, lo, ds[..n]);
  }

  lemma ViewKeys(s: Flat)
    requires Inv(s)
    ensures View(s).Keys == s.leaf.Keys
  {
  }

  /** Removes the pages from `lo` up to `hi`, in ascending order. */
  method UnmapUp(vm: Vmm, r: nat, lo: nat, hi: nat)
    requires vm.Valid() && IsRoot(vm.owner, r) && lo <= hi <= USER_PAGES
    requires forall v | lo <= v < hi :: (r, v) in vm.leaf
    modifies vm`tables, vm`leaf, vm.share`counts, vm.share.ents, vm.pool`freeCount, vm.pool`free, vm.pool.bits
    ensures vm.Valid()
    ensures View(vm.Spaces()) == WithoutPages(old(View(vm.Spaces())), r, lo, hi)
  {
    hide Tied, LeafFrames, ShareTable.Valid, FramePool.Valid, Partition, CountsOk;
    hide Vmm.Parts, WellFormed, OthersKept, PagesOk, View;
    ghost var e0 := View(vm.Spaces());
    OneLessUp(e0, r, lo, lo);
    var v := lo;
    while v < hi
      invariant lo <= v <= hi
      invariant vm.Valid()
      invariant View(vm.Spaces()) == WithoutPages(e0, r, lo, v)
      invariant forall w | v <= w < hi :: (r, w) in vm.leaf
    {
      UnmapPageCorrect(vm.Spaces(), (r, v));
      var ok := vm.UnmapUser(r, v * PAGE_SIZE);
      OneLessUp(e0, r, lo, v);
      v := v + 1;
    }
  }

  // ----- what the calls leave to be read -----

  /** The `n` pages from `v` on are writable and read, one after the other, as the bytes `data` and then zeros. */
  ghost predicate ReadsAs(e: Eager, r: nat, v: nat, n: nat, data: seq<Byte>) {
    forall x | 0 <= x < n * PAGE_SIZE ::
      var k := (r, v + x / PAGE_SIZE);
      && k in e && e[k].writable && |e[k].bytes| == PAGE_SIZE
      && e[k].bytes[x % PAGE_SIZE] == if x < |data| then data[x] else 0
  }

  /** The pages from `lo` up to `hi` are not there. */
  ghost predicate Gone(e: Eager, r: nat, lo: nat, hi: nat) {
    forall v | lo <= v < hi :: (r, v) !in e
  }

  /** The pages from `lo` up to `hi` hold what they held and may be written, or not. */
  ghost predicate Guarded(e: Eager, e': Eager, r: nat, lo: nat, hi: nat, wr: bool) {
    forall v | lo <= v < hi :: (r, v) in e && (r, v) in e' && e'[(r, v)].bytes == e[(r, v)].bytes && (e'[(r, v)].writable <==> wr)
  }

  lemma FilePagesRead(e: Eager, r: nat, v: nat, n: nat, data: seq<Byte>)
    ensures ReadsAs(WithPages(e, r, v, FilePages(data, n)), r, v, n, data)
    ensures Elsewhere(e, WithPages(e, r, v, FilePages(data, n)), r, v, v + n)
  {
    var ds := FilePages(data, n);
    WithPagesKeys(e, r, v, ds);
    hide WithPages;
    var e' := WithPages(e, r, v, ds);
    forall x | 0 <= x < n * PAGE_SIZE
      ensures var k := (r, v + x / PAGE_SIZE); k in e' && e'[k].writable && |e'[k].bytes| == PAGE_SIZE
      ensures e'[(r, v + x / PAGE_SIZE)].bytes[x % PAGE_SIZE] == if x < |data| then data[x] else 0
    {
      InPage(x, n);
      assert e'[(r, v + x / PAGE_SIZE)] == Page(true, FilePage(data, x / PAGE_SIZE));
    }
  }

  lemma InPage(x: nat, n: nat)
    requires x < n * PAGE_SIZE
    ensures x / PAGE_SIZE < n && x / PAGE_SIZE * PAGE_SIZE + x % PAGE_SIZE == x
  {
  }

  lemma ZeroPagesRead(e: Eager, r: nat, v: nat, n: nat)
    ensures ReadsAs(WithPages(e, r, v, ZeroPages(n)), r, v, n, [])
    ensures Elsewhere(e, WithPages(e, r, v, ZeroPages(n)), r, v, v + n)
  {
    var ds := ZeroPages(n);
    WithPagesKeys(e, r, v, ds);
    hide WithPages;
    var e' := WithPages(e, r, v, ds);
    forall x | 0 <= x < n * PAGE_SIZE
      ensures var k := (r, v + x / PAGE_SIZE); k in e' && e'[k].writable && |e'[k].bytes| == PAGE_SIZE
      ensures e'[(r, v + x / PAGE_SIZE)].bytes[x % PAGE_SIZE] == 0
    {
      InPage(x, n);
      assert ds[x / PAGE_SIZE] in ds;
      assert e'[(r, v + x / PAGE_SIZE)] == Page(true, ds[x / PAGE_SIZE]);
    }
  }

  lemma WithoutIsGone(e: Eager, r: nat, lo: nat, hi: nat)
    ensures Gone(WithoutPages(e, r, lo, hi), r, lo, hi) && Elsewhere(e, WithoutPages(e, r, lo, hi), r, lo, hi)
  {
  }

  lemma ProtectedIsGuarded(e: Eager, r: nat, lo: nat, hi: nat, wr: bool)
    requires forall v | lo <= v < hi :: (r, v) in e
    ensures Guarded(e, WithProtection(e, r, lo, hi, wr), r, lo, hi, wr) && Elsewhere(e, WithProtection(e, r, lo, hi, wr), r, lo, hi)
  {
    forall k: Key | !(k.0 == r && lo <= k.1 < hi)
      ensures (k in WithProtection(e, r, lo, hi, wr) <==> k in e) && (k in e ==> WithProtection(e, r, lo, hi, wr)[k] == e[k])
    {
    }
  }

  // ----- brk -----

  function HeapStart(base: nat): nat {
    base + 2 * PAGE_SIZE
  }

  function HeapMax(base: nat): nat {
    HeapStart(base) + HEAP_PAGES * PAGE_SIZE
  }

  /** The break a task is taken to have; a value outside the heap counts as an empty heap. */
  function CurrentBreak(base: nat, brk: nat): (b: nat)
    ensures HeapStart(base) <= b <= HeapMax(base)
  {
    if brk < HeapStart(base) || brk > HeapMax(base) then HeapStart(base) else brk
  }

  /** The heap pages that are mapped are exactly those below the break. */
  ghost predicate HeapMapped(e: Eager, r: nat, base: nat, b: nat) {
    forall v | HeapStart(base) <= v * PAGE_SIZE < HeapMax(base) :: (r, v) in e <==> v * PAGE_SIZE < b
  }

  /** The new break is lower, or the frames suffice for the pages up to it. */
  ghost predicate BreakFits(owner: map<nat, Node>, r: nat, base: nat, brk: nat, want: nat, free: nat) {
    var lo, hi := PageUp(CurrentBreak(base, brk)) / PAGE_SIZE, PageUp(want) / PAGE_SIZE;
    hi < lo || RunFits(owner, r, lo, hi - lo, free)
  }

  /**
   `user_brk`: 0 asks for the break; a break outside the heap is refused.  Growing adds zeroed pages,
   shrinking removes pages; a growth that does not fit the free frames leaves everything as it was.
   */
  method UserBrk(vm: Vmm, r: nat, base: nat, brk: nat, want: nat) returns (ok: bool, res: nat, brk': nat)
    requires vm.Valid() && IsRoot(vm.owner, r) && base % PAGE_SIZE == 0 && HeapMax(base) <= USER_PAGES * PAGE_SIZE
    requires HeapMapped(View(vm.Spaces()), r, base, CurrentBreak(base, brk))
    modifies vm`tables, vm`owner, vm`leaf, vm`mem, vm`held
    modifies vm.share`counts, vm.share.ents, vm.pool`freeCount, vm.pool`free, vm.pool.bits
    ensures vm.Valid() && vm.held == old(vm.held)
    ensures !ok ==> brk' == brk && AsBefore(old(vm.Spaces()), vm.Spaces())
    ensures want == 0 ==> ok && res == CurrentBreak(base, brk) && brk' == brk && vm.Spaces() == old(vm.Spaces())
    ensures ok <==> want == 0 || (HeapStart(base) <= want <= HeapMax(base) && BreakFits(old(vm.owner), r, base, brk, want, |old(vm.pool.free)|))
    ensures !ok && HeapStart(base) <= want <= HeapMax(base) ==>
              |vm.pool.free| <= PageUp(want) / PAGE_SIZE - PageUp(CurrentBreak(base, brk)) / PAGE_SIZE
    ensures ok && want != 0 ==> res == brk' == want && base + 0x2000 <= want <= base + 0x1_2000
    ensures ok && want != 0 ==>
              var lo, hi := PageUp(CurrentBreak(base, brk)) / PAGE_SIZE, PageUp(want) / PAGE_SIZE;
              View(vm.Spaces()) == if lo <= hi then WithPages(old(View(vm.Spaces())), r, lo, ZeroPages(hi - lo))
                                   else WithoutPages(old(View(vm.Spaces())), r, hi, lo)
    ensures ok && want != 0 ==>
              var lo, hi := PageUp(CurrentBreak(base, brk)) / PAGE_SIZE, PageUp(want) / PAGE_SIZE;
              if lo <= hi then ReadsAs(View(vm.Spaces()), r, lo, hi - lo, []) && Elsewhere(old(View(vm.Spaces())), View(vm.Spaces()), r, lo, hi)
              else Gone(View(vm.Spaces()), r, hi, lo) && Elsewhere(old(View(vm.Spaces())), View(vm.Spaces()), r, hi, lo)
    ensures HeapMapped(View(vm.Spaces()), r, base, CurrentBreak(base, brk'))
  {
    hide Tied, LeafFrames, ShareTable.Valid, FramePool.Valid, Partition, CountsOk;
    hide Vmm.Parts, WellFormed, OthersKept, PagesOk, View, SameMappings, WithPages, RunFits, ReadsAs, Elsewhere, Gone;
    AsBeforeSelf(vm.Spaces());
    var cur := CurrentBreak(base, brk);
    if want == 0 {
      return true, cur, brk;
    }
    if want < HeapStart(base) || want > HeapMax(base) {
      return false, 0, brk;
    }
    var lo, hi := PageUp(cur) / PAGE_SIZE, PageUp(want) / PAGE_SIZE;
    ghost var e0 := View(vm.Spaces());
    ViewKeys(vm.Spaces());
    WithPagesKeys(e0, r, lo, ZeroPages(if lo <= hi then hi - lo else 0));
    if hi < lo {
      UnmapUp(vm, r, hi, lo);
      WithoutIsGone(e0, r, hi, lo);
    } else {
      ZeroPagesRead(e0, r, lo, hi - lo);
      var grown := MapRun(vm, r, lo, ZeroPages(hi - lo));
      if !grown {
        return false, 0, brk;
      }
    }
    return true, want, want;
  }

  function ZeroPages(n: nat): (ds: seq<PageData>)
    ensures |ds| == n && forall d <- ds :: d == ZeroPage()
  {
    seq(n, _ => ZeroPage())
  }

  // ----- mmap, munmap, mprotect -----

  /** Page `i` of a file read into memory: its bytes, then zeros. */
  function FilePage(data: seq<Byte>, i: nat): (d: PageData)
    ensures |d| == PAGE_SIZE
  {
    seq(PAGE_SIZE, j requires 0 <= j < PAGE_SIZE => if i * PAGE_SIZE + j < |data| then data[i * PAGE_SIZE + j] else 0)
  }

  /** The pages a mapping of `n` pages starts with; an anonymous one reads as an empty file. */
  function FilePages(data: seq<Byte>, n: nat): (ds: seq<PageData>)
    ensures |ds| == n && forall i | 0 <= i < n :: ds[i] == FilePage(data, i)
  {
    seq(n, i requires 0 <= i < n => FilePage(data, i))
  }

  predicate InHeap(base: nat, va: nat) {
    HeapStart(base) <= va < HeapMax(base)
  }

  predicate LengthOk(len: nat) {
    0 < len <= MMAP_PAGES * PAGE_SIZE
  }

  function PagesIn(len: nat): (n: nat)
    ensures (n - 1) * PAGE_SIZE < len <= n * PAGE_SIZE
  {
    PageUp(len) / PAGE_SIZE
  }

  /** Every page of the range is free for a mapping: outside the heap and not mapped. */
  ghost predicate RangeFree(e: Eager, r: nat, base: nat, v: nat, n: nat) {
    forall w | v <= w < v + n :: (r, w) !in e && !InHeap(base, w * PAGE_SIZE)
  }

  /**
   `user_mmap`: succeeds exactly for a page-aligned, nonzero address and 1 to 16 pages that are free and
   fit the free frames, and then adds those pages, holding the file or zeros; otherwise, also when frames
   run out part of the way, everything is as it was.
   */
  method UserMmap(vm: Vmm, r: nat, base: nat, hint: nat, len: nat, data: seq<Byte>) returns (ok: bool)
    requires vm.Valid() && IsRoot(vm.owner, r)
    requires LengthOk(len) ==> hint + PagesIn(len) * PAGE_SIZE <= USER_PAGES * PAGE_SIZE
    modifies vm`tables, vm`owner, vm`leaf, vm`mem, vm`held
    modifies vm.share`counts, vm.share.ents, vm.pool`freeCount, vm.pool`free, vm.pool.bits
    ensures vm.Valid() && vm.held == old(vm.held)
    ensures ok <==> hint != 0 && hint % PAGE_SIZE == 0 && LengthOk(len)
                    && RangeFree(old(View(vm.Spaces())), r, base, hint / PAGE_SIZE, PagesIn(len))
                    && RunFits(old(vm.owner), r, hint / PAGE_SIZE, PagesIn(len), |old(vm.pool.free)|)
    ensures ok ==> View(vm.Spaces())
                   == WithPages(old(View(vm.Spaces())), r, hint / PAGE_SIZE, FilePages(data, PagesIn(len)))
    ensures ok ==> 0 < len <= 0x1_0000
    ensures ok ==> ReadsAs(View(vm.Spaces()), r, hint / PAGE_SIZE, PagesIn(len), data)
                   && Elsewhere(old(View(vm.Spaces())), View(vm.Spaces()), r, hint / PAGE_SIZE, hint / PAGE_SIZE + PagesIn(len))
    ensures !ok ==> AsBefore(old(vm.Spaces()), vm.Spaces())
    ensures (!ok && hint != 0 && hint % PAGE_SIZE == 0 && LengthOk(len)
             && RangeFree(old(View(vm.Spaces())), r, base, hint / PAGE_SIZE, PagesIn(len))) ==> |vm.pool.free| <= PagesIn(len)
  {
    hide Tied, LeafFrames, ShareTable.Valid, FramePool.Valid, Partition, CountsOk;
    hide Vmm.Parts, WellFormed, OthersKept, PagesOk, View, SameMappings, WithPages, RunFits, ReadsAs, Elsewhere;
    AsBeforeSelf(vm.Spaces());
    if hint == 0 || hint % PAGE_SIZE != 0 || !LengthOk(len) {
      return false;
    }
    var n, v := PagesIn(len), hint / PAGE_SIZE;
    ViewKeys(vm.Spaces());
    var i := 0;
    while i < n
      invariant 0 <= i <= n
      invariant RangeFree(View(vm.Spaces()), r, base, v, i)
      modifies {}
    {
      if InHeap(base, (v + i) * PAGE_SIZE) {
        return false;
      }
      var mapped, phys := vm.Translate(r, (v + i) * PAGE_SIZE);
      if mapped {
        return false;
      }
      i := i + 1;
    }
    FilePagesRead(View(vm.Spaces()), r, v, n, data);
    ok := MapRun(vm, r, v, FilePages(data, n));
  }

  /** Every page of the range is mapped and is neither program, stack nor heap. */
  ghost predicate RangeMapped(e: Eager, r: nat, base: nat, v: nat, n: nat) {
    forall w | v <= w < v + n ::
      (r, w) in e && !InHeap(base, w * PAGE_SIZE) && !(base <= w * PAGE_SIZE < HeapStart(base))
  }

  /** `user_munmap`: removes the whole range, or nothing. */
  method UserMunmap(vm: Vmm, r: nat, base: nat, va: nat, len: nat) returns (ok: bool)
    requires vm.Valid() && IsRoot(vm.owner, r)
    requires LengthOk(len) ==> va + PagesIn(len) * PAGE_SIZE <= USER_PAGES * PAGE_SIZE
    modifies vm`tables, vm`leaf, vm.share`counts, vm.share.ents, vm.pool`freeCount, vm.pool`free, vm.pool.bits
    ensures vm.Valid()
    ensures ok <==> va != 0 && va % PAGE_SIZE == 0 && LengthOk(len)
                    && RangeMapped(old(View(vm.Spaces())), r, base, va / PAGE_SIZE, PagesIn(len))
    ensures ok ==> View(vm.Spaces())
                   == WithoutPages(old(View(vm.Spaces())), r, va / PAGE_SIZE, va / PAGE_SIZE + PagesIn(len))
    ensures ok ==> Gone(View(vm.Spaces()), r, va / PAGE_SIZE, va / PAGE_SIZE + PagesIn(len))
                   && Elsewhere(old(View(vm.Spaces())), View(vm.Spaces()), r, va / PAGE_SIZE, va / PAGE_SIZE + PagesIn(len))
    ensures !ok ==> vm.Spaces() == old(vm.Spaces())
  {
    hide Tied, LeafFrames, ShareTable.Valid, FramePool.Valid, Partition, CountsOk;
    hide Vmm.Parts, WellFormed, OthersKept, PagesOk, View, Elsewhere, Gone;
    if va == 0 || va % PAGE_SIZE != 0 || !LengthOk(len) {
      return false;
    }
    var n, v := PagesIn(len), va / PAGE_SIZE;
    ViewKeys(vm.Spaces());
    var i := 0;
    while i < n
      invariant 0 <= i <= n
      invariant RangeMapped(View(vm.Spaces()), r, base, v, i)
      modifies {}
    {
      var page := (v + i) * PAGE_SIZE;
      if (base <= page < HeapStart(base)) || InHeap(base, page) {
        return false;
      }
      var mapped, phys := vm.Translate(r, page);
      if !mapped {
        return false;
      }
      i := i + 1;
    }
    WithoutIsGone(View(vm.Spaces()), r, v, v + n);
    UnmapUp(vm, r, v, v + n);
    return true;
  }

  ghost function WithProtection(e: Eager, r: nat, lo: nat, hi: nat, wr: bool): Eager {
    map k | k in e :: if k.0 == r && lo <= k.1 < hi then e[k].(writable := wr) else e[k]
  }

  lemma NoneProtected(e: Eager, r: nat, v: nat, wr: bool)
    ensures WithProtection(e, r, v, v, wr) == e
  {
  }

  lemma OneMoreProtected(e: Eager, r: nat, lo: nat, v: nat, wr: bool)
    requires lo <= v && (r, v) in e
    ensures WithProtection(e, r, lo, lo, wr) == e
    ensures (r, v) in WithProtection(e, r, lo, v, wr)
    ensures WithProtection(e, r, lo, v, wr)[(r, v) := WithProtection(e, r, lo, v, wr)[(r, v)].(writable := wr)]
         == WithProtection(e, r, lo, v + 1, wr)
  {
  }

  /** `user_mprotect`: sets the permission of the whole range, or of nothing; `prot` is 1, 2 or 3. */
  method UserMprotect(vm: Vmm, r: nat, va: nat, len: nat, prot: nat) returns (ok: bool)
    requires vm.Valid() && IsRoot(vm.owner, r)
    requires LengthOk(len) ==> va + PagesIn(len) * PAGE_SIZE <= USER_PAGES * PAGE_SIZE
    modifies vm`tables, vm`leaf
    ensures vm.Valid()
    ensures ok <==> va != 0 && va % PAGE_SIZE == 0 && LengthOk(len) && 1 <= prot <= 3
                    && forall v | va / PAGE_SIZE <= v < va / PAGE_SIZE + PagesIn(len) :: (r, v) in old(View(vm.Spaces()))
    ensures View(vm.Spaces())
         == if ok then WithProtection(old(View(vm.Spaces())), r, va / PAGE_SIZE, va / PAGE_SIZE + PagesIn(len), prot != 1)
            else old(View(vm.Spaces()))
    ensures ok ==> var v, n := va / PAGE_SIZE, PagesIn(len);
      && Guarded(old(View(vm.Spaces())), View(vm.Spaces()), r, v, v + n, prot == 2 || prot == 3)
      && Elsewhere(old(View(vm.Spaces())), View(vm.Spaces()), r, v, v + n)
  {
    hide Tied, LeafFrames, ShareTable.Valid, FramePool.Valid, Partition, CountsOk;
    hide Vmm.Parts, WellFormed, OthersKept, PagesOk, View, Elsewhere, Guarded;
    if va == 0 || va % PAGE_SIZE != 0 || !LengthOk(len) || !(1 <= prot <= 3) {
      return false;
    }
    var n, v, wr := PagesIn(len), va / PAGE_SIZE, prot != 1;
    ghost var e0 := View(vm.Spaces());
    ViewKeys(vm.Spaces());
    var i := 0;
    while i < n
      invariant 0 <= i <= n
      invariant forall w | v <= w < v + i :: (r, w) in e0
      modifies {}
    {
      var mapped, phys := vm.Translate(r, (v + i) * PAGE_SIZE);
      if !mapped {
        return false;
      }
      i := i + 1;
    }
    ProtectedIsGuarded(e0, r, v, v + n, wr);
    ProtectRun(vm, r, v, n, wr);
    return true;
  }

  method ProtectRun(vm: Vmm, r: nat, v: nat, n: nat, wr: bool)
    requires vm.Valid() && IsRoot(vm.owner, r) && v + n <= USER_PAGES
    requires forall w | v <= w < v + n :: (r, w) in View(vm.Spaces())
    modifies vm`tables, vm`leaf
    ensures vm.Valid()
    ensures View(vm.Spaces()) == WithProtection(old(View(vm.Spaces())), r, v, v + n, wr)
  {
    hide Tied, LeafFrames, ShareTable.Valid, FramePool.Valid, Partition, CountsOk;
    hide Vmm.Parts, WellFormed, PagesOk, View, Structure, WithProtection;
    ghost var e0 := View(vm.Spaces());
    NoneProtected(e0, r, v, wr);
    var i := 0;
    while i < n
      invariant 0 <= i <= n
      invariant vm.Valid()
      invariant View(vm.Spaces()) == WithProtection(e0, r, v, v + i, wr)
    {
      OneMoreProtected(e0, r, v, v + i, wr);
      ProtectOne(vm, r, v + i, wr);
      i := i + 1;
    }
  }

  method ProtectOne(vm: Vmm, r: nat, v: nat, wr: bool)
    requires vm.Valid() && IsRoot(vm.owner, r) && v < USER_PAGES && (r, v) in View(vm.Spaces())
    modifies vm`tables, vm`leaf
    ensures vm.Valid()
    ensures View(vm.Spaces()) == old(View(vm.Spaces()))[(r, v) := old(View(vm.Spaces()))[(r, v)].(writable := wr)]
  {
    hide Tied, LeafFrames, ShareTable.Valid, FramePool.Valid, Partition, CountsOk;
    hide Vmm.Parts, WellFormed, OthersKept, PagesOk, View, ProtectPage;
    ViewKeys(vm.Spaces());
    ProtectPageCorrect(vm.Spaces(), (r, v), wr);
    var ok := vm.ProtectUser(r, v * PAGE_SIZE, wr);
  }
}
