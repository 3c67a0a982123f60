/**
 An address space of `kernel/vmm.c` with one page mapped twice.
 */
module MemoryFailures {
  import opened CopyOnWrite
  import opened PageTables
  import opened Mappings
  import opened Forks
  import opened FramePools
  import opened ShareTables
  import opened VirtualMemory

  /** One megabyte of memory from the second megabyte on. */
  const REGION: Region := Region(0x20_0000, 0x10_0000, E820_USABLE)

  lemma RegionHasFrames(f: nat)
    requires 0x200 <= f < 0x300
    ensures TakenByOne(f, [REGION]) && MaxEnd([REGION]) == 0x30_0000
  {
    assert Taken(f, [REGION][0]);
    assert [REGION][..0] == [];
  }

  lemma AtLeastSix(free: set<nat>)
    requires forall f | 0x200 <= f < 0x206 :: f in free
    ensures |free| >= 6
  {
    var six: set<nat> := {0x200, 0x201, 0x202, 0x203, 0x204, 0x205};
    assert free == six + (free - six);
  }

  lemma FewWays(v: nat, has: set<Way>)
    ensures |PageWays(v) - has| <= 3
  {
    hide PathOf;
    Subset(PageWays(v) - has, PageWays(v));
  }

  /** A machine with six frames or more. */
  method SmallMachine() returns (pool: FramePool)
    ensures fresh(pool) && fresh(pool.bits) && pool.Valid() && |pool.free| >= 6
  {
    hide FramePool.Valid, TakenByOne, MaxEnd;
    var entries := seq(E820_MAX, _ => REGION);
    pool := new FramePool(24, 1, entries);
    assert entries[..1] == [REGION];
    forall f | 0x200 <= f < 0x206 ensures f in pool.free {
      RegionHasFrames(f);
    }
    AtLeastSix(pool.free);
  }

  /** A space without pages. */
  method NewSpace() returns (vm: Vmm, r: nat)
    ensures fresh(vm) && fresh(vm.share) && fresh(vm.share.ents) && fresh(vm.pool) && fresh(vm.pool.bits)
    ensures vm.Valid() && IsRoot(vm.owner, r) && |vm.pool.free| >= 5 && vm.leaf == map[] && vm.held == {}
  {
    hide FramePool.Valid, ShareTable.Valid, Vmm.Sound, Inv;
    var pool := SmallMachine();
    vm := new Vmm(pool, seq(ENTRIES, _ => ZERO));
    r := vm.ClonePml4();
  }

  lemma NewHeld(universe: set<nat>, free: set<nat>, tables: set<nat>, pages: set<nat>, held: set<nat>, f: nat)
    requires Partition(universe, free, tables, pages, held) && f in free
    ensures f !in held && |free - {f}| == |free| - 1
  {
  }

  method OneFrame(vm: Vmm) returns (phys: nat)
    requires vm.Valid() && |vm.pool.free| >= 1
    modifies vm`mem, vm`held, vm.pool`freeCount, vm.pool`free, vm.pool.bits
    ensures vm.Valid() && |vm.pool.free| == |old(vm.pool.free)| - 1 && phys % PAGE_SIZE == 0
    ensures vm.held == old(vm.held) + {phys / PAGE_SIZE} && phys / PAGE_SIZE !in old(vm.held)
    ensures Backed(vm.mem, phys / PAGE_SIZE) && forall f <- old(vm.mem) | f != phys / PAGE_SIZE :: f in vm.mem && vm.mem[f] == old(vm.mem)[f]
  {
    hide FramePool.Valid, ShareTable.Valid, Inv, Structure, Vmm.Parts, LeafFrames, Step, Enabled, Partition;
    ghost var s := vm.Spaces();
    phys := vm.AllocPage();
    NewHeld(vm.universe, old(vm.pool.free), vm.tables.Keys, LeafFrames(vm.leaf), old(vm.held), phys / PAGE_SIZE);
    FilledIs(s, phys / PAGE_SIZE, ZeroPage());
  }

  /** The second frame goes over the first, which nobody has any more. */
  method MapTwice() returns (vm: Vmm, first: bool, second: bool)
    ensures first && second && !vm.Valid()
  {
    hide FramePool.Valid, ShareTable.Valid, Vmm.Sound, Inv, Present, PageWays, OthersKept, Structure;
    var r;
    vm, r := NewSpace();
    var a := OneFrame(vm);
    var b := OneFrame(vm);
    FewWays(0, Present(vm.owner, r));
    first := vm.MapUser(r, 0, a);
    assert PageWays(0) - Present(vm.owner, r) == {};
    second := vm.MapUser(r, 0, b);
  }
}
