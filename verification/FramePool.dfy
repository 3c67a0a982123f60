/**
 The physical frame allocator of `kernel/pmm.c`: one bit per frame, set while the frame is in
 use, and a counter of the clear bits.
 */
module FramePools {

  const FRAME_SIZE: nat := 0x1000
  const KERNEL_PHYS: nat := 0x100000
  const KERNEL_BYTES: nat := 304 * 512
  const IDENTITY_END: nat := 0x200000
  const TWO64: nat := 0x1_0000_0000_0000_0000
  const E820_MAX: nat := 32
  const E820_USABLE: nat := 1

  // ----- bits -----

  predicate Bit(b: bv8, i: nat)
    requires i < 8
  {
    b & (1 << i) != 0
  }

  function BitSet(b: bv8, i: nat): bv8
    requires i < 8
  {
    b | (1 << i)
  }

  function BitCleared(b: bv8, i: nat): bv8
    requires i < 8
  {
    b & !(1 << i)
  }

  lemma BitAfterSet(b: bv8, i: nat, j: nat)
    requires i < 8 && j < 8
    ensures Bit(BitSet(b, i), j) == (j == i || Bit(b, j))
  {
    BitMask(i, j);
    var m: bv8, n: bv8 := 1 << i, 1 << j;
    assert (b | m) & n == (b & n) | (m & n);
  }

  lemma BitAfterClear(b: bv8, i: nat, j: nat)
    requires i < 8 && j < 8
    ensures Bit(BitCleared(b, i), j) == (j != i && Bit(b, j))
  {
    BitMask(i, j);
    var m: bv8, n: bv8 := 1 << i, 1 << j;
    if i == j {
      assert (b & !m) & m == 0;
    } else {
      assert m & n == 0 ==> (b & !m) & n == b & n;
    }
  }

  lemma BitMask(i: nat, j: nat)
    requires i < 8 && j < 8
    ensures ((1 as bv8) << i) & ((1 as bv8) << j) == if i == j then 1 << i else 0
    ensures (1 as bv8) << i != 0
  {
    assert i == 0 || i == 1 || i == 2 || i == 3 || i == 4 || i == 5 || i == 6 || i == 7;
    assert j == 0 || j == 1 || j == 2 || j == 3 || j == 4 || j == 5 || j == 6 || j == 7;
  }

  predicate InUse(bits: seq<bv8>, f: nat)
    requires f / 8 < |bits|
  {
    Bit(bits[f / 8], f % 8)
  }

  ghost predicate Agrees(bits: seq<bv8>, f: nat, free: set<nat>)
    requires f / 8 < |bits|
  {
    f in free <==> !InUse(bits, f)
  }

  /** `free` is the set of frames below `n` whose bit is clear. */
  ghost predicate Represents(bits: seq<bv8>, n: nat, free: set<nat>)
    requires n <= 8 * |bits|
  {
    && (forall f <- free :: f < n)
    && (forall f {:trigger Agrees(bits, f, free)} | 0 <= f < n :: Agrees(bits, f, free))
  }

  lemma RepresentsAfterByte(bits: seq<bv8>, n: nat, free: set<nat>, f: nat, b: bv8, used: bool)
    requires f < n <= 8 * |bits| && Represents(bits, n, free)
    requires forall j | 0 <= j < 8 :: Bit(b, j) == if j == f % 8 then used else Bit(bits[f / 8], j)
    ensures Represents(bits[f / 8 := b], n, if used then free - {f} else free + {f})
  {
    var bits', free' := bits[f / 8 := b], if used then free - {f} else free + {f};
    forall g | 0 <= g < n ensures Agrees(bits', g, free') {
      assert Agrees(bits, g, free);
      assert g / 8 == f / 8 ==> bits'[g / 8] == b;
    }
  }

  lemma AllOnes(bits: seq<bv8>, n: nat)
    requires n <= 8 * |bits| && forall i | 0 <= i < |bits| :: bits[i] == 0xFF
    ensures Represents(bits, n, {})
  {
    forall f | 0 <= f < n ensures Agrees(bits, f, {}) {
      BitMask(f % 8, f % 8);
      var m: bv8 := 1 << (f % 8);
      assert 0xFF & m == m;
    }
  }

  /** Setting a bit takes its frame out of the free set. */
  lemma RepresentsAfterSet(bits: seq<bv8>, n: nat, free: set<nat>, f: nat)
    requires f < n <= 8 * |bits| && Represents(bits, n, free)
    ensures Represents(bits[f / 8 := BitSet(bits[f / 8], f % 8)], n, free - {f})
  {
    hide BitSet, Bit;
    var b := BitSet(bits[f / 8], f % 8);
    forall j | 0 <= j < 8 ensures Bit(b, j) == (j == f % 8 || Bit(bits[f / 8], j)) {
      BitAfterSet(bits[f / 8], f % 8, j);
    }
    RepresentsAfterByte(bits, n, free, f, b, true);
  }

  /** Clearing a bit puts its frame into the free set. */
  lemma RepresentsAfterClear(bits: seq<bv8>, n: nat, free: set<nat>, f: nat)
    requires f < n <= 8 * |bits| && Represents(bits, n, free)
    ensures Represents(bits[f / 8 := BitCleared(bits[f / 8], f % 8)], n, free + {f})
  {
    hide BitCleared, Bit;
    var b := BitCleared(bits[f / 8], f % 8);
    forall j | 0 <= j < 8 ensures Bit(b, j) == (j != f % 8 && Bit(bits[f / 8], j)) {
      BitAfterClear(bits[f / 8], f % 8, j);
    }
    RepresentsAfterByte(bits, n, free, f, b, false);
  }

  // ----- memory map -----

  datatype Region = Region(base: nat, length: nat, kind: nat)

  predicate Word64(v: nat) {
    v < TWO64
  }

  function AlignUp(v: nat): (r: nat)
    requires Word64(v)
    ensures r % FRAME_SIZE == 0 && Word64(r)
    ensures v <= TWO64 - FRAME_SIZE ==> v <= r < v + FRAME_SIZE
    ensures v > TWO64 - FRAME_SIZE ==> r == 0
  {
    (v + FRAME_SIZE - 1) % TWO64 / FRAME_SIZE * FRAME_SIZE
  }

  function AlignDown(v: nat): (r: nat)
    ensures r % FRAME_SIZE == 0 && r <= v < r + FRAME_SIZE
  {
    v / FRAME_SIZE * FRAME_SIZE
  }

  /** The region is usable, not empty, and does not run past the end of the address range. */
  predicate Counts(e: Region) {
    e.kind == E820_USABLE && 0 < e.length && e.base + e.length < TWO64
  }

  /** The whole frame lies inside the region. */
  predicate Inside(f: nat, e: Region) {
    e.base <= f * FRAME_SIZE && (f + 1) * FRAME_SIZE <= e.base + e.length
  }

  /** The frames the allocator takes from a region: aligned inwards, in 64-bit arithmetic. */
  predicate Taken(f: nat, e: Region)
    requires Word64(e.base)
  {
    Counts(e) && AlignUp(e.base) <= f * FRAME_SIZE < AlignDown(e.base + e.length)
  }

  /** The frame starts in the given range of addresses. */
  predicate Between(f: nat, lo: nat, hi: nat) {
    lo <= f * FRAME_SIZE < hi
  }

  lemma OneFrameMore(g: nat, lo: nat, hi: nat)
    requires hi == g * FRAME_SIZE && lo <= hi
    ensures forall f: nat :: Between(f, lo, hi + FRAME_SIZE) <==> Between(f, lo, hi) || f == g
  {
  }

  lemma NextUp(addr: nat)
    requires addr % FRAME_SIZE == 0
    ensures forall f: nat :: addr + FRAME_SIZE <= f * FRAME_SIZE <==> addr <= f * FRAME_SIZE && f != addr / FRAME_SIZE
  {
    var k := addr / FRAME_SIZE;
    assert addr == k * FRAME_SIZE;
  }

  /** Such a region: fifty bytes in the last page of the address range, from which frame 0 is taken. */
  lemma TakenOutside()
    ensures var e := Region(TWO64 - 100, 50, E820_USABLE);
      Word64(e.base) && Counts(e) && Taken(0, e) && !Inside(0, e)
  {
  }

  /**
   The frames taken from a region are exactly the frames inside it, if it is usable and ends below 2^64, unless it
   starts past the last page boundary of the address range: there, aligning the start up wraps to 0.
   */
  lemma TakenIsInside(e: Region)
    requires Word64(e.base)
    ensures (forall f: nat :: Taken(f, e) <==> e.kind == 1 && e.base + e.length < 0x1_0000_0000_0000_0000 && Inside(f, e)) <==>
            !(e.kind == 1 && 0 < e.length && e.base + e.length < 0x1_0000_0000_0000_0000 && e.base > 0xFFFF_FFFF_FFFF_F000)
  {
    if Counts(e) && e.base > TWO64 - FRAME_SIZE {
      assert Taken(0, e) && !Inside(0, e);
    } else if Counts(e) {
      forall f: nat ensures Taken(f, e) <==> Inside(f, e) {
        AlignedBounds(f, e.base, e.base + e.length);
      }
    }
  }

  lemma AlignedBounds(f: nat, lo: nat, hi: nat)
    requires lo <= TWO64 - FRAME_SIZE
    ensures AlignUp(lo) <= f * FRAME_SIZE <==> lo <= f * FRAME_SIZE
    ensures f * FRAME_SIZE < AlignDown(hi) <==> (f + 1) * FRAME_SIZE <= hi
  {
    var a := AlignUp(lo) / FRAME_SIZE;
    assert AlignUp(lo) == a * FRAME_SIZE;
    assert AlignDown(hi) == hi / FRAME_SIZE * FRAME_SIZE;
  }

  const BITMAP_PHYS: nat := (KERNEL_PHYS + KERNEL_BYTES + FRAME_SIZE - 1) / FRAME_SIZE * FRAME_SIZE
  const ROOM_FRAMES: nat := (IDENTITY_END - BITMAP_PHYS) * 8

  /** One past the last usable byte. */
  function MaxEnd(es: seq<Region>): nat {
    if es == [] then 0
    else
      var e, m := es[|es| - 1], MaxEnd(es[..|es| - 1]);
      if Counts(e) && e.base + e.length > m then e.base + e.length else m
  }

  method UsableEnd(es: seq<Region>) returns (m: nat)
    ensures m == MaxEnd(es)
    ensures forall e <- es :: Counts(e) ==> e.base + e.length <= m
    ensures m == 0 || exists e <- es :: Counts(e) && e.base + e.length == m
  {
    m := 0;
    for i := 0 to |es|
      invariant m == MaxEnd(es[..i])
      invariant forall j | 0 <= j < i :: Counts(es[j]) ==> es[j].base + es[j].length <= m
      invariant m == 0 || exists j :: 0 <= j < i && Counts(es[j]) && es[j].base + es[j].length == m
    {
      assert es[..i + 1][..i] == es[..i];
      if Counts(es[i]) && es[i].base + es[i].length > m {
        m := es[i].base + es[i].length;
      }
    }
    assert es[..|es|] == es;
  }

  ghost predicate TakenByOne(f: nat, es: seq<Region>)
    requires forall e <- es :: Word64(e.base)
  {
    exists i | 0 <= i < |es| :: Taken(f, es[i])
  }

  /** The frames from `frame` on are a run of `pages` free ones at or above 2 MiB. */
  ghost predicate FreeRun(free: set<nat>, frame: nat, pages: nat) {
    IDENTITY_END <= frame * FRAME_SIZE && forall g | frame <= g < frame + pages :: g in free
  }

  lemma NoRun(free: set<nat>, n: nat, pages: nat, frame: nat)
    requires forall f <- free :: f < n
    requires 0 < pages
    requires frame + pages > n || IDENTITY_END / FRAME_SIZE >= n
    requires forall g: nat | g < frame :: !FreeRun(free, g, pages)
    ensures forall g: nat :: !FreeRun(free, g, pages)
  {
    forall g: nat ensures !FreeRun(free, g, pages) {
      assert FreeRun(free, g, pages) ==> g in free && g + pages - 1 in free;
    }
  }

  class FramePool {
    const bits: array<bv8>
    var frameCount: nat
    var freeCount: nat
    var reservedEnd: nat
    /** The frames whose bit is clear. */
    ghost var free: set<nat>

    ghost predicate Counted()
      reads this, bits
    {
      && frameCount <= 8 * bits.Length
      && Represents(bits[..], frameCount, free)
      && freeCount == |free|
    }

    ghost predicate Valid()
      reads this, bits
    {
      && Counted()
      && (0 < frameCount ==> 0 < reservedEnd)
      && forall f <- free :: reservedEnd <= f * FRAME_SIZE
    }

    /**
     `pmm_init`: the frames that end up free are those taken from a usable region, below the limit
     of the bitmap and above the kernel and the bitmap itself.
     */
    constructor (entrySize: nat, count: nat, entries: seq<Region>)
      requires |entries| == E820_MAX && forall e <- entries :: Word64(e.base) && Word64(e.length)
      ensures Valid() && fresh(bits)
      ensures
        var es := entries[..if entrySize != 24 then 0 else if count > E820_MAX then E820_MAX else count];
        && frameCount == (if MaxEnd(es) / FRAME_SIZE > ROOM_FRAMES then ROOM_FRAMES else MaxEnd(es) / FRAME_SIZE)
        && (if frameCount == 0 then reservedEnd == 0
            else reservedEnd % 0x1000 == 0 && reservedEnd - 0x1000 < BITMAP_PHYS + (frameCount + 7) / 8 <= reservedEnd <= IDENTITY_END)
        && forall f: nat :: f in free <==> f < frameCount && reservedEnd <= f * FRAME_SIZE && TakenByOne(f, es)
    {
      hide Represents, TakenByOne, MaxEnd;
      var n := if entrySize != 24 then 0 else if count > E820_MAX then E820_MAX else count;
      var es := entries[..n];
      var maxPhys := UsableEnd(es);
      var frames := if maxPhys / FRAME_SIZE > ROOM_FRAMES then ROOM_FRAMES else maxPhys / FRAME_SIZE;
      frameCount := frames;
      freeCount := 0;
      reservedEnd := 0;
      free := {};
      bits := new bv8[(frames + 7) / 8](_ => 0xFF);
      new;
      AllOnes(bits[..], frameCount);
      Regions(es);
      if 0 < frameCount {
        var top := AlignUp(BITMAP_PHYS + (frameCount + 7) / 8);
        Reserve(top);
        reservedEnd := top;
      }
    }

    method Regions(es: seq<Region>)
      requires Counted() && free == {} && forall e <- es :: Word64(e.base) && Word64(e.length)
      modifies this`freeCount, this`free, bits
      ensures Counted()
      ensures forall f: nat :: f in free <==> f < frameCount && TakenByOne(f, es)
    {
      var i := 0;
      while i < |es|
        invariant 0 <= i <= |es|
        invariant Counted()
        invariant forall f: nat :: f in free <==> f < frameCount && exists j | 0 <= j < i :: Taken(f, es[j])
      {
        if es[i].kind == E820_USABLE {
          RegionFree(es[i]);
        }
        i := i + 1;
      }
    }

    method RegionFree(e: Region)
      requires Counted() && Word64(e.base) && Word64(e.length) && e.kind == E820_USABLE
      modifies this`freeCount, this`free, bits
      ensures Counted()
      ensures forall f: nat :: f in free <==> f in old(free) || (f < frameCount && Taken(f, e))
    {
      hide Counted, AlignUp, AlignDown;
      if e.length == 0 || e.base + e.length >= TWO64 {
        return;
      }
      ghost var was := free;
      var start, end := AlignUp(e.base), AlignDown(e.base + e.length);
      var lo := start;
      while start < end
        invariant Counted() && start % FRAME_SIZE == 0 && lo <= start && (start <= end || start == lo)
        invariant forall f: nat :: f in free <==> f in was || (f < frameCount && Between(f, lo, start))
      {
        OneFrameMore(start / FRAME_SIZE, lo, start);
        MarkFree(start / FRAME_SIZE);
        start := start + FRAME_SIZE;
      }
    }

    method Reserve(top: nat)
      requires Counted() && top % FRAME_SIZE == 0
      modifies this`freeCount, this`free, bits
      ensures Counted()
      ensures forall f: nat :: f in free <==> f in old(free) && top <= f * FRAME_SIZE
    {
      hide Counted;
      ghost var was := free;
      var addr := 0;
      while addr < top
        invariant Counted()
        invariant addr % FRAME_SIZE == 0 && addr <= top
        invariant forall f: nat :: f in free <==> f in was && addr <= f * FRAME_SIZE
      {
        NextUp(addr);
        MarkUsed(addr / FRAME_SIZE);
        addr := addr + FRAME_SIZE;
      }
    }

    method IsClear(frame: nat) returns (clear: bool)
      requires Counted() && frame < frameCount
      ensures clear <==> frame in free
    {
      assert Agrees(bits[..], frame, free);
      clear := !Bit(bits[frame / 8], frame % 8);
    }

    method PutByte(i: nat, b: bv8)
      requires i < bits.Length
      modifies bits
      ensures bits[..] == old(bits[..])[i := b]
    {
      bits[i] := b;
    }

    method MarkUsed(frame: nat)
      requires Counted()
      modifies this`freeCount, this`free, bits
      ensures Counted()
      ensures free == old(free) - {frame}
    {
      hide Agrees, BitSet, BitCleared;
      if frame >= frameCount {
        return;
      }
      var clear := IsClear(frame);
      if clear {
        RepresentsAfterSet(bits[..], frameCount, free, frame);
        PutByte(frame / 8, BitSet(bits[frame / 8], frame % 8));
        freeCount := freeCount - 1;
        free := free - {frame};
      }
    }

    method MarkFree(frame: nat)
      requires Counted()
      modifies this`freeCount, this`free, bits
      ensures Counted()
      ensures free == if frame < frameCount then old(free) + {frame} else old(free)
    {
      hide Agrees, BitSet, BitCleared;
      if frame >= frameCount {
        return;
      }
      var clear := IsClear(frame);
      if !clear {
        RepresentsAfterClear(bits[..], frameCount, free, frame);
        PutByte(frame / 8, BitCleared(bits[frame / 8], frame % 8));
        freeCount := freeCount + 1;
        free := free + {frame};
      }
    }

    /** First fit: the lowest free frame not below `start`, as an address; 0 if there is none. */
    method AllocFrame(start: nat) returns (phys: nat)
      requires Valid()
      modifies this`freeCount, this`free, bits
      ensures Valid()
      ensures phys == 0 <==> forall f <- old(free) :: f < start
      ensures phys == 0 ==> free == old(free)
      ensures phys != 0 ==> phys % FRAME_SIZE == 0 && phys / FRAME_SIZE in old(free)
      ensures phys != 0 ==> free == old(free) - {phys / FRAME_SIZE}
      ensures phys != 0 ==> forall f <- old(free) :: f < start <= phys / FRAME_SIZE || start <= phys / FRAME_SIZE <= f
    {
      var frame := start;
      while frame < frameCount
        invariant forall f <- free :: f < start || frame <= f
        invariant start <= frame
        modifies {}
      {
        var clear := IsClear(frame);
        if clear {
          break;
        }
        frame := frame + 1;
      }
      if frame < frameCount {
        assert reservedEnd <= frame * FRAME_SIZE;
        MarkUsed(frame);
        return frame * FRAME_SIZE;
      }
      return 0;
    }

    method Alloc() returns (phys: nat)
      requires Valid()
      modifies this`freeCount, this`free, bits
      ensures Valid()
      ensures phys == 0 <==> old(free) == {}
      ensures phys == 0 ==> free == old(free)
      ensures phys != 0 ==> phys % FRAME_SIZE == 0 && phys / FRAME_SIZE in old(free)
      ensures phys != 0 ==> free == old(free) - {phys / FRAME_SIZE}
    {
      phys := AllocFrame(0);
    }

    method AllocAbove(minPhys: nat) returns (phys: nat)
      requires Valid() && Word64(minPhys)
      modifies this`freeCount, this`free, bits
      ensures Valid()
      ensures phys == 0 <==> forall f <- old(free) :: f * FRAME_SIZE < if minPhys <= TWO64 - FRAME_SIZE then minPhys else 0
      ensures phys == 0 ==> free == old(free)
      ensures phys != 0 ==> phys % FRAME_SIZE == 0 && phys / FRAME_SIZE in old(free)
      ensures phys != 0 && minPhys <= TWO64 - FRAME_SIZE ==> minPhys <= phys
      ensures phys != 0 ==> free == old(free) - {phys / FRAME_SIZE}
    {
      phys := AllocFrame(AlignUp(minPhys) / FRAME_SIZE);
    }

    /** Gives a frame back.  Reserved or unaligned addresses, and addresses past the end, are ignored. */
    method Release(phys: nat)
      requires Valid()
      modifies this`freeCount, this`free, bits
      ensures Valid()
      ensures free == if reservedEnd <= phys && phys % FRAME_SIZE == 0 && phys / FRAME_SIZE < frameCount
                        then old(free) + {phys / FRAME_SIZE} else old(free)
    {
      if phys < reservedEnd || phys % FRAME_SIZE != 0 {
        return;
      }
      MarkFree(phys / FRAME_SIZE);
    }

    /** First fit for a run of consecutive frames; 0 if and only if there is no such run. */
    method AllocSpan(pages: nat) returns (phys: nat)
      requires Valid()
      modifies this`freeCount, this`free, bits
      ensures Valid()
      ensures phys == 0 <==> pages == 0 || forall g: nat :: !FreeRun(old(free), g, pages)
      ensures phys == 0 ==> free == old(free)
      ensures phys != 0 ==> phys % FRAME_SIZE == 0 && FreeRun(old(free), phys / FRAME_SIZE, pages)
      ensures phys != 0 ==> forall g: nat | g < phys / FRAME_SIZE :: !FreeRun(old(free), g, pages)
      ensures phys != 0 ==> forall f: nat :: f in free <==> f in old(free) && !(phys / FRAME_SIZE <= f < phys / FRAME_SIZE + pages)
    {
      var frame := FindSpan(pages);
      if frame == 0 {
        return 0;
      }
      phys := TakeRun(frame, pages);
    }

    method FindSpan(pages: nat) returns (frame: nat)
      requires Valid()
      ensures frame == 0 <==> pages == 0 || forall g: nat :: !FreeRun(free, g, pages)
      ensures frame != 0 ==> FreeRun(free, frame, pages)
      ensures frame != 0 ==> forall g: nat | g < frame :: !FreeRun(free, g, pages)
    {
      if pages == 0 {
        return 0;
      }
      if pages > frameCount || IDENTITY_END / FRAME_SIZE >= frameCount {
        NoRun(free, frameCount, pages, 0);
        return 0;
      }
      frame := IDENTITY_END / FRAME_SIZE;
      while frame <= frameCount - pages
        invariant IDENTITY_END / FRAME_SIZE <= frame
        invariant forall g: nat | g < frame :: !FreeRun(free, g, pages)
      {
        var i := RunLength(frame, pages);
        if i == pages {
          assert FreeRun(free, frame, pages);
          return;
        }
        assert frame + i !in free;
        frame := frame + 1;
      }
      NoRun(free, frameCount, pages, frame);
      return 0;
    }

    /** How many of the `pages` frames from `frame` on are free before the first that is not. */
    method RunLength(frame: nat, pages: nat) returns (i: nat)
      requires Valid() && frame + pages <= frameCount
      ensures i <= pages
      ensures forall g | frame <= g < frame + i :: g in free
      ensures i < pages ==> frame + i !in free
    {
      i := 0;
      while i < pages
        invariant 0 <= i <= pages
        invariant forall g | frame <= g < frame + i :: g in free
      {
        var clear := IsClear(frame + i);
        if !clear {
          break;
        }
        i := i + 1;
      }
    }

    method TakeRun(frame: nat, pages: nat) returns (phys: nat)
      requires Valid() && 0 < pages && FreeRun(free, frame, pages)
      modifies this`freeCount, this`free, bits
      ensures Valid()
      ensures phys == frame * FRAME_SIZE && 0 < phys
      ensures forall f: nat :: f in free <==> f in old(free) && !(frame <= f < frame + pages)
    {
      ghost var was := free;
      assert frame in was;
      var i := 0;
      while i < pages
        invariant 0 <= i <= pages
        invariant Counted()
        invariant forall f: nat :: f in free <==> f in was && !(frame <= f < frame + i)
      {
        MarkUsed(frame + i);
        i := i + 1;
      }
      return frame * FRAME_SIZE;
    }
  }
}
