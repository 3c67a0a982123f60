/**
 The heap of `user/malloc.c`: blocks with a 16-byte header tile the memory that `brk` granted.
 Memory is kept in granules of 16 bytes, each a header or user data.
 */
module Heaps {
  const HEADER: nat := 16
  const HEAP_GROW: nat := 0x1000
  const MAGIC: nat := 0x4d414c43
  const WORD: nat := 0x1_0000_0000_0000_0000

  datatype Cell = Head(magic: nat, free: bool, size: nat) | Data(bytes: seq<int>)

  datatype Block = Block(addr: nat, free: bool, size: nat)

  function AlignUp(value: nat, align: nat): nat
    requires align > 0
  {
    (value + align - 1) / align * align
  }

  lemma AlignUpIs(value: nat)
    ensures value <= AlignUp(value, 16) < value + 16 && AlignUp(value, 16) % 16 == 0
    ensures value <= AlignUp(value, 0x1000) < value + 0x1000 && AlignUp(value, 0x1000) % 16 == 0
  {
    AlignUp16(value);
    AlignUpPage(value);
  }

  lemma AlignUp16(value: nat)
    ensures value <= AlignUp(value, 16) < value + 16 && AlignUp(value, 16) % 16 == 0
  {
    var q := (value + 15) / 16;
    assert AlignUp(value, 16) == 16 * q;
    SixteenTimes(q);
  }

  lemma AlignUpPage(value: nat)
    ensures value <= AlignUp(value, 0x1000) < value + 0x1000 && AlignUp(value, 0x1000) % 16 == 0
  {
    var q := (value + 0xFFF) / 0x1000;
    assert AlignUp(value, 0x1000) == 0x1000 * q == 16 * (256 * q);
    SixteenTimes(256 * q);
  }

  lemma SixteenTimes(q: nat)
    ensures (16 * q) % 16 == 0
  {
  }

  function End(b: Block): nat {
    b.addr + 16 + b.size
  }

  // ----- tilings -----

  /** The blocks lie one behind the other from `base` to `end`; payloads are multiples of 16 and not empty. */
  ghost predicate Tiles(bs: seq<Block>, base: nat, end: nat) {
    && bs != [] && bs[0].addr == base && End(bs[|bs| - 1]) == end
    && (forall i | 0 <= i < |bs| - 1 :: bs[i + 1].addr == End(bs[i]))
    && (forall i | 0 <= i < |bs| :: Sized(bs[i], base))
  }

  predicate Sized(b: Block, base: nat) {
    16 <= b.size && b.size % 16 == 0 && (b.addr - base) % 16 == 0
  }

  /** Later blocks lie behind earlier ones, so payloads are disjoint. */
  lemma {:induction false} TilesApart(bs: seq<Block>, base: nat, end: nat, i: nat, j: nat)
    requires Tiles(bs, base, end) && i < j < |bs|
    ensures End(bs[i]) <= bs[j].addr
    decreases j - i
  {
    if i + 1 < j {
      TilesApart(bs, base, end, i + 1, j);
    }
  }

  lemma TilesInside(bs: seq<Block>, base: nat, end: nat, i: nat)
    requires Tiles(bs, base, end) && i < |bs|
    ensures base <= bs[i].addr && End(bs[i]) <= end && (i + 1 < |bs| ==> End(bs[i]) + 32 <= end)
  {
    if i > 0 {
      TilesApart(bs, base, end, 0, i);
    }
    if i + 1 < |bs| {
      TilesApart(bs, base, end, i, |bs| - 1);
    }
  }

  lemma TilesFacts(bs: seq<Block>, base: nat, end: nat)
    requires Tiles(bs, base, end)
    ensures bs != [] && base + 32 <= end
    ensures forall i | 0 <= i < |bs| :: (bs[i].addr + 16 - base) % 16 == 0
  {
    TilesInside(bs, base, end, 0);
    forall i | 0 <= i < |bs| ensures (bs[i].addr + 16 - base) % 16 == 0 {
      assert Sized(bs[i], base);
    }
  }

  lemma NoBlocksNoTiles(base: nat, end: nat)
    ensures !Tiles([], base, end)
  {
  }

  lemma HeadAt(bs: seq<Block>, mem: map<nat, Cell>, i: nat)
    requires Headed(bs, mem) && i < |bs|
    ensures bs[i].addr in mem && mem[bs[i].addr] == Head(MAGIC, bs[i].free, bs[i].size)
  {
  }

  /** Every block has its header in memory. */
  ghost predicate Headed(bs: seq<Block>, mem: map<nat, Cell>) {
    forall i | 0 <= i < |bs| :: bs[i].addr in mem && mem[bs[i].addr] == Head(MAGIC, bs[i].free, bs[i].size)
  }

  /** Address `a` is in the payload of a block that is in use. */
  ghost predicate InUse(bs: seq<Block>, a: nat) {
    exists i :: 0 <= i < |bs| && !bs[i].free && bs[i].addr + 16 <= a < End(bs[i])
  }

  /** The blocks in use. */
  ghost function Live(bs: seq<Block>): set<Block> {
    set b | b in bs && !b.free
  }

  // ----- taking a block -----

  /** Block `i` in use for `need` bytes; what is left over becomes a block if it is large enough. */
  function Taken(bs: seq<Block>, i: nat, need: nat): seq<Block>
    requires i < |bs| && need <= bs[i].size
  {
    var b := bs[i];
    if b.size - need >= 32 then
      bs[..i] + [Block(b.addr, false, need), Block(b.addr + 16 + need, true, b.size - need - 16)] + bs[i + 1..]
    else bs[i := b.(free := false)]
  }

  lemma TakenTiles(bs: seq<Block>, i: nat, need: nat, base: nat, end: nat)
    requires Tiles(bs, base, end) && i < |bs| && 16 <= need <= bs[i].size && need % 16 == 0
    ensures Tiles(Taken(bs, i, need), base, end)
  {
    var r := Taken(bs, i, need);
    var b := bs[i];
    assert Sized(b, base);
    SplitSized(b, need, base);
    hide Sized;
    if b.size - need >= 32 {
      var x, y := Block(b.addr, false, need), Block(b.addr + 16 + need, true, b.size - need - 16);
      assert End(x) == y.addr && End(y) == End(b);
      forall k | 0 <= k < |r| ensures r[k] == if k < i then bs[k] else if k == i then x else if k == i + 1 then y else bs[k - 1] {
      }
      forall k | 0 <= k < |r| ensures Sized(r[k], base) {
      }
      forall k | 0 <= k < |r| - 1 ensures r[k + 1].addr == End(r[k]) {
        assert k > i + 1 ==> bs[k].addr == End(bs[k - 1]);
      }
    } else {
      forall k | 0 <= k < |r| ensures Sized(r[k], base) {
      }
    }
  }

  /** A block is split exactly when what is left over holds a header and 16 bytes; no other block changes. */
  lemma TakenSplits(bs: seq<Block>, i: nat, need: nat)
    requires i < |bs| && need <= bs[i].size
    ensures var r, split := Taken(bs, i, need), bs[i].size >= need + 32;
      && |r| == |bs| + (if split then 1 else 0) && r[..i] == bs[..i] && r[if split then i + 2 else i + 1..] == bs[i + 1..]
      && r[i] == Block(bs[i].addr, false, if split then need else bs[i].size)
      && (split ==> r[i + 1].free && r[i + 1].addr == bs[i].addr + 16 + need && End(r[i + 1]) == End(bs[i]))
  {
  }

  lemma SplitSized(b: Block, need: nat, base: nat)
    requires Sized(b, base) && 16 <= need <= b.size && need % 16 == 0
    ensures Sized(Block(b.addr, false, need), base) && Sized(b.(free := false), base)
    ensures b.size - need >= 32 ==> Sized(Block(b.addr + 16 + need, true, b.size - need - 16), base)
  {
  }

  /** Exactly one more block is in use, and it was free. */
  lemma TakenLive(bs: seq<Block>, i: nat, need: nat, base: nat, end: nat)
    requires Tiles(bs, base, end) && i < |bs| && bs[i].free && need <= bs[i].size
    ensures |Taken(bs, i, need)| > i && Live(Taken(bs, i, need)) == Live(bs) + {Taken(bs, i, need)[i]}
    ensures Taken(bs, i, need)[i].addr == bs[i].addr && !Taken(bs, i, need)[i].free && need <= Taken(bs, i, need)[i].size
    ensures Taken(bs, i, need)[i] !in Live(bs)
  {
    var r := Taken(bs, i, need);
    assert bs == bs[..i] + [bs[i]] + bs[i + 1..];
    if bs[i].size - need >= 32 {
      assert r == bs[..i] + [r[i], r[i + 1]] + bs[i + 1..];
    } else {
      assert r == bs[..i] + [r[i]] + bs[i + 1..];
    }
    forall k | 0 <= k < |bs| && k != i ensures bs[k].addr != bs[i].addr {
      TilesApart(bs, base, end, if k < i then k else i, if k < i then i else k);
    }
  }

  // ----- growing -----

  /** The heap with `extra` more bytes: the last block takes them if it is free. */
  function Grown(bs: seq<Block>, base: nat, end: nat, extra: nat): seq<Block>
    requires extra >= 16
  {
    if bs == [] then [Block(base, true, extra - 16)]
    else if bs[|bs| - 1].free then bs[|bs| - 1 := bs[|bs| - 1].(size := bs[|bs| - 1].size + extra)]
    else bs + [Block(end, true, extra - 16)]
  }

  /** New bytes go to the last block if it is free, and make a block of their own otherwise; no other block changes. */
  lemma GrownJoins(bs: seq<Block>, base: nat, end: nat, extra: nat)
    requires bs != [] && extra >= 16
    ensures var r, l := Grown(bs, base, end, extra), bs[|bs| - 1];
      if l.free then |r| == |bs| && r[..|bs| - 1] == bs[..|bs| - 1] && r[|bs| - 1] == Block(l.addr, true, l.size + extra)
      else |r| == |bs| + 1 && r[..|bs|] == bs && r[|bs|] == Block(end, true, extra - 16)
  {
  }

  lemma GrownTiles(bs: seq<Block>, base: nat, end: nat, extra: nat)
    requires if bs == [] then end == base else Tiles(bs, base, end)
    requires extra >= 32 && extra % 16 == 0
    ensures Tiles(Grown(bs, base, end, extra), base, end + extra)
    ensures var r := Grown(bs, base, end, extra); r[|r| - 1].free && r[|r| - 1].size >= extra - 16
    ensures Live(Grown(bs, base, end, extra)) == Live(bs)
  {
    var r := Grown(bs, base, end, extra);
    if bs != [] {
      var l := bs[|bs| - 1];
      assert Sized(l, base);
      assert bs == bs[..|bs| - 1] + [l];
      if l.free {
        assert r == bs[..|bs| - 1] + [r[|bs| - 1]];
        assert Sized(r[|bs| - 1], base);
      } else {
        assert Sized(Block(end, true, extra - 16), base);
      }
    }
  }

  // ----- giving a block back -----

  /** Block `i` free again, joined with the block behind it if that is free. */
  function Released(bs: seq<Block>, i: nat): seq<Block>
    requires i < |bs|
  {
    var b := bs[i].(free := true);
    if i + 1 < |bs| && bs[i + 1].free then bs[..i] + [b.(size := b.size + 16 + bs[i + 1].size)] + bs[i + 2..]
    else bs[i := b]
  }

  /** A freed block joins the one behind it exactly when that is free; no other block changes. */
  lemma ReleasedJoins(bs: seq<Block>, i: nat)
    requires i < |bs|
    ensures var r, join := Released(bs, i), i + 1 < |bs| && bs[i + 1].free;
      && |r| == |bs| - (if join then 1 else 0) && r[..i] == bs[..i] && r[i + 1..] == bs[if join then i + 2 else i + 1..]
      && r[i] == Block(bs[i].addr, true, if join then bs[i].size + 16 + bs[i + 1].size else bs[i].size)
  {
  }

  lemma ReleasedTiles(bs: seq<Block>, i: nat, base: nat, end: nat)
    requires Tiles(bs, base, end) && i < |bs|
    ensures Tiles(Released(bs, i), base, end)
  {
    var r := Released(bs, i);
    assert Sized(bs[i], base) && (i + 1 < |bs| ==> Sized(bs[i + 1], base) && bs[i + 1].addr == End(bs[i]));
    assert Sized(r[i], base);
    hide Sized;
    if i + 1 < |bs| && bs[i + 1].free {
      forall k | 0 <= k < |r| ensures k != i ==> r[k] == if k < i then bs[k] else bs[k + 1] {
      }
      forall k | 0 <= k < |r| ensures Sized(r[k], base) {
      }
      forall k | 0 <= k < |r| - 1 ensures r[k + 1].addr == End(r[k]) {
        assert k > i ==> bs[k + 2].addr == End(bs[k + 1]);
      }
    }
  }

  /** Exactly this block is no longer in use. */
  lemma ReleasedLive(bs: seq<Block>, i: nat, base: nat, end: nat)
    requires Tiles(bs, base, end) && i < |bs| && !bs[i].free
    ensures Live(Released(bs, i)) == Live(bs) - {bs[i]}
  {
    var r := Released(bs, i);
    assert bs == bs[..i] + [bs[i]] + bs[i + 1..];
    if i + 1 < |bs| && bs[i + 1].free {
      assert bs[i + 1..] == [bs[i + 1]] + bs[i + 2..];
      assert r == bs[..i] + [r[i]] + bs[i + 2..];
    } else {
      assert r == bs[..i] + [r[i]] + bs[i + 1..];
    }
    forall k | 0 <= k < |bs| && k != i ensures bs[k] != bs[i] {
      TilesApart(bs, base, end, if k < i then k else i, if k < i then i else k);
    }
  }

  // ----- memory -----

  /** Headers are in nobody's payload, and what a free block holds is nobody's. */
  lemma NobodysCell(bs: seq<Block>, base: nat, end: nat, i: nat, a: nat)
    requires Tiles(bs, base, end) && i < |bs| && bs[i].addr <= a < End(bs[i]) && (a < bs[i].addr + 16 || bs[i].free)
    ensures !InUse(bs, a)
  {
    forall k | 0 <= k < |bs| && !bs[k].free ensures !(bs[k].addr + 16 <= a < End(bs[k])) {
      if k != i {
        TilesApart(bs, base, end, if k < i then k else i, if k < i then i else k);
      }
    }
  }

  lemma BeyondIsNobodys(bs: seq<Block>, base: nat, end: nat, a: nat)
    requires Tiles(bs, base, end) && a >= end
    ensures !InUse(bs, a)
  {
    forall k | 0 <= k < |bs| ensures End(bs[k]) <= end {
      TilesInside(bs, base, end, k);
    }
  }

  /** What users keep in their payloads is as it was. */
  ghost predicate Untouched(bs: seq<Block>, mem: map<nat, Cell>, mem': map<nat, Cell>) {
    forall a | a in mem && InUse(bs, a) :: a in mem' && mem'[a] == mem[a]
  }

  lemma {:induction false} AddrsApart(bs: seq<Block>, base: nat, end: nat)
    requires Tiles(bs, base, end)
    ensures forall i, j | 0 <= i < |bs| && 0 <= j < |bs| && i != j :: bs[i].addr != bs[j].addr
  {
    forall i, j | 0 <= i < j < |bs| ensures bs[i].addr != bs[j].addr {
      TilesApart(bs, base, end, i, j);
    }
  }

  /** Memory with the headers of the taken block and of what is left over. */
  function TakenMem(bs: seq<Block>, i: nat, need: nat, mem: map<nat, Cell>): map<nat, Cell>
    requires i < |bs| && need <= bs[i].size
  {
    var b := bs[i];
    if b.size - need >= 32 then
      mem[b.addr + 16 + need := Head(MAGIC, true, b.size - need - 16)][b.addr := Head(MAGIC, false, need)]
    else mem[b.addr := Head(MAGIC, false, b.size)]
  }

  lemma TakenQuiet(bs: seq<Block>, i: nat, need: nat, base: nat, end: nat, mem: map<nat, Cell>)
    requires Tiles(bs, base, end) && i < |bs| && bs[i].free && need <= bs[i].size
    ensures Untouched(bs, mem, TakenMem(bs, i, need, mem))
  {
    hide Tiles;
    NobodysCell(bs, base, end, i, bs[i].addr);
    if bs[i].size - need >= 32 {
      NobodysCell(bs, base, end, i, bs[i].addr + 16 + need);
    }
  }

  /** Writing the header of the one block that changed keeps all headers right. */
  lemma TakenHeads(bs: seq<Block>, i: nat, need: nat, base: nat, end: nat, mem: map<nat, Cell>)
    requires Tiles(bs, base, end) && i < |bs| && 16 <= need <= bs[i].size && need % 16 == 0 && Headed(bs, mem)
    ensures Headed(Taken(bs, i, need), TakenMem(bs, i, need, mem))
  {
    hide Sized;
    var r := Taken(bs, i, need);
    TakenTiles(bs, i, need, base, end);
    AddrsApart(r, base, end);
    assert r[i].addr == bs[i].addr;
    assert bs[i].size - need >= 32 ==> r[i + 1] == Block(bs[i].addr + 16 + need, true, bs[i].size - need - 16);
    if bs[i].size - need >= 32 {
      forall k | 0 <= k < |r| && k != i && k != i + 1 ensures r[k].addr in mem && mem[r[k].addr] == Head(MAGIC, r[k].free, r[k].size) {
        assert r[k] == if k < i then bs[k] else bs[k - 1];
      }
    }
  }

  lemma GrownHeads(bs: seq<Block>, base: nat, end: nat, extra: nat, mem: map<nat, Cell>)
    requires if bs == [] then end == base else Tiles(bs, base, end) && Headed(bs, mem)
    requires extra >= 32 && extra % 16 == 0
    ensures var r := Grown(bs, base, end, extra); var l := r[|r| - 1];
      Headed(r, mem[l.addr := Head(MAGIC, true, l.size)]) && Untouched(bs, mem, mem[l.addr := Head(MAGIC, true, l.size)])
  {
    var r := Grown(bs, base, end, extra);
    GrownTiles(bs, base, end, extra);
    AddrsApart(r, base, end + extra);
    if bs != [] {
      if bs[|bs| - 1].free {
        NobodysCell(bs, base, end, |bs| - 1, bs[|bs| - 1].addr);
      } else {
        BeyondIsNobodys(bs, base, end, end);
      }
    }
  }

  lemma ReleasedHeads(bs: seq<Block>, i: nat, base: nat, end: nat, mem: map<nat, Cell>)
    requires Tiles(bs, base, end) && i < |bs| && Headed(bs, mem)
    ensures var r := Released(bs, i);
      && |r| > i && Headed(r, mem[bs[i].addr := Head(MAGIC, true, r[i].size)])
      && Untouched(Without(bs, i), mem, mem[bs[i].addr := Head(MAGIC, true, r[i].size)])
  {
    WithoutUses(bs, i, bs[i].addr);
    var r := Released(bs, i);
    AddrsApart(bs, base, end);
    NobodysCell(bs, base, end, i, bs[i].addr);
    forall k | 0 <= k < |r| && k != i ensures r[k].addr in mem && mem[r[k].addr] == Head(MAGIC, r[k].free, r[k].size) && r[k].addr != bs[i].addr {
      assert r[k] == bs[k] || (k + 1 < |bs| && r[k] == bs[k + 1]);
    }
  }

  /** What `free` sees behind block `i`, and what the block's size becomes. */
  lemma ReleasedNext(bs: seq<Block>, i: nat, base: nat, end: nat, mem: map<nat, Cell>)
    requires Tiles(bs, base, end) && i < |bs| && Headed(bs, mem)
    ensures var n := End(bs[i]);
      && (n + 16 <= end <==> i + 1 < |bs|)
      && (i + 1 < |bs| ==> n != bs[i].addr && n in mem && mem[n] == Head(MAGIC, bs[i + 1].free, bs[i + 1].size))
    ensures |Released(bs, i)| > i
    ensures Released(bs, i)[i].size == bs[i].size + if i + 1 < |bs| && bs[i + 1].free then 16 + bs[i + 1].size else 0
  {
    TilesInside(bs, base, end, i);
  }

  ghost predicate Fits(b: Block, need: nat) {
    b.free && b.size >= need
  }

  ghost predicate LastFits(bs: seq<Block>, need: nat) {
    bs != [] && Fits(bs[|bs| - 1], need)
  }

  ghost predicate NoFit(bs: seq<Block>, need: nat) {
    forall k | 0 <= k < |bs| :: !Fits(bs[k], need)
  }

  /** `bs'` is `bs` with the first block that fits taken, and `p` its payload. */
  ghost predicate TakenFirst(bs: seq<Block>, bs': seq<Block>, need: nat, p: nat) {
    exists i :: 0 <= i < |bs| && Fits(bs[i], need) && (forall k | 0 <= k < i :: !Fits(bs[k], need))
                && bs' == Taken(bs, i, need) && p == bs[i].addr + 16
  }

  function Extra(need: nat): (e: nat)
    ensures e >= 32
  {
    AlignUpIs(if need < HEAP_GROW then HEAP_GROW else need);
    AlignUp(if need < HEAP_GROW then HEAP_GROW else need, HEAP_GROW)
  }

  /** A growth asks for whole pages, at least one, and not a page more than is needed. */
  lemma ExtraIs(need: nat)
    ensures exists k: nat :: Pages(k) == Extra(need)
    ensures need <= Extra(need) && 0x1000 <= Extra(need) && (Extra(need) == 0x1000 || Extra(need) < need + 0x1000)
  {
    var x := if need < HEAP_GROW then HEAP_GROW else need;
    AlignUpPage(x);
    assert AlignUp(x, 0x1000) == Pages((x + 0xFFF) / 0x1000);
  }

  function Pages(k: nat): nat {
    0x1000 * k
  }

  // ----- the heap -----

  class Heap {
    var base: nat
    var end: nat
    var mem: map<nat, Cell>
    ghost var blocks: seq<Block>

    /** Before the first growth there is no heap; afterwards the blocks tile it. */
    ghost predicate Valid()
      reads this
    {
      if base == 0 then end == 0 && blocks == [] && mem == map[] else Tiles(blocks, base, end) && Headed(blocks, mem)
    }

    /** Where a refused first growth leaves the heap: `malloc` would look for a header where there is none. */
    ghost predicate Headless()
      reads this
    {
      base != 0 && blocks == [] && base !in mem
    }

    constructor ()
      ensures Valid() && base == 0 && end == 0 && blocks == []
    {
      base, end, mem, blocks := 0, 0, map[], [];
    }

    /** `next_block`: the block behind the one at `b`, or 0 for the last. */
    method NextBlock(b: nat, ghost i: nat) returns (n: nat)
      requires Valid() && base != 0 && i < |blocks| && b == blocks[i].addr
      ensures n == if i + 1 < |blocks| then blocks[i + 1].addr else 0
    {
      TilesInside(blocks, base, end, i);
      var p := b + HEADER + mem[b].size;
      n := if p + HEADER > end then 0 else p;
    }

    /** A user's store into a block it holds. */
    method Store(a: nat, c: Cell)
      requires Valid() && base != 0 && InUse(blocks, a)
      modifies this`mem
      ensures Valid() && mem == old(mem)[a := c]
    {
      assert forall i | 0 <= i < |blocks| :: blocks[i].addr != a by {
        forall i | 0 <= i < |blocks| ensures blocks[i].addr != a {
          NobodysCell(blocks, base, end, i, blocks[i].addr);
        }
      }
      mem := mem[a := c];
    }

    /**
     `grow`.  `query` is what `brk(0)` answers, `granted` whether `brk` moves the break.  When the very first
     growth is refused the source has already set `heap_base`, and the heap has no block.
     */
    method Grow(need: nat, query: int, granted: bool) returns (ok: bool)
      requires Valid() && end + need + 0x1000 < WORD && (base == 0 ==> query + need + 0x1000 < WORD)
      modifies this
      ensures ok <==> granted && (old(base) != 0 || query > 0)
      ensures ok ==> Valid() && base == (if old(base) == 0 then query else old(base)) && end == old(end) + Extra(need) + if old(base) == 0 then base else 0
      ensures ok ==> blocks == Grown(old(blocks), base, end - Extra(need), Extra(need)) && Untouched(old(blocks), old(mem), mem)
      ensures !ok ==> blocks == old(blocks) && mem == old(mem)
      ensures Valid() <==> !(old(base) == 0 && query > 0 && !granted)
      ensures old(base) == 0 && query > 0 && !granted ==> Headless() && base == end == query
    {
      hide Tiles, Headed, AlignUp, Untouched;
      if base != 0 {
        TilesFacts(blocks, base, end);
        HeadAt(blocks, mem, |blocks| - 1);
      }
      var extra := if need < HEAP_GROW then HEAP_GROW else need;
      AlignUpIs(extra);
      extra := AlignUp(extra, HEAP_GROW);
      if base == 0 {
        if query <= 0 {
          return false;
        }
        base, end := query, query;
      }
      if !granted {
        NoBlocksNoTiles(base, end);
        return false;
      }
      var got := end + extra;
      GrownTiles(blocks, base, end, extra);
      GrownHeads(blocks, base, end, extra, mem);
      ghost var grown := Grown(blocks, base, end, extra);
      if end == base {
        mem := mem[base := Head(MAGIC, true, extra - HEADER)];
      } else {
        var b := LastBlock();
        if mem[b].free {
          mem := mem[b := mem[b].(size := mem[b].size + extra)];
        } else {
          mem := mem[end := Head(MAGIC, true, extra - HEADER)];
        }
      }
      blocks := grown;
      end := got;
      ok := true;
    }

    /** The walk of `grow` to the last block. */
    method LastBlock() returns (b: nat)
      requires Valid() && base != 0
      ensures b == blocks[|blocks| - 1].addr
    {
      b := base;
      ghost var i := 0;
      var n := NextBlock(b, i);
      while n != 0
        invariant i < |blocks| && b == blocks[i].addr && n == if i + 1 < |blocks| then blocks[i + 1].addr else 0
        decreases |blocks| - i
      {
        b, i := n, i + 1;
        n := NextBlock(b, i);
      }
      assert i + 1 == |blocks| by { TilesInside(blocks, base, end, i); }
    }

    /** The search of `malloc`: the first block that fits, or 0. */
    method FirstFit(need: nat) returns (b: nat, ghost i: nat)
      requires Valid() && base != 0
      ensures i <= |blocks| && forall k | 0 <= k < i :: !Fits(blocks[k], need)
      ensures if i < |blocks| then b == blocks[i].addr && b != 0 && Fits(blocks[i], need) else b == 0
    {
      b, i := base, 0;
      while b != 0
        invariant i <= |blocks| && forall k | 0 <= k < i :: !Fits(blocks[k], need)
        invariant if i < |blocks| then b == blocks[i].addr && b != 0 else b == 0
        decreases |blocks| - i
      {
        assert mem[b].magic == MAGIC;
        if mem[b].free && mem[b].size >= need {
          return;
        }
        b := NextBlock(b, i);
        i := i + 1;
        assert i < |blocks| ==> blocks[i].addr != 0 by {
          if i < |blocks| {
            TilesInside(blocks, base, end, i);
          }
        }
      }
    }

    /** The block of `malloc`: it is split if the rest can be a block. */
    method Take(b: nat, need: nat, ghost i: nat)
      requires Valid() && base != 0 && i < |blocks| && b == blocks[i].addr && Fits(blocks[i], need) && 16 <= need && need % 16 == 0
      modifies this`mem, this`blocks
      ensures Valid() && blocks == Taken(old(blocks), i, need) && Untouched(old(blocks), old(mem), mem)
    {
      hide Tiles, Headed, Untouched, Taken;
      HeadAt(blocks, mem, i);
      TakenTiles(blocks, i, need, base, end);
      TakenHeads(blocks, i, need, base, end, mem);
      TakenQuiet(blocks, i, need, base, end, mem);
      var leftover := mem[b].size - need;
      if leftover >= HEADER + 16 {
        mem := mem[b + HEADER + need := Head(MAGIC, true, leftover - HEADER)];
        mem := mem[b := mem[b].(size := need)];
      }
      mem := mem[b := mem[b].(free := false)];
      assert mem == TakenMem(old(blocks), i, need, old(mem));
      blocks := Taken(blocks, i, need);
    }

    /**
     `malloc`: the first block that fits, in a heap that was grown at most once and only if none did.  The
     payload is large enough and aligned, exactly it is new among the blocks in use, and no other payload changed.
     Null means a request of 0 or that `brk` refused.
     */
    method Malloc(size: nat, query: int, granted: bool) returns (p: nat)
      requires Valid() && end + size + 0x2000 < WORD && (base == 0 ==> query + size + 0x2000 < WORD)
      modifies this
      ensures p == 0 <==> size == 0 || (NoFit(old(blocks), AlignUp(size, 16)) && !(granted && (old(base) != 0 || query > 0)))
      ensures p == 0 ==> blocks == old(blocks) && mem == old(mem)
      ensures Valid() <==> !(size != 0 && old(base) == 0 && query > 0 && !granted)
      ensures size != 0 && old(base) == 0 && query > 0 && !granted ==> Headless()
      ensures p != 0 ==> Allocated(old(blocks), size, p)
      ensures p != 0 ==>
                var need := AlignUp(size, 16);
                var more := Extra(16 + need);
                if NoFit(old(blocks), need) then end >= more && TakenFirst(Grown(old(blocks), base, end - more, more), blocks, need, p)
                else TakenFirst(old(blocks), blocks, need, p)
      ensures Untouched(old(blocks), old(mem), mem)
    {
      hide Tiles, Headed, AlignUp, Grown, Untouched, Taken, Extra;
      SameUntouched(blocks, mem);
      if size == 0 {
        return 0;
      }
      AlignUpIs(size);
      var need := AlignUp(size, 16);
      ghost var was, mem0 := blocks, mem;
      var grown := false;
      if base == 0 {
        var ok := Grow(HEADER + need, query, granted);
        if !ok {
          return 0;
        }
        grown := true;
        GrownFits(was, base, end - Extra(HEADER + need), HEADER + need);
      }
      while true
        invariant Valid() && base != 0 && was == old(blocks) && (grown ==> NoFit(was, need) && granted && (old(base) != 0 || query > 0))
        invariant grown ==> end >= Extra(16 + need) >= 16 && blocks == Grown(was, base, end - Extra(16 + need), Extra(16 + need))
        invariant if grown then LastFits(blocks, need) else blocks == was && mem == mem0 && base == old(base) && end == old(end)
        invariant Live(blocks) == Live(was) && Untouched(was, mem0, mem)
        decreases !grown
      {
        var b, i := FirstFit(need);
        if b != 0 {
          TakenLive(blocks, i, need, base, end);
          TakenTiles(blocks, i, need, base, end);
          ghost var mid, memM := blocks, mem;
          Take(b, need, i);
          UntouchedTwice(was, mid, mem0, memM, mem);
          TilesFacts(blocks, base, end);
          assert blocks[i] in blocks;
          assert TakenFirst(mid, blocks, need, b + HEADER);
          return b + HEADER;
        }
        assert !grown;
        TilesFacts(blocks, base, end);
        var ok := Grow(HEADER + need, query, granted);
        if !ok {
          return 0;
        }
        GrownFits(was, base, end - Extra(HEADER + need), HEADER + need);
        grown := true;
      }
    }

    /** `p` is the payload of a block that was not in use before, and the only new one. */
    ghost predicate Allocated(was: seq<Block>, size: nat, p: nat)
      reads this
    {
      && base != 0 && p >= 16 && (p - base) % 16 == 0
      && exists b :: b in blocks && b.addr + 16 == p && !b.free && b.size >= size && b !in Live(was) && Live(blocks) == Live(was) + {b}
    }

    /**
     `free`: pointers that are null or outside the heap, and blocks that are free already, are ignored.  Otherwise
     exactly this block is no longer in use, and it joins the block behind it if that is free.
     */
    method Free(p: nat, ghost i: nat)
      requires Valid() && (p == 0 || base == 0 || p < base + 16 || p >= end || (i < |blocks| && blocks[i].addr + 16 == p))
      modifies this`mem, this`blocks
      ensures Valid() && Untouched(Without(old(blocks), i), old(mem), mem)
      ensures var gone := p != 0 && base != 0 && base + 16 <= p < end && !old(blocks)[i].free;
        if gone then Live(blocks) == Live(old(blocks)) - {old(blocks)[i]} && blocks == Released(old(blocks), i)
        else blocks == old(blocks) && mem == old(mem)
    {
      hide Tiles, Headed, Untouched, Live, Released;
      SameUntouched(Without(blocks, i), mem);
      if p == 0 || base == 0 || p < base + HEADER || p >= end {
        return;
      }
      var b := p - HEADER;
      HeadAt(blocks, mem, i);
      if mem[b].magic != MAGIC || mem[b].free {
        return;
      }
      ReleasedTiles(blocks, i, base, end);
      ReleasedHeads(blocks, i, base, end, mem);
      ReleasedLive(blocks, i, base, end);
      ReleasedNext(blocks, i, base, end, mem);
      mem := mem[b := mem[b].(free := true)];
      var n := b + HEADER + mem[b].size;
      if n + HEADER <= end && mem[n].magic == MAGIC && mem[n].free {
        mem := mem[b := mem[b].(size := mem[b].size + HEADER + mem[n].size)];
      }
      blocks := Released(blocks, i);
      assert mem == old(mem)[b := Head(MAGIC, true, blocks[i].size)];
    }
  }

  /** The blocks, with block `i` no longer in use. */
  ghost function Without(bs: seq<Block>, i: nat): seq<Block> {
    if i < |bs| then bs[i := bs[i].(free := true)] else bs
  }

  lemma WithoutUses(bs: seq<Block>, i: nat, a: nat)
    ensures InUse(Without(bs, i), a) ==> InUse(bs, a)
  {
    if InUse(Without(bs, i), a) {
      var k :| 0 <= k < |bs| && !Without(bs, i)[k].free && Without(bs, i)[k].addr + 16 <= a < End(Without(bs, i)[k]);
      assert !bs[k].free && bs[k].addr + 16 <= a < End(bs[k]);
    }
  }

  lemma GrownFits(bs: seq<Block>, base: nat, end: nat, need: nat)
    requires (if bs == [] then end == base else Tiles(bs, base, end)) && need >= 16
    ensures Extra(need) >= 32 && Extra(need) % 16 == 0
    ensures var r := Grown(bs, base, end, Extra(need)); LastFits(r, need - 16) && Live(r) == Live(bs)
  {
    AlignUpIs(if need < HEAP_GROW then HEAP_GROW else need);
    GrownTiles(bs, base, end, Extra(need));
  }

  lemma SameUntouched(bs: seq<Block>, m: map<nat, Cell>)
    ensures Untouched(bs, m, m)
  {
  }

  lemma UntouchedTwice(bs: seq<Block>, cs: seq<Block>, m: map<nat, Cell>, n: map<nat, Cell>, o: map<nat, Cell>)
    requires Untouched(bs, m, n) && Untouched(cs, n, o) && Live(cs) == Live(bs)
    ensures Untouched(bs, m, o)
  {
    forall a | a in m && InUse(bs, a) ensures InUse(cs, a) {
      var i :| 0 <= i < |bs| && !bs[i].free && bs[i].addr + 16 <= a < End(bs[i]);
      assert bs[i] in Live(bs);
      var k :| 0 <= k < |cs| && cs[k] == bs[i];
    }
  }

  /** A program whose first `malloc` is refused a break has a heap without a header. */
  method RefusedAtFirst() returns (heap: Heap, p: nat)
    ensures p == 0 && heap.Headless() && !heap.Valid()
  {
    heap := new Heap();
    p := heap.Malloc(1, 0x40_0000, false);
  }
}
