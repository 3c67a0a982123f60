/**
 Copy-on-write address spaces, seen as one flat map from (address space, page number) to
 the leaf page-table word, together with the share counts of `cow_tab` and the contents of
 the physical frames.  The four-level tables that hold these words are in `PageTables` and
 `Vmm`; every operation there is shown to be one of the transitions below.
 */
module CopyOnWrite {
  import opened Bytes

  /** User pages lie below 2^47, so page numbers lie below 2^35. */
  const USER_PAGES: nat := 0x8_0000_0000
  const PAGE_SIZE: nat := 4096

  type PageData = seq<Byte>

  /** A leaf is named by the root frame of its address space and its page number. */
  type Key = (nat, nat)

  /** A present user leaf: its frame, the hardware write bit, the software intended-write bit. */
  datatype Leaf = Leaf(frame: nat, write: bool, want: bool)

  datatype Flat = Flat(leaf: map<Key, Leaf>, shares: map<nat, nat>, mem: map<nat, PageData>)

  // ----- share counts -----

  /** The leaves that map a frame. */
  ghost function Refs(leaf: map<Key, Leaf>, f: nat): set<Key> {
    set k | k in leaf && leaf[k].frame == f
  }

  ghost function LeafFrames(leaf: map<Key, Leaf>): set<nat> {
    set k | k in leaf :: leaf[k].frame
  }

  /** A frame without an entry in the share table counts as mapped once. */
  function Count(shares: map<nat, nat>, f: nat): nat {
    if f in shares then shares[f] else 1
  }

  /** One more mapping: a frame without an entry starts at two. */
  function Shared(shares: map<nat, nat>, f: nat): map<nat, nat> {
    shares[f := Count(shares, f) + 1]
  }

  /** One mapping less; the entry goes when its count reaches zero. */
  function Dropped(shares: map<nat, nat>, f: nat): map<nat, nat> {
    if f !in shares then shares
    else if shares[f] <= 1 then shares - {f}
    else shares[f := shares[f] - 1]
  }

  /** Undoes `Shared`: a pair of mappings loses its entry altogether. */
  function Unshared(shares: map<nat, nat>, f: nat): map<nat, nat> {
    if f !in shares then shares
    else if shares[f] <= 2 then shares - {f}
    else shares[f := shares[f] - 1]
  }

  /** The count kept for a mapped frame is the number of leaves that map it. */
  ghost predicate CountExact(leaf: map<Key, Leaf>, shares: map<nat, nat>, k: Key)
    requires k in leaf
  {
    Count(shares, leaf[k].frame) == |Refs(leaf, leaf[k].frame)|
  }

  /** A hardware-writable leaf is the only mapping of its frame and is meant to be writable. */
  ghost predicate WriteAlone(leaf: map<Key, Leaf>, k: Key)
    requires k in leaf
  {
    leaf[k].write ==> leaf[k].want && Refs(leaf, leaf[k].frame) == {k}
  }

  /** Only mapped frames have an entry in the share table, and no entry counts zero. */
  ghost predicate Listed(leaf: map<Key, Leaf>, shares: map<nat, nat>, f: nat)
    requires f in shares
  {
    shares[f] >= 1 && f in LeafFrames(leaf)
  }

  ghost predicate Backed(mem: map<nat, PageData>, f: nat) {
    f in mem && |mem[f]| == PAGE_SIZE
  }

  ghost predicate CountsOk(leaf: map<Key, Leaf>, shares: map<nat, nat>) {
    && (forall f {:trigger Listed(leaf, shares, f)} | f in shares :: Listed(leaf, shares, f))
    && (forall k {:trigger CountExact(leaf, shares, k)} | k in leaf :: CountExact(leaf, shares, k))
    && (forall k {:trigger WriteAlone(leaf, k)} | k in leaf :: WriteAlone(leaf, k))
  }

  ghost predicate PagesOk(leaf: map<Key, Leaf>, mem: map<nat, PageData>) {
    && (forall k <- leaf :: k.1 < USER_PAGES)
    && (forall k <- leaf :: Backed(mem, leaf[k].frame))
  }

  ghost predicate Inv(s: Flat) {
    CountsOk(s.leaf, s.shares) && PagesOk(s.leaf, s.mem)
  }

  lemma RefsAfterSet(leaf: map<Key, Leaf>, k: Key, l: Leaf, f: nat)
    ensures Refs(leaf[k := l], f) == if l.frame == f then Refs(leaf, f) + {k} else Refs(leaf, f) - {k}
  {
  }

  lemma RefsAfterRemove(leaf: map<Key, Leaf>, k: Key, f: nat)
    ensures Refs(leaf - {k}, f) == Refs(leaf, f) - {k}
  {
  }

  // ----- what a program sees: the eager machine -----

  /** A page of an address space that shares nothing: may it be written, and its bytes. */
  datatype Page = Page(writable: bool, bytes: PageData)

  type Eager = map<Key, Page>

  /** What each address space reads, and whether a store to it would be let through. */
  ghost function View(s: Flat): Eager
    requires PagesOk(s.leaf, s.mem)
  {
    map k | k in s.leaf :: Page(s.leaf[k].want, s.mem[s.leaf[k].frame])
  }

  /** Every page but those of space `r` from `lo` up to `hi` is as it was. */
  ghost predicate Elsewhere(e: Eager, e': Eager, r: nat, lo: nat, hi: nat) {
    forall k: Key | !(k.0 == r && lo <= k.1 < hi) :: (k in e' <==> k in e) && (k in e ==> e'[k] == e[k])
  }

  /** Space `dst` has the pages of `src`, byte for byte; every other space is as it was. */
  ghost predicate Copied(e: Eager, e': Eager, src: nat, dst: nat) {
    && (forall k: Key | k.0 != dst :: (k in e' <==> k in e) && (k in e ==> e'[k] == e[k]))
    && (forall v: nat :: ((dst, v) in e' <==> (src, v) in e) && ((src, v) in e ==> e'[(dst, v)] == e[(src, v)]))
  }

  /** An immediate fork into a space without pages is a copy. */
  lemma EagerForkCopies(e: Eager, src: nat, dst: nat)
    requires src != dst && forall k <- e :: k.0 != dst && k.1 < USER_PAGES
    ensures Copied(e, EagerForkBelow(e, src, dst, USER_PAGES), src, dst)
  {
    var e' := EagerForkBelow(e, src, dst, USER_PAGES);
    forall v: nat ensures ((dst, v) in e' <==> (src, v) in e) && ((src, v) in e ==> e'[(dst, v)] == e[(src, v)]) {
      if (src, v) in e {
        assert (src, v).1 < USER_PAGES;
        assert (dst, v) in CopiedKeys(e, src, dst, USER_PAGES);
      }
    }
  }

  ghost function CopiedKeys(e: Eager, src: nat, dst: nat, n: nat): set<Key> {
    set j: Key | j in e && j.0 == src && j.1 < n :: (dst, j.1)
  }

  /** Fork that copies, at once, every page of `src` below `n`; the whole space if `n` is `USER_PAGES`. */
  ghost function EagerForkBelow(e: Eager, src: nat, dst: nat, n: nat): Eager {
    map k: Key | k in e.Keys + CopiedKeys(e, src, dst, n) ::
      if k.0 == dst && (src, k.1) in e && k.1 < n then e[(src, k.1)] else e[k]
  }

  ghost function EagerTeardown(e: Eager, r: nat): Eager {
    map k | k in e && k.0 != r :: e[k]
  }

  function EagerStore(e: Eager, k: Key, off: nat, b: Byte): Eager {
    if k in e && off < |e[k].bytes| then
      e[k := e[k].(bytes := e[k].bytes[off := b])]
    else e
  }

  // ----- transitions of the copy-on-write machine -----

  function MapPage(s: Flat, k: Key, f: nat): Flat {
    s.(leaf := s.leaf[k := Leaf(f, true, true)])
  }

  function UnmapPage(s: Flat, k: Key): Flat {
    if k !in s.leaf then s
    else s.(leaf := s.leaf - {k}, shares := Dropped(s.shares, s.leaf[k].frame))
  }

  function ProtectPage(s: Flat, k: Key, wr: bool): Flat
    requires k in s.leaf
  {
    var f := s.leaf[k].frame;
    s.(leaf := s.leaf[k := Leaf(f, wr && Count(s.shares, f) <= 1, wr)])
  }

  /** One page of fork: both leaves become read-only and keep the intended-write bit. */
  function SharePage(s: Flat, src: nat, dst: nat, v: nat): Flat {
    if (src, v) !in s.leaf then s
    else
      var l := s.leaf[(src, v)];
      var ro := Leaf(l.frame, false, l.write || l.want);
      s.(leaf := s.leaf[(dst, v) := ro][(src, v) := ro], shares := Shared(s.shares, l.frame))
  }

  /** Gives `k` a private writable frame; `neu` is used only if the frame is shared. */
  function BreakPage(s: Flat, k: Key, neu: nat): Flat
    requires k in s.leaf && s.leaf[k].frame in s.mem
  {
    var f := s.leaf[k].frame;
    if Count(s.shares, f) <= 1 then
      s.(leaf := s.leaf[k := Leaf(f, true, true)], shares := s.shares - {f})
    else
      Flat(s.leaf[k := Leaf(neu, true, true)], Dropped(s.shares, f), s.mem[neu := s.mem[f]])
  }

  function PokeByte(s: Flat, k: Key, off: nat, b: Byte): Flat
    requires k in s.leaf && s.leaf[k].frame in s.mem && off < |s.mem[s.leaf[k].frame]|
  {
    var f := s.leaf[k].frame;
    s.(mem := s.mem[f := s.mem[f][off := b]])
  }

  /** Fork restricted to the pages from `lo` up to `hi`, in ascending order. */
  ghost function ForkRange(s: Flat, src: nat, dst: nat, lo: nat, hi: nat): Flat {
    if hi <= lo then s else SharePage(ForkRange(s, src, dst, lo, hi - 1), src, dst, hi - 1)
  }

  ghost function UnmapRange(s: Flat, r: nat, lo: nat, hi: nat): Flat {
    if hi <= lo then s else UnmapPage(UnmapRange(s, r, lo, hi - 1), (r, hi - 1))
  }

  // ----- every transition keeps the invariant and agrees with the eager machine -----

  /** Two states whose leaves agree, up to `k`, in intent and bytes have views that agree up to `k`. */
  lemma ViewSet(s: Flat, t: Flat, k: Key)
    requires PagesOk(s.leaf, s.mem) && PagesOk(t.leaf, t.mem)
    requires t.leaf.Keys == s.leaf.Keys + {k}
    requires forall j <- s.leaf :: j == k
               || (t.leaf[j].want == s.leaf[j].want && t.mem[t.leaf[j].frame] == s.mem[s.leaf[j].frame])
    ensures View(t) == View(s)[k := Page(t.leaf[k].want, t.mem[t.leaf[k].frame])]
  {
  }

  lemma MapCounts(leaf: map<Key, Leaf>, shares: map<nat, nat>, k: Key, l: Leaf)
    requires CountsOk(leaf, shares) && k !in leaf && l.want && l.frame !in LeafFrames(leaf)
    ensures CountsOk(leaf[k := l], shares)
    ensures LeafFrames(leaf[k := l]) == LeafFrames(leaf) + {l.frame}
  {
    var leaf' := leaf[k := l];
    forall j <- leaf ensures leaf[j].frame != l.frame {
      assert leaf[j].frame in LeafFrames(leaf);
    }
    assert Refs(leaf, l.frame) == {};
    assert l.frame in shares ==> Listed(leaf, shares, l.frame);
    forall j <- leaf' ensures CountExact(leaf', shares, j) && WriteAlone(leaf', j) {
      RefsAfterSet(leaf, k, l, leaf'[j].frame);
      if j != k {
        assert CountExact(leaf, shares, j) && WriteAlone(leaf, j);
      }
    }
    forall g | g in LeafFrames(leaf) + {l.frame} ensures g in LeafFrames(leaf') {
      if g == l.frame {
        assert leaf'[k].frame == g;
      } else {
        var j :| j in leaf && leaf[j].frame == g;
        assert leaf'[j].frame == g;
      }
    }
    forall g <- shares ensures Listed(leaf', shares, g) {
      assert Listed(leaf, shares, g);
    }
  }

  lemma MapPageCorrect(s: Flat, k: Key, f: nat)
    requires Inv(s) && k !in s.leaf && k.1 < USER_PAGES
    requires f !in LeafFrames(s.leaf) && Backed(s.mem, f)
    ensures Inv(MapPage(s, k, f))
    ensures View(MapPage(s, k, f)) == View(s)[k := Page(true, s.mem[f])]
    ensures LeafFrames(MapPage(s, k, f).leaf) == LeafFrames(s.leaf) + {f}
  {
    MapCounts(s.leaf, s.shares, k, Leaf(f, true, true));
    ViewSet(s, MapPage(s, k, f), k);
  }

  lemma UnmapFrames(leaf: map<Key, Leaf>, shares: map<nat, nat>, k: Key)
    requires k in leaf && CountExact(leaf, shares, k)
    ensures LeafFrames(leaf - {k})
         == if Count(shares, leaf[k].frame) <= 1 then LeafFrames(leaf) - {leaf[k].frame} else LeafFrames(leaf)
  {
    var f := leaf[k].frame;
    var rest := Refs(leaf, f) - {k};
    assert k in Refs(leaf, f);
    assert |rest| == |Refs(leaf, f)| - 1;
    forall g | g in LeafFrames(leaf) && (g != f || rest != {}) ensures g in LeafFrames(leaf - {k}) {
      if g == f {
        var j :| j in rest;
        assert j in leaf - {k};
      } else {
        var j :| j in leaf && leaf[j].frame == g;
        assert j in leaf - {k};
      }
    }
    if f in LeafFrames(leaf - {k}) {
      var j :| j in leaf - {k} && leaf[j].frame == f;
      assert j in rest;
    }
  }

  lemma UnmapCounts(leaf: map<Key, Leaf>, shares: map<nat, nat>, k: Key)
    requires k in leaf && CountsOk(leaf, shares)
    ensures CountsOk(leaf - {k}, Dropped(shares, leaf[k].frame))
  {
    var f := leaf[k].frame;
    var leaf', shares' := leaf - {k}, Dropped(shares, f);
    assert CountExact(leaf, shares, k) && k in Refs(leaf, f);
    forall j <- leaf' ensures CountExact(leaf', shares', j) && WriteAlone(leaf', j) {
      RefsAfterRemove(leaf, k, leaf[j].frame);
      assert CountExact(leaf, shares, j) && WriteAlone(leaf, j);
      if leaf[j].frame == f {
        assert {j, k} <= Refs(leaf, f);
        assert |Refs(leaf, f) - {k}| == |Refs(leaf, f)| - 1;
        assert j in Refs(leaf, f) - {k};
      }
    }
    UnmapFrames(leaf, shares, k);
    forall g <- shares' ensures Listed(leaf', shares', g) {
      assert Listed(leaf, shares, g);
    }
  }

  lemma UnmapPageCorrect(s: Flat, k: Key)
    requires Inv(s) && k in s.leaf
    ensures Inv(UnmapPage(s, k))
    ensures View(UnmapPage(s, k)) == View(s) - {k}
    ensures LeafFrames(UnmapPage(s, k).leaf)
         == if Count(s.shares, s.leaf[k].frame) <= 1 then LeafFrames(s.leaf) - {s.leaf[k].frame} else LeafFrames(s.leaf)
  {
    UnmapCounts(s.leaf, s.shares, k);
    assert CountExact(s.leaf, s.shares, k);
    UnmapFrames(s.leaf, s.shares, k);
  }

  /** Replacing a leaf by one on the same frame moves no count. */
  lemma SameFrameKeeps(leaf: map<Key, Leaf>, k: Key, l: Leaf)
    requires k in leaf && l.frame == leaf[k].frame
    ensures forall g :: Refs(leaf[k := l], g) == Refs(leaf, g)
    ensures LeafFrames(leaf[k := l]) == LeafFrames(leaf)
  {
    var leaf' := leaf[k := l];
    forall g ensures Refs(leaf', g) == Refs(leaf, g) {
      RefsAfterSet(leaf, k, l, g);
    }
    forall g | g in LeafFrames(leaf) ensures g in LeafFrames(leaf') {
      var j :| j in leaf && leaf[j].frame == g;
      assert leaf'[j].frame == g;
    }
  }

  lemma ProtectCounts(leaf: map<Key, Leaf>, shares: map<nat, nat>, k: Key, l: Leaf)
    requires CountsOk(leaf, shares) && k in leaf && l.frame == leaf[k].frame
    requires l.write ==> l.want && Count(shares, l.frame) <= 1
    ensures CountsOk(leaf[k := l], shares)
    ensures LeafFrames(leaf[k := l]) == LeafFrames(leaf)
  {
    var leaf' := leaf[k := l];
    SameFrameKeeps(leaf, k, l);
    assert k in Refs(leaf, l.frame) && CountExact(leaf, shares, k);
    forall j <- leaf' ensures CountExact(leaf', shares, j) && WriteAlone(leaf', j) {
      assert CountExact(leaf, shares, j) && WriteAlone(leaf, j);
      if j == k && l.write {
        SingletonOf(Refs(leaf, l.frame), k);
      }
    }
    forall g <- shares ensures Listed(leaf', shares, g) {
      assert Listed(leaf, shares, g);
    }
  }

  lemma ProtectPageCorrect(s: Flat, k: Key, wr: bool)
    requires Inv(s) && k in s.leaf
    ensures Inv(ProtectPage(s, k, wr))
    ensures View(ProtectPage(s, k, wr)) == View(s)[k := View(s)[k].(writable := wr)]
    ensures LeafFrames(ProtectPage(s, k, wr).leaf) == LeafFrames(s.leaf)
  {
    var t := ProtectPage(s, k, wr);
    ProtectCounts(s.leaf, s.shares, k, t.leaf[k]);
    ViewSet(s, t, k);
  }

  lemma SingletonOf<T>(a: set<T>, x: T)
    requires x in a && |a| <= 1
    ensures a == {x}
  {
    assert |a - {x}| == |a| - 1;
  }

  /** Mapping one more page onto a frame that is already mapped, read-only. */
  lemma AliasCounts(leaf: map<Key, Leaf>, shares: map<nat, nat>, k: Key, c: Key, ro: Leaf)
    requires CountsOk(leaf, shares) && k in leaf && c !in leaf
    requires leaf[k] == ro && !ro.write
    ensures CountsOk(leaf[c := ro], Shared(shares, ro.frame))
    ensures LeafFrames(leaf[c := ro]) == LeafFrames(leaf)
  {
    var f := ro.frame;
    var leaf', shares' := leaf[c := ro], Shared(shares, f);
    assert CountExact(leaf, shares, k) && k in Refs(leaf, f);
    RefsAfterSet(leaf, c, ro, f);
    assert |Refs(leaf', f)| == |Refs(leaf, f)| + 1;
    forall j <- leaf' ensures CountExact(leaf', shares', j) && WriteAlone(leaf', j) {
      if j != c {
        RefsAfterSet(leaf, c, ro, leaf[j].frame);
        assert CountExact(leaf, shares, j) && WriteAlone(leaf, j);
      }
    }
    forall g | g in LeafFrames(leaf) ensures g in LeafFrames(leaf') {
      var j :| j in leaf && leaf[j].frame == g;
      assert leaf'[j].frame == g;
    }
    assert leaf[k].frame in LeafFrames(leaf);
    forall g <- shares' ensures Listed(leaf', shares', g) {
      assert g != f ==> Listed(leaf, shares, g);
    }
  }

  lemma ShareCounts(s: Flat, src: nat, dst: nat, v: nat)
    requires CountsOk(s.leaf, s.shares) && src != dst && (src, v) in s.leaf && (dst, v) !in s.leaf
    ensures CountsOk(SharePage(s, src, dst, v).leaf, SharePage(s, src, dst, v).shares)
    ensures LeafFrames(SharePage(s, src, dst, v).leaf) == LeafFrames(s.leaf)
  {
    var k, c := (src, v), (dst, v);
    var ro := Leaf(s.leaf[k].frame, false, s.leaf[k].write || s.leaf[k].want);
    ProtectCounts(s.leaf, s.shares, k, ro);
    AliasCounts(s.leaf[k := ro], s.shares, k, c, ro);
    assert s.leaf[k := ro][c := ro] == SharePage(s, src, dst, v).leaf;
  }

  lemma SharePageCorrect(s: Flat, src: nat, dst: nat, v: nat)
    requires Inv(s) && src != dst && (src, v) in s.leaf && (dst, v) !in s.leaf
    ensures Inv(SharePage(s, src, dst, v))
    ensures View(SharePage(s, src, dst, v)) == View(s)[(dst, v) := View(s)[(src, v)]]
    ensures LeafFrames(SharePage(s, src, dst, v).leaf) == LeafFrames(s.leaf)
  {
    assert WriteAlone(s.leaf, (src, v));
    ShareCounts(s, src, dst, v);
    ViewSet(s, SharePage(s, src, dst, v), (dst, v));
  }

  lemma BreakPageCorrect(s: Flat, k: Key, neu: nat)
    requires Inv(s) && k in s.leaf && s.leaf[k].want
    requires Count(s.shares, s.leaf[k].frame) > 1 ==> neu !in LeafFrames(s.leaf)
    ensures Inv(BreakPage(s, k, neu))
    ensures View(BreakPage(s, k, neu)) == View(s)
    ensures BreakPage(s, k, neu).leaf[k].write
    ensures LeafFrames(BreakPage(s, k, neu).leaf)
         == if Count(s.shares, s.leaf[k].frame) <= 1 then LeafFrames(s.leaf) else LeafFrames(s.leaf) + {neu}
  {
    var f := s.leaf[k].frame;
    assert CountExact(s.leaf, s.shares, k) && k in Refs(s.leaf, f);
    if Count(s.shares, f) <= 1 {
      BreakSole(s, k, neu);
    } else {
      BreakShared(s, k, neu);
    }
  }

  /** An entry that counts one says no more than no entry. */
  lemma ClearCounts(leaf: map<Key, Leaf>, shares: map<nat, nat>, f: nat)
    requires CountsOk(leaf, shares) && Count(shares, f) <= 1
    ensures CountsOk(leaf, shares - {f})
  {
    assert f in shares ==> Listed(leaf, shares, f);
    forall j <- leaf ensures CountExact(leaf, shares - {f}, j) && WriteAlone(leaf, j) {
      assert CountExact(leaf, shares, j) && WriteAlone(leaf, j);
    }
    forall g <- shares - {f} ensures Listed(leaf, shares - {f}, g) {
      assert Listed(leaf, shares, g);
    }
  }

  lemma BreakSole(s: Flat, k: Key, neu: nat)
    requires Inv(s) && k in s.leaf && s.leaf[k].want && Count(s.shares, s.leaf[k].frame) <= 1
    ensures Inv(BreakPage(s, k, neu))
    ensures View(BreakPage(s, k, neu)) == View(s)
    ensures BreakPage(s, k, neu).leaf[k].write
    ensures LeafFrames(BreakPage(s, k, neu).leaf) == LeafFrames(s.leaf)
  {
    var f := s.leaf[k].frame;
    var t := BreakPage(s, k, neu);
    ProtectCounts(s.leaf, s.shares, k, t.leaf[k]);
    ClearCounts(t.leaf, s.shares, f);
    ViewSet(s, t, k);
  }

  lemma BreakShared(s: Flat, k: Key, neu: nat)
    requires Inv(s) && k in s.leaf && s.leaf[k].want && neu !in LeafFrames(s.leaf)
    requires Count(s.shares, s.leaf[k].frame) > 1
    ensures Inv(BreakPage(s, k, neu))
    ensures View(BreakPage(s, k, neu)) == View(s)
    ensures BreakPage(s, k, neu).leaf[k].write
    ensures LeafFrames(BreakPage(s, k, neu).leaf) == LeafFrames(s.leaf) + {neu}
  {
    // Copying a shared page is unmapping it and mapping a private copy.
    var f := s.leaf[k].frame;
    var u := UnmapPage(s, k);
    UnmapCounts(s.leaf, s.shares, k);
    assert CountExact(s.leaf, s.shares, k);
    UnmapFrames(s.leaf, s.shares, k);
    MapCounts(u.leaf, u.shares, k, Leaf(neu, true, true));
    assert u.leaf[k := Leaf(neu, true, true)] == s.leaf[k := Leaf(neu, true, true)];
    BreakView(s, k, neu);
  }

  /** The copied bytes are the bytes that were shared. */
  lemma BreakView(s: Flat, k: Key, neu: nat)
    requires PagesOk(s.leaf, s.mem) && k in s.leaf && s.leaf[k].want && neu !in LeafFrames(s.leaf)
    requires Count(s.shares, s.leaf[k].frame) > 1
    ensures PagesOk(BreakPage(s, k, neu).leaf, BreakPage(s, k, neu).mem)
    ensures View(BreakPage(s, k, neu)) == View(s)
  {
    var t := BreakPage(s, k, neu);
    forall j <- s.leaf ensures s.leaf[j].frame != neu {
      assert s.leaf[j].frame in LeafFrames(s.leaf);
    }
    ViewSet(s, t, k);
  }

  /** A store through a hardware-writable leaf changes that page and no other. */
  lemma PokeByteCorrect(s: Flat, k: Key, off: nat, b: Byte)
    requires Inv(s) && k in s.leaf && s.leaf[k].write && off < PAGE_SIZE
    ensures Inv(PokeByte(s, k, off, b))
    ensures View(PokeByte(s, k, off, b)) == EagerStore(View(s), k, off, b)
  {
    var f := s.leaf[k].frame;
    var t := PokeByte(s, k, off, b);
    assert WriteAlone(s.leaf, k);
    forall j <- t.leaf ensures CountExact(t.leaf, t.shares, j) && WriteAlone(t.leaf, j) && (j != k ==> s.leaf[j].frame != f) {
      assert CountExact(s.leaf, s.shares, j) && WriteAlone(s.leaf, j);
      assert s.leaf[j].frame == f ==> j in Refs(s.leaf, f);
    }
  }

  // ----- the words themselves -----

  /** No leaf but that of `k` has changed. */
  ghost predicate OnlyLeaf(s: Flat, t: Flat, k: Key) {
    forall j: Key | j != k :: (j in t.leaf <==> j in s.leaf) && (j in s.leaf ==> t.leaf[j] == s.leaf[j])
  }

  lemma MapLeaf(s: Flat, k: Key, f: nat)
    ensures var t := MapPage(s, k, f);
      OnlyLeaf(s, t, k) && k in t.leaf && t.leaf[k].frame == f && t.leaf[k].write && t.leaf[k].want && t.shares == s.shares && t.mem == s.mem
  {
  }

  /** The write bit is set exactly when writing is allowed and this is the only mapping of the frame. */
  lemma ProtectLeaf(s: Flat, k: Key, wr: bool)
    requires Inv(s) && k in s.leaf
    ensures var t := ProtectPage(s, k, wr);
      && OnlyLeaf(s, t, k) && t.leaf[k].frame == s.leaf[k].frame && t.shares == s.shares && t.mem == s.mem
      && (t.leaf[k].write <==> wr && Refs(s.leaf, s.leaf[k].frame) == {k})
  {
    var f := s.leaf[k].frame;
    assert CountExact(s.leaf, s.shares, k) && k in Refs(s.leaf, f);
    if Count(s.shares, f) <= 1 {
      SingletonOf(Refs(s.leaf, f), k);
    }
  }

  /** Both leaves show the same frame and neither has the write bit. */
  lemma ShareLeaves(s: Flat, src: nat, dst: nat, v: nat)
    requires src != dst && (src, v) in s.leaf
    ensures var t := SharePage(s, src, dst, v);
      && (src, v) in t.leaf && (dst, v) in t.leaf && t.leaf[(src, v)] == t.leaf[(dst, v)] && t.leaf[(src, v)].frame == s.leaf[(src, v)].frame
      && !t.leaf[(src, v)].write && t.mem == s.mem
      && forall j: Key | j != (src, v) && j != (dst, v) :: (j in t.leaf <==> j in s.leaf) && (j in s.leaf ==> t.leaf[j] == s.leaf[j])
  {
  }

  /** A page that is the only one on its frame keeps it; any other moves to the new frame, which has the same bytes. */
  lemma BreakLeaf(s: Flat, k: Key, neu: nat)
    requires Inv(s) && k in s.leaf
    ensures var t, f := BreakPage(s, k, neu), s.leaf[k].frame;
      && OnlyLeaf(s, t, k) && t.leaf[k].write && t.leaf[k].want
      && (Refs(s.leaf, f) == {k} ==> t.leaf[k].frame == f && t.mem == s.mem)
      && (Refs(s.leaf, f) != {k} ==> t.leaf[k].frame == neu && neu in t.mem && t.mem[neu] == s.mem[f])
  {
    var f := s.leaf[k].frame;
    assert CountExact(s.leaf, s.shares, k) && k in Refs(s.leaf, f);
    if Count(s.shares, f) <= 1 {
      SingletonOf(Refs(s.leaf, f), k);
    }
  }

  // ----- whole address spaces -----

  ghost predicate NoPages(leaf: map<Key, Leaf>, r: nat, lo: nat, hi: nat) {
    forall v :: lo <= v < hi ==> (r, v) !in leaf
  }

  /** Sharing one more page is copying one more page. */
  lemma ForkOneMore(t: Flat, e: Eager, src: nat, dst: nat, n: nat)
    requires Inv(t) && src != dst && (dst, n) !in e
    requires View(t) == EagerForkBelow(e, src, dst, n)
    ensures Inv(SharePage(t, src, dst, n))
    ensures View(SharePage(t, src, dst, n)) == EagerForkBelow(e, src, dst, n + 1)
    ensures LeafFrames(SharePage(t, src, dst, n).leaf) == LeafFrames(t.leaf)
  {
    EagerForkStep(e, src, dst, n);
    assert t.leaf.Keys == View(t).Keys;
    if (src, n) in t.leaf {
      SharePageCorrect(t, src, dst, n);
    }
  }

  /** The pages below `hi` are forked: what each space reads is as if they had been copied. */
  lemma {:induction false} ForkRangeCorrect(s: Flat, src: nat, dst: nat, hi: nat)
    requires Inv(s) && src != dst && NoPages(s.leaf, dst, 0, USER_PAGES) && hi <= USER_PAGES
    ensures Inv(ForkRange(s, src, dst, 0, hi))
    ensures View(ForkRange(s, src, dst, 0, hi)) == EagerForkBelow(View(s), src, dst, hi)
    ensures LeafFrames(ForkRange(s, src, dst, 0, hi).leaf) == LeafFrames(s.leaf)
  {
    if hi == 0 {
      assert EagerForkBelow(View(s), src, dst, 0) == View(s);
    } else {
      ForkRangeCorrect(s, src, dst, hi - 1);
      ForkOneMore(ForkRange(s, src, dst, 0, hi - 1), View(s), src, dst, hi - 1);
    }
  }

  lemma EagerForkStep(e: Eager, src: nat, dst: nat, n: nat)
    requires src != dst && (dst, n) !in e
    ensures (src, n) in EagerForkBelow(e, src, dst, n) <==> (src, n) in e
    ensures (dst, n) !in EagerForkBelow(e, src, dst, n)
    ensures EagerForkBelow(e, src, dst, n + 1)
         == if (src, n) in e then EagerForkBelow(e, src, dst, n)[(dst, n) := e[(src, n)]]
            else EagerForkBelow(e, src, dst, n)
    ensures (src, n) in e ==> EagerForkBelow(e, src, dst, n)[(src, n)] == e[(src, n)]
  {
    var a, b := CopiedKeys(e, src, dst, n), CopiedKeys(e, src, dst, n + 1);
    assert b == if (src, n) in e then a + {(dst, n)} else a by {
      forall k | k in b ensures k in a || (k == (dst, n) && (src, n) in e) {
        var j :| j in e && j.0 == src && j.1 < n + 1 && k == (dst, j.1);
        assert j.1 == n ==> j == (src, n);
      }
      if (src, n) in e {
        assert (dst, n) in b;
      }
    }
  }

  /** Ranges of pages are forked one after the other. */
  lemma {:induction false} ForkRangeSplit(s: Flat, src: nat, dst: nat, lo: nat, mid: nat, hi: nat)
    requires lo <= mid <= hi
    ensures ForkRange(ForkRange(s, src, dst, lo, mid), src, dst, mid, hi) == ForkRange(s, src, dst, lo, hi)
  {
    if mid < hi {
      ForkRangeSplit(s, src, dst, lo, mid, hi - 1);
    }
  }

  lemma {:induction false} ForkRangeEmpty(s: Flat, src: nat, dst: nat, lo: nat, hi: nat)
    requires NoPages(s.leaf, src, lo, hi)
    ensures ForkRange(s, src, dst, lo, hi) == s
  {
    if lo < hi {
      ForkRangeEmpty(s, src, dst, lo, hi - 1);
    }
  }

  /** Forking keeps every frame where it is, and touches only the two spaces. */
  lemma {:induction false} ForkRangeLeaves(s: Flat, src: nat, dst: nat, lo: nat, hi: nat)
    requires src != dst
    ensures ForkRange(s, src, dst, lo, hi).mem == s.mem
    ensures forall k <- s.leaf | k.0 != dst ::
              k in ForkRange(s, src, dst, lo, hi).leaf && ForkRange(s, src, dst, lo, hi).leaf[k].frame == s.leaf[k].frame
    ensures forall k <- ForkRange(s, src, dst, lo, hi).leaf :: k.0 != dst ==> k in s.leaf
    ensures forall k <- ForkRange(s, src, dst, lo, hi).leaf :: k.0 == dst && !(lo <= k.1 < hi) ==> k in s.leaf
  {
    if lo < hi {
      ForkRangeLeaves(s, src, dst, lo, hi - 1);
    }
  }

  lemma {:induction false} UnmapRangeSplit(s: Flat, r: nat, lo: nat, mid: nat, hi: nat)
    requires lo <= mid <= hi
    ensures UnmapRange(UnmapRange(s, r, lo, mid), r, mid, hi) == UnmapRange(s, r, lo, hi)
  {
    if mid < hi {
      UnmapRangeSplit(s, r, lo, mid, hi - 1);
    }
  }

  lemma {:induction false} UnmapRangeEmpty(s: Flat, r: nat, lo: nat, hi: nat)
    requires NoPages(s.leaf, r, lo, hi)
    ensures UnmapRange(s, r, lo, hi) == s
  {
    if lo < hi {
      UnmapRangeEmpty(s, r, lo, hi - 1);
    }
  }

  lemma {:induction false} UnmapRangeLeaves(s: Flat, r: nat, lo: nat, hi: nat)
    ensures UnmapRange(s, r, lo, hi).mem == s.mem
    ensures UnmapRange(s, r, lo, hi).leaf == map k | k in s.leaf && !(k.0 == r && lo <= k.1 < hi) :: s.leaf[k]
  {
    if lo < hi {
      UnmapRangeLeaves(s, r, lo, hi - 1);
      var t := UnmapRange(s, r, lo, hi - 1);
      if (r, hi - 1) !in s.leaf {
        assert UnmapPage(t, (r, hi - 1)) == t;
      }
    }
  }

  lemma {:induction false} UnmapRangeInv(s: Flat, r: nat, lo: nat, hi: nat)
    requires Inv(s)
    ensures Inv(UnmapRange(s, r, lo, hi))
  {
    if lo < hi {
      UnmapRangeInv(s, r, lo, hi - 1);
      var t := UnmapRange(s, r, lo, hi - 1);
      if (r, hi - 1) in t.leaf {
        UnmapPageCorrect(t, (r, hi - 1));
      }
    }
  }

  /** Tearing a space down removes its pages and changes nothing the other spaces read. */
  lemma TeardownCorrect(s: Flat, r: nat)
    requires Inv(s)
    ensures Inv(UnmapRange(s, r, 0, USER_PAGES))
    ensures View(UnmapRange(s, r, 0, USER_PAGES)) == EagerTeardown(View(s), r)
  {
    UnmapRangeInv(s, r, 0, USER_PAGES);
    UnmapRangeLeaves(s, r, 0, USER_PAGES);
  }

  /**
   A fork that gave up after any number of pages, with the child torn down again, leaves every
   space reading what it read, every leaf on its frame, and every count as it was.
   */
  lemma ForkFailedRestores(s: Flat, m: Flat, src: nat, dst: nat, upto: nat)
    requires Inv(s) && src != dst && NoPages(s.leaf, dst, 0, USER_PAGES) && upto <= USER_PAGES
    requires Inv(m) && m.leaf == ForkRange(s, src, dst, 0, upto).leaf && m.mem == s.mem
    ensures Inv(UnmapRange(m, dst, 0, USER_PAGES))
    ensures View(UnmapRange(m, dst, 0, USER_PAGES)) == View(s)
    ensures SameMappings(s, UnmapRange(m, dst, 0, USER_PAGES))
  {
    hide CountsOk, PagesOk, View, ForkRange, UnmapRange, SameMappings, NoPages;
    TeardownCorrect(m, dst);
    ForkFailedView(s, m, src, dst, upto);
    ForkFailedLeaves(s, m, src, dst, upto);
    SameFramesSameCounts(s, UnmapRange(m, dst, 0, USER_PAGES));
  }

  lemma ForkFailedView(s: Flat, m: Flat, src: nat, dst: nat, upto: nat)
    requires Inv(s) && src != dst && NoPages(s.leaf, dst, 0, USER_PAGES) && upto <= USER_PAGES
    requires Inv(m) && m.leaf == ForkRange(s, src, dst, 0, upto).leaf && m.mem == s.mem
    ensures EagerTeardown(View(m), dst) == View(s)
  {
    hide CountsOk, ForkRange, EagerForkBelow, EagerTeardown;
    ForkRangeCorrect(s, src, dst, upto);
    ForkRangeLeaves(s, src, dst, 0, upto);
    assert View(m) == View(ForkRange(s, src, dst, 0, upto));
    EagerForkUndone(View(s), src, dst, upto);
  }

  lemma ForkFailedLeaves(s: Flat, m: Flat, src: nat, dst: nat, upto: nat)
    requires Inv(s) && src != dst && NoPages(s.leaf, dst, 0, USER_PAGES) && upto <= USER_PAGES
    requires Inv(m) && m.leaf == ForkRange(s, src, dst, 0, upto).leaf && m.mem == s.mem
    ensures UnmapRange(m, dst, 0, USER_PAGES).leaf.Keys == s.leaf.Keys
    ensures forall k <- s.leaf :: k in UnmapRange(m, dst, 0, USER_PAGES).leaf && UnmapRange(m, dst, 0, USER_PAGES).leaf[k].frame == s.leaf[k].frame
  {
    hide CountsOk, ForkRange, UnmapRange;
    ForkRangeLeaves(s, src, dst, 0, upto);
    UnmapRangeLeaves(m, dst, 0, USER_PAGES);
    assert forall k <- s.leaf :: k.0 != dst;
  }

  lemma EagerForkUndone(e: Eager, src: nat, dst: nat, n: nat)
    requires src != dst && forall k <- e :: k.0 != dst
    ensures EagerTeardown(EagerForkBelow(e, src, dst, n), dst) == e
  {
  }

  /** The same pages on the same frames, with the same counts. */
  ghost predicate SameMappings(s: Flat, t: Flat) {
    && t.leaf.Keys == s.leaf.Keys
    && (forall k <- s.leaf :: t.leaf[k].frame == s.leaf[k].frame)
    && (forall k <- s.leaf :: Count(t.shares, s.leaf[k].frame) == Count(s.shares, s.leaf[k].frame))
  }

  lemma SameFramesSameCounts(s: Flat, t: Flat)
    requires CountsOk(s.leaf, s.shares) && CountsOk(t.leaf, t.shares)
    requires t.leaf.Keys == s.leaf.Keys
    requires forall k <- s.leaf :: t.leaf[k].frame == s.leaf[k].frame
    ensures SameMappings(s, t)
  {
    forall k <- s.leaf ensures Count(t.shares, s.leaf[k].frame) == Count(s.shares, s.leaf[k].frame) {
      assert CountExact(s.leaf, s.shares, k) && CountExact(t.leaf, t.shares, k);
      assert Refs(s.leaf, s.leaf[k].frame) == Refs(t.leaf, s.leaf[k].frame);
    }
  }

  // ----- runs -----

  /** What can happen to the address spaces, one atomic kernel or hardware step at a time. */
  datatype Op =
    | Fill(f: nat, d: PageData)                     // a frame that is mapped nowhere gets its contents
    | Map(k: Key, f: nat, d: PageData)              // the frame, holding `d`, becomes the page
    | Unmap(k: Key)
    | Protect(k: Key, wr: bool)
    | Break(k: Key, neu: nat)                       // write fault, or the kernel about to write
    | Poke(k: Key, off: nat, b: Byte)               // the store itself
    | Fork(src: nat, dst: nat, upto: nat)           // `upto` falls short of all pages when fork gives up
    | Forget(f: nat)                                // an entry that counts one leaves the share table
    | Teardown(r: nat)

  ghost predicate Enabled(s: Flat, op: Op) {
    match op
    case Fill(f, d) => f !in LeafFrames(s.leaf) && |d| == PAGE_SIZE
    case Map(k, f, d) =>
      k !in s.leaf && k.1 < USER_PAGES && f !in LeafFrames(s.leaf) && Backed(s.mem, f) && s.mem[f] == d
    case Unmap(k) => true
    case Protect(k, wr) => k in s.leaf
    case Break(k, neu) =>
      k in s.leaf && s.leaf[k].want && (Count(s.shares, s.leaf[k].frame) > 1 ==> neu !in LeafFrames(s.leaf))
    case Poke(k, off, b) => k in s.leaf && s.leaf[k].write && off < PAGE_SIZE
    case Fork(src, dst, upto) => src != dst && NoPages(s.leaf, dst, 0, USER_PAGES) && upto <= USER_PAGES
    case Forget(f) => Count(s.shares, f) <= 1
    case Teardown(r) => true
  }

  ghost function Step(s: Flat, op: Op): Flat
    requires PagesOk(s.leaf, s.mem) && Enabled(s, op)
  {
    match op
    case Fill(f, d) => s.(mem := s.mem[f := d])
    case Map(k, f, _) => MapPage(s, k, f)
    case Unmap(k) => UnmapPage(s, k)
    case Protect(k, wr) => ProtectPage(s, k, wr)
    case Break(k, neu) => BreakPage(s, k, neu)
    case Poke(k, off, b) => PokeByte(s, k, off, b)
    case Fork(src, dst, upto) => ForkRange(s, src, dst, 0, upto)
    case Forget(f) => s.(shares := s.shares - {f})
    case Teardown(r) => UnmapRange(s, r, 0, USER_PAGES)
  }

  /** The same step where fork copies every page and nothing is ever shared. */
  ghost function EagerStep(e: Eager, op: Op): Eager {
    match op
    case Fill(f, d) => e
    case Map(k, _, d) => e[k := Page(true, d)]
    case Unmap(k) => e - {k}
    case Protect(k, wr) => if k in e then e[k := e[k].(writable := wr)] else e
    case Break(k, neu) => e
    case Poke(k, off, b) => EagerStore(e, k, off, b)
    case Fork(src, dst, upto) => EagerForkBelow(e, src, dst, upto)
    case Forget(f) => e
    case Teardown(r) => EagerTeardown(e, r)
  }

  lemma StepCorrect(s: Flat, op: Op)
    requires Inv(s) && Enabled(s, op)
    ensures Inv(Step(s, op))
    ensures View(Step(s, op)) == EagerStep(View(s), op)
  {
    match op
    case Fill(f, d) => FillCorrect(s, f, d);
    case Map(k, f, _) => MapPageCorrect(s, k, f);
    case Unmap(k) =>
      if k in s.leaf {
        UnmapPageCorrect(s, k);
      }
    case Protect(k, wr) => ProtectPageCorrect(s, k, wr);
    case Break(k, neu) => BreakPageCorrect(s, k, neu);
    case Poke(k, off, b) => PokeByteCorrect(s, k, off, b);
    case Fork(src, dst, upto) => ForkRangeCorrect(s, src, dst, upto);
    case Forget(f) => ClearCounts(s.leaf, s.shares, f);
    case Teardown(r) => TeardownCorrect(s, r);
  }

  /** Filling a frame that no leaf maps is seen by no one. */
  lemma FillCorrect(s: Flat, f: nat, d: PageData)
    requires Inv(s) && f !in LeafFrames(s.leaf) && |d| == PAGE_SIZE
    ensures Inv(s.(mem := s.mem[f := d]))
    ensures View(s.(mem := s.mem[f := d])) == View(s)
  {
    forall k <- s.leaf ensures s.leaf[k].frame != f {
      assert s.leaf[k].frame in LeafFrames(s.leaf);
    }
  }

  /** `t` is reached from `s` by the steps `ops`. */
  ghost predicate Reaches(s: Flat, ops: seq<Op>, t: Flat)
    decreases |ops|
  {
    if ops == [] then t == s
    else PagesOk(s.leaf, s.mem) && Enabled(s, ops[0]) && Reaches(Step(s, ops[0]), ops[1..], t)
  }

  ghost function EagerRun(e: Eager, ops: seq<Op>): Eager
    decreases |ops|
  {
    if ops == [] then e else EagerRun(EagerStep(e, ops[0]), ops[1..])
  }

  /**
   Lazy fork refines eager fork: after any run, every space reads the bytes, and has the write
   permissions, of a machine in which fork copied every page; and in every reachable state the
   share counts are exact and a hardware-writable leaf is the only mapping of its frame.
   */
  lemma {:induction false} LazyForkRefinesEagerFork(s: Flat, ops: seq<Op>, t: Flat)
    requires Inv(s) && Reaches(s, ops, t)
    ensures Inv(t)
    ensures View(t) == EagerRun(View(s), ops)
    decreases |ops|
  {
    if ops != [] {
      StepCorrect(s, ops[0]);
      LazyForkRefinesEagerFork(Step(s, ops[0]), ops[1..], t);
    }
  }

  /** The step may change what space `r` reads.  Being forked from does not. */
  predicate Touches(op: Op, r: nat) {
    match op
    case Fill(_, _) => false
    case Map(k, _, _) => k.0 == r
    case Unmap(k) => k.0 == r
    case Protect(k, _) => k.0 == r
    case Break(_, _) => false
    case Poke(k, _, _) => k.0 == r
    case Fork(_, dst, _) => dst == r
    case Forget(_) => false
    case Teardown(x) => x == r
  }

  ghost function SpaceOf(e: Eager, r: nat): Eager {
    map k | k in e && k.0 == r :: e[k]
  }

  lemma {:induction false} UntouchedKeeps(e: Eager, ops: seq<Op>, r: nat)
    requires forall op <- ops :: !Touches(op, r)
    ensures SpaceOf(EagerRun(e, ops), r) == SpaceOf(e, r)
    decreases |ops|
  {
    if ops != [] {
      assert !Touches(ops[0], r);
      UntouchedKeeps(EagerStep(e, ops[0]), ops[1..], r);
    }
  }

  /**
   Whatever the other spaces do (store into pages shared with `r`, fork from it, exit), space `r`
   goes on reading the same bytes until it acts itself.
   */
  lemma SpacesAreIsolated(s: Flat, ops: seq<Op>, t: Flat, r: nat)
    requires Inv(s) && Reaches(s, ops, t)
    requires forall op <- ops :: !Touches(op, r)
    ensures Inv(t) && SpaceOf(View(t), r) == SpaceOf(View(s), r)
  {
    LazyForkRefinesEagerFork(s, ops, t);
    UntouchedKeeps(View(s), ops, r);
  }
}
