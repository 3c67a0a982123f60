/**
 The ELF loader of `kernel/elf.c`: which files are accepted, and the memory image of one that is.
 */
module Elf {
  import opened Bytes

  const PT_LOAD: nat := 1
  const WORD: nat := 0x1_0000_0000_0000_0000

  type File = f: seq<Byte> | |f| < 0x1_0000_0000

  // ----- fields -----

  /** `n` bytes at `off`, the lowest first. */
  function Field(f: seq<Byte>, off: nat, n: nat): (v: nat)
    requires off + n <= |f|
    decreases n
  {
    if n == 0 then 0 else f[off] as nat + 256 * Field(f, off + 1, n - 1)
  }

  /** Two, four and eight bytes, the lowest first, written out. */
  function Word2(f: seq<Byte>, o: nat): nat
    requires o + 2 <= |f|
  {
    f[o] as nat + 0x100 * f[o + 1] as nat
  }

  function Word4(f: seq<Byte>, o: nat): nat
    requires o + 4 <= |f|
  {
    f[o] as nat + 0x100 * f[o + 1] as nat + 0x1_0000 * f[o + 2] as nat + 0x100_0000 * f[o + 3] as nat
  }

  function Word8(f: seq<Byte>, o: nat): nat
    requires o + 8 <= |f|
  {
    Word4(f, o) + 0x1_0000_0000 * Word4(f, o + 4)
  }

  lemma FieldIsWord2(f: seq<Byte>, o: nat)
    requires o + 2 <= |f|
    ensures Field(f, o, 2) == Word2(f, o)
  {
    assert Field(f, o + 2, 0) == 0 && Field(f, o + 1, 1) == f[o + 1] as nat;
  }

  lemma FieldIsWord4(f: seq<Byte>, o: nat)
    requires o + 4 <= |f|
    ensures Field(f, o, 4) == Word4(f, o)
  {
    FieldIsWord2(f, o + 2);
    assert Field(f, o + 1, 3) == f[o + 1] as nat + 256 * Field(f, o + 2, 2);
  }

  lemma FieldIsWord8(f: seq<Byte>, o: nat)
    requires o + 8 <= |f|
    ensures Field(f, o, 8) == Word8(f, o)
  {
    hide Word2;
    FieldIsWord4(f, o + 4);
    var hi := Field(f, o + 4, 4);
    assert Field(f, o + 3, 5) == f[o + 3] as nat + 256 * hi;
    assert Field(f, o + 2, 6) == f[o + 2] as nat + 256 * Field(f, o + 3, 5);
    assert Field(f, o + 1, 7) == f[o + 1] as nat + 256 * Field(f, o + 2, 6);
  }

  datatype Segment = Segment(kind: nat, offset: nat, vaddr: nat, filesz: nat, memsz: nat)

  /** The program header at `off`. */
  function Header(f: seq<Byte>, off: nat): Segment
    requires off + 56 <= |f|
  {
    Segment(Field(f, off, 4), Field(f, off + 8, 8), Field(f, off + 16, 8), Field(f, off + 32, 8), Field(f, off + 40, 8))
  }

  function Entry(f: seq<Byte>): nat
    requires |f| >= 64
  {
    Field(f, 24, 8)
  }

  function PhOff(f: seq<Byte>): nat
    requires |f| >= 64
  {
    Field(f, 32, 8)
  }

  function PhNum(f: seq<Byte>): nat
    requires |f| >= 64
  {
    Field(f, 56, 2)
  }

  /** An executable for this machine whose program headers lie in the file. */
  predicate HeaderOk(f: seq<Byte>) {
    && |f| >= 64
    && f[..7] == [0x7F, 0x45, 0x4C, 0x46, 2, 1, 1]
    && Field(f, 16, 2) == 2 && Field(f, 18, 2) == 62 && Field(f, 52, 2) == 64 && Field(f, 54, 2) == 56
    && 0 < PhNum(f) <= 8 && PhOff(f) + PhNum(f) * 56 <= |f|
  }

  /** The headers from number `i` on that ask for memory, in file order. */
  function Loads(f: seq<Byte>, i: nat): (r: seq<Segment>)
    requires HeaderOk(f) && i <= PhNum(f)
    ensures |r| <= PhNum(f) - i
    decreases PhNum(f) - i
  {
    if i == PhNum(f) then []
    else
      var s := Header(f, PhOff(f) + i * 56);
      (if s.kind == PT_LOAD && s.memsz != 0 then [s] else []) + Loads(f, i + 1)
  }

  /** Which bytes of a program header are which field. */
  lemma HeaderIs(f: seq<Byte>, h: nat)
    requires h + 56 <= |f|
    ensures Header(f, h) == Segment(Word4(f, h), Word8(f, h + 8), Word8(f, h + 16), Word8(f, h + 32), Word8(f, h + 40))
  {
    hide Field, Word4, Word8;
    FieldIsWord4(f, h);
    FieldIsWord8(f, h + 8);
    FieldIsWord8(f, h + 16);
    FieldIsWord8(f, h + 32);
    FieldIsWord8(f, h + 40);
  }

  /** Which bytes of a file make it one for this machine. */
  lemma HeaderOkIff(f: seq<Byte>)
    ensures HeaderOk(f) <==>
              && |f| >= 64 && f[0] == 0x7F && f[1] == 0x45 && f[2] == 0x4C && f[3] == 0x46 && f[4] == 2 && f[5] == 1 && f[6] == 1
              && f[16] == 2 && f[17] == 0 && f[18] == 0x3E && f[19] == 0 && f[52] == 64 && f[53] == 0 && f[54] == 56 && f[55] == 0
              && 1 <= f[56] <= 8 && f[57] == 0 && Word8(f, 32) + 56 * f[56] as nat <= |f|
    ensures HeaderOk(f) ==> PhNum(f) == f[56] as nat && PhOff(f) == Word8(f, 32) && Entry(f) == Word8(f, 24)
  {
    hide Field, Word4, Word8;
    if |f| >= 64 {
      FieldIsWord2(f, 16);
      FieldIsWord2(f, 18);
      FieldIsWord2(f, 52);
      FieldIsWord2(f, 54);
      FieldIsWord2(f, 56);
      FieldIsWord8(f, 24);
      FieldIsWord8(f, 32);
      assert f[..7] == [f[0], f[1], f[2], f[3], f[4], f[5], f[6]];
    }
  }

  /** The segments are those of the headers of type 1 that ask for memory. */
  lemma {:induction false} LoadsAre(f: seq<Byte>, i: nat, s: Segment)
    requires HeaderOk(f) && i <= PhNum(f)
    ensures s in Loads(f, i) <==> exists k :: i <= k < PhNum(f) && HeaderAt(f, k) == s && s.kind == 1 && s.memsz != 0
    decreases PhNum(f) - i
  {
    hide Field, Header, Loads;
    LoadsStep(f, i);
    if i < PhNum(f) {
      LoadsAre(f, i + 1, s);
      assert HeaderAt(f, i) == Header(f, PhOff(f) + i * 56);
    }
  }

  /** Program header number `k`. */
  function HeaderAt(f: seq<Byte>, k: nat): Segment
    requires HeaderOk(f) && k < PhNum(f)
  {
    Header(f, PhOff(f) + k * 56)
  }

  // ----- what is accepted -----

  /** The bytes are in the file, there is room for them, and the addresses do not wrap. */
  predicate SegmentOk(f: seq<Byte>, s: Segment) {
    s.filesz <= s.memsz && s.offset + s.filesz <= |f| && s.vaddr + s.memsz < WORD
  }

  predicate Covers(s: Segment, a: nat) {
    s.vaddr <= a < s.vaddr + s.memsz
  }

  ghost predicate Apart(s: Segment, t: Segment) {
    s.vaddr + s.memsz <= t.vaddr || t.vaddr + t.memsz <= s.vaddr
  }

  ghost predicate Disjoint(segs: seq<Segment>) {
    forall i, j | 0 <= i < j < |segs| :: Apart(segs[i], segs[j])
  }

  /** A file that loads: every segment sound, no two overlapping, the entry in one of them. */
  ghost predicate Accepted(f: seq<Byte>) {
    && HeaderOk(f) && Loads(f, 0) != []
    && (forall s <- Loads(f, 0) :: SegmentOk(f, s))
    && Disjoint(Loads(f, 0))
    && exists s :: s in Loads(f, 0) && Covers(s, Entry(f))
  }

  /** Header `k` asks for memory to be loaded. */
  predicate IsLoad(f: seq<Byte>, k: nat)
    requires HeaderOk(f) && k < PhNum(f)
  {
    HeaderAt(f, k).kind == 1 && HeaderAt(f, k).memsz != 0
  }

  /** What is accepted, header by header: no two of them may even be the same. */
  lemma AcceptedIff(f: seq<Byte>)
    ensures Accepted(f) <==>
              && HeaderOk(f)
              && (forall k | 0 <= k < PhNum(f) && IsLoad(f, k) ::
                    var s := HeaderAt(f, k); s.filesz <= s.memsz && s.offset + s.filesz <= |f| && s.vaddr + s.memsz < 0x1_0000_0000_0000_0000)
              && (forall j, k | 0 <= j < k < PhNum(f) && IsLoad(f, j) && IsLoad(f, k) ::
                    var s, t := HeaderAt(f, j), HeaderAt(f, k); s.vaddr + s.memsz <= t.vaddr || t.vaddr + t.memsz <= s.vaddr)
              && (exists k :: 0 <= k < PhNum(f) && IsLoad(f, k) && HeaderAt(f, k).vaddr <= Entry(f) < HeaderAt(f, k).vaddr + HeaderAt(f, k).memsz)
  {
    hide Field, Header, Loads, HeaderAt;
    if HeaderOk(f) {
      forall s ensures s in Loads(f, 0) <==> exists k :: 0 <= k < PhNum(f) && HeaderAt(f, k) == s && IsLoad(f, k) {
        LoadsAre(f, 0, s);
      }
      LoadsDisjoint(f, 0);
      forall k | 0 <= k < PhNum(f) && IsLoad(f, k) ensures HeaderAt(f, k) in Loads(f, 0) {
      }
      assert (forall s <- Loads(f, 0) :: SegmentOk(f, s)) <==> forall k | 0 <= k < PhNum(f) && IsLoad(f, k) :: SegmentOk(f, HeaderAt(f, k));
      assert (exists s :: s in Loads(f, 0) && Covers(s, Entry(f))) <==> exists k :: 0 <= k < PhNum(f) && IsLoad(f, k) && Covers(HeaderAt(f, k), Entry(f)) by {
        if s :| s in Loads(f, 0) && Covers(s, Entry(f)) {
          var k :| 0 <= k < PhNum(f) && HeaderAt(f, k) == s && IsLoad(f, k);
        }
      }
      assert (exists s :: s in Loads(f, 0) && Covers(s, Entry(f))) ==> Loads(f, 0) != [];
    }
  }

  lemma {:induction false} LoadsDisjoint(f: seq<Byte>, i: nat)
    requires HeaderOk(f) && i <= PhNum(f)
    ensures Disjoint(Loads(f, i)) <==>
              forall j, k | i <= j < k < PhNum(f) && IsLoad(f, j) && IsLoad(f, k) :: Apart(HeaderAt(f, j), HeaderAt(f, k))
    decreases PhNum(f) - i
  {
    hide Field, Header, Loads, HeaderAt, Apart;
    LoadsStep(f, i);
    if i < PhNum(f) {
      LoadsDisjoint(f, i + 1);
      var s, rest := HeaderAt(f, i), Loads(f, i + 1);
      HeaderAtIs(f, i);
      if IsLoad(f, i) {
        assert Loads(f, i) == [s] + rest;
        assert Disjoint([s] + rest) <==> Disjoint(rest) && forall t <- rest :: Apart(s, t) by { ConsDisjoint(s, rest); }
        forall t ensures t in rest <==> exists k :: i + 1 <= k < PhNum(f) && HeaderAt(f, k) == t && IsLoad(f, k) {
          LoadsAre(f, i + 1, t);
        }
      }
    }
  }

  lemma HeaderAtIs(f: seq<Byte>, k: nat)
    requires HeaderOk(f) && k < PhNum(f)
    ensures PhOff(f) + k * 56 + 56 <= |f| && HeaderAt(f, k) == Header(f, PhOff(f) + k * 56)
  {
  }

  lemma ConsDisjoint(s: Segment, rest: seq<Segment>)
    ensures Disjoint([s] + rest) <==> Disjoint(rest) && forall t <- rest :: Apart(s, t)
  {
    var all := [s] + rest;
    if Disjoint(all) {
      forall i, j | 0 <= i < j < |rest| ensures Apart(rest[i], rest[j]) {
        assert all[i + 1] == rest[i] && all[j + 1] == rest[j];
      }
      forall t <- rest ensures Apart(s, t) {
        var j :| 0 <= j < |rest| && rest[j] == t;
        assert all[0] == s && all[j + 1] == t;
      }
    }
    if Disjoint(rest) && forall t <- rest :: Apart(s, t) {
      forall i, j | 0 <= i < j < |all| ensures Apart(all[i], all[j]) {
        assert all[j] == rest[j - 1] && (i > 0 ==> all[i] == rest[i - 1]) && rest[j - 1] in rest;
      }
    }
  }

  ghost predicate Sorted(segs: seq<Segment>) {
    forall i, j | 0 <= i < j < |segs| :: segs[i].vaddr <= segs[j].vaddr
  }

  /** In a sorted list it is enough to look at neighbours. */
  lemma NeighboursApart(segs: seq<Segment>)
    requires Sorted(segs) && forall s <- segs :: s.memsz > 0
    ensures Disjoint(segs) <==> forall i | 1 <= i < |segs| :: segs[i].vaddr >= segs[i - 1].vaddr + segs[i - 1].memsz
  {
    if forall i | 1 <= i < |segs| :: segs[i].vaddr >= segs[i - 1].vaddr + segs[i - 1].memsz {
      forall i, j | 0 <= i < j < |segs| ensures Apart(segs[i], segs[j]) {
        assert segs[i + 1].vaddr >= segs[i].vaddr + segs[i].memsz;
        assert i + 1 < j ==> segs[i + 1].vaddr <= segs[j].vaddr;
      }
    } else {
      var i :| 1 <= i < |segs| && segs[i].vaddr < segs[i - 1].vaddr + segs[i - 1].memsz;
      assert segs[i - 1].vaddr <= segs[i].vaddr && segs[i] in segs;
      assert !Apart(segs[i - 1], segs[i]);
    }
  }

  lemma {:induction false} FindTwo(segs: seq<Segment>, s: Segment)
    requires multiset(segs)[s] >= 2
    ensures exists i, j :: 0 <= i < j < |segs| && segs[i] == s && segs[j] == s
  {
    assert segs == [segs[0]] + segs[1..];
    if segs[0] == s {
      assert s in multiset(segs[1..]);
      var j :| 0 <= j < |segs[1..]| && segs[1..][j] == s;
      assert segs[j + 1] == s;
    } else {
      FindTwo(segs[1..], s);
      var i, j :| 0 <= i < j < |segs[1..]| && segs[1..][i] == s && segs[1..][j] == s;
      assert segs[i + 1] == s && segs[j + 1] == s;
    }
  }

  lemma TwiceIn(b: seq<Segment>, i: nat, j: nat)
    requires i < j < |b| && b[i] == b[j]
    ensures multiset(b)[b[i]] >= 2
  {
    assert b == b[..i] + [b[i]] + b[i + 1..j] + [b[j]] + b[j + 1..];
  }

  /** Overlap is a matter of which segments there are and how often, not of their order. */
  lemma DisjointIff(segs: seq<Segment>)
    requires forall s <- segs :: s.memsz > 0
    ensures Disjoint(segs) <==>
              (forall s, t | s in segs && t in segs && s != t :: Apart(s, t)) && (forall s | s in segs :: multiset(segs)[s] == 1)
  {
    if Disjoint(segs) {
      forall s, t | s in segs && t in segs && s != t ensures Apart(s, t) {
        var i :| 0 <= i < |segs| && segs[i] == s;
        var j :| 0 <= j < |segs| && segs[j] == t;
        assert Apart(segs[if i < j then i else j], segs[if i < j then j else i]);
      }
      forall s | s in segs ensures multiset(segs)[s] == 1 {
        assert s in multiset(segs);
        if multiset(segs)[s] >= 2 {
          FindTwo(segs, s);
        }
      }
    } else {
      var i, j :| 0 <= i < j < |segs| && !Apart(segs[i], segs[j]);
      assert segs[i] in segs && segs[j] in segs;
      if segs[i] == segs[j] {
        TwiceIn(segs, i, j);
      }
    }
  }

  lemma DisjointPermutes(a: seq<Segment>, b: seq<Segment>)
    requires multiset(a) == multiset(b) && forall s <- a :: s.memsz > 0
    ensures Disjoint(a) <==> Disjoint(b)
  {
    SameMembers(a, b);
    DisjointIff(a);
    DisjointIff(b);
  }

  // ----- the image -----

  /** The byte a segment puts at address `a`: from the file, or zero past what the file has. */
  function SegByte(f: seq<Byte>, s: Segment, a: nat): Byte
    requires SegmentOk(f, s) && Covers(s, a)
  {
    if a - s.vaddr < s.filesz then f[s.offset + (a - s.vaddr)] else 0
  }

  /** The byte at address `a`: that of a segment covering it, or zero. */
  function ImageByte(f: seq<Byte>, segs: seq<Segment>, a: nat): Byte
    requires forall s <- segs :: SegmentOk(f, s)
  {
    if segs == [] then 0
    else if Covers(segs[0], a) then SegByte(f, segs[0], a)
    else ImageByte(f, segs[1..], a)
  }

  /** With disjoint segments the one that covers an address decides, wherever it stands in the list. */
  lemma {:induction false} ImageByteIs(f: seq<Byte>, segs: seq<Segment>, a: nat)
    requires (forall s <- segs :: SegmentOk(f, s)) && Disjoint(segs)
    ensures forall s <- segs :: Covers(s, a) ==> ImageByte(f, segs, a) == SegByte(f, s, a)
    ensures (forall s <- segs :: !Covers(s, a)) ==> ImageByte(f, segs, a) == 0
  {
    if segs != [] {
      assert Disjoint(segs[1..]);
      ImageByteIs(f, segs[1..], a);
      forall s <- segs | Covers(s, a) ensures ImageByte(f, segs, a) == SegByte(f, s, a) {
        var i :| 0 <= i < |segs| && segs[i] == s;
        assert i > 0 ==> Apart(segs[0], segs[i]) && s in segs[1..];
      }
    }
  }

  /** The image of a file over `size` bytes from `base` on. */
  function Image(f: seq<Byte>, segs: seq<Segment>, base: nat, size: nat): seq<Byte>
    requires forall s <- segs :: SegmentOk(f, s)
  {
    seq(size, i requires 0 <= i < size => ImageByte(f, segs, base + i))
  }

  /** The bytes `out` from address `base` on have those of the segment, and zeros up to its size in memory. */
  ghost predicate HasSegment(f: seq<Byte>, out: seq<Byte>, base: nat, s: Segment) {
    && base <= s.vaddr && s.vaddr + s.memsz <= base + |out| && s.offset + s.filesz <= |f|
    && forall a | s.vaddr - base <= a < s.vaddr + s.memsz - base ::
         out[a] == var x := base + a - s.vaddr; if x < s.filesz then f[s.offset + x] else 0
  }

  /** Every segment is in its place, and what no segment covers is zero. */
  ghost predicate Loaded(f: seq<Byte>, out: seq<Byte>, base: nat)
    requires HeaderOk(f)
  {
    && (forall k | 0 <= k < PhNum(f) && HeaderAt(f, k).kind == 1 && HeaderAt(f, k).memsz != 0 :: HasSegment(f, out, base, HeaderAt(f, k)))
    && (forall a | 0 <= a < |out| && (forall k | 0 <= k < PhNum(f) && HeaderAt(f, k).kind == 1 && HeaderAt(f, k).memsz != 0 ::
                                        !(HeaderAt(f, k).vaddr <= base + a < HeaderAt(f, k).vaddr + HeaderAt(f, k).memsz)) :: out[a] == 0)
  }

  lemma ImageIsLoaded(f: seq<Byte>, base: nat, size: nat)
    requires Accepted(f) && Fits(Loads(f, 0), base, size)
    ensures Loaded(f, Image(f, Loads(f, 0), base, size), base)
  {
    hide Header, Field, ImageByte, Loads, HeaderAt, Disjoint, HasSegment;
    var segs := Loads(f, 0);
    var out := Image(f, segs, base, size);
    forall k | 0 <= k < PhNum(f) && HeaderAt(f, k).kind == 1 && HeaderAt(f, k).memsz != 0
      ensures HasSegment(f, out, base, HeaderAt(f, k))
    {
      var s := HeaderAt(f, k);
      LoadsAre(f, 0, s);
      SegmentInPlace(f, segs, s, base, size);
    }
    forall a | 0 <= a < |out| && (forall k | 0 <= k < PhNum(f) && HeaderAt(f, k).kind == 1 && HeaderAt(f, k).memsz != 0 ::
                                    !(HeaderAt(f, k).vaddr <= base + a < HeaderAt(f, k).vaddr + HeaderAt(f, k).memsz)) ensures out[a] == 0 {
      forall s <- segs ensures !Covers(s, base + a) {
        LoadsAre(f, 0, s);
      }
      ImageByteIs(f, segs, base + a);
    }
  }

  lemma SegmentInPlace(f: seq<Byte>, segs: seq<Segment>, s: Segment, base: nat, size: nat)
    requires (forall t <- segs :: SegmentOk(f, t)) && Disjoint(segs) && s in segs && Fits(segs, base, size)
    ensures HasSegment(f, Image(f, segs, base, size), base, s)
  {
    hide ImageByte, Disjoint;
    forall a | s.vaddr - base <= a < s.vaddr + s.memsz - base
      ensures Image(f, segs, base, size)[a] == var x := base + a - s.vaddr; if x < s.filesz then f[s.offset + x] else 0
    {
      ImageByteIs(f, segs, base + a);
      assert Covers(s, base + a);
    }
  }

  /** The order of the program headers does not matter: the same segments give the same image. */
  lemma OrderDoesNotMatter(f: seq<Byte>, g: seq<Byte>, a: seq<Segment>, b: seq<Segment>, base: nat, size: nat)
    requires multiset(a) == multiset(b) && Disjoint(a)
    requires (forall s <- a :: SegmentOk(f, s) && s.memsz > 0) && (forall s <- b :: SegmentOk(g, s))
    requires forall s, x: nat | s in a && s in b && Covers(s, x) :: SegByte(f, s, x) == SegByte(g, s, x)
    ensures Disjoint(b) && Image(f, a, base, size) == Image(g, b, base, size)
  {
    DisjointPermutes(a, b);
    forall i | 0 <= i < size ensures Image(f, a, base, size)[i] == Image(g, b, base, size)[i] {
      SameByte(f, g, a, b, base + i);
    }
  }

  lemma SameByte(f: seq<Byte>, g: seq<Byte>, a: seq<Segment>, b: seq<Segment>, x: nat)
    requires multiset(a) == multiset(b) && Disjoint(a) && Disjoint(b)
    requires (forall s <- a :: SegmentOk(f, s)) && (forall s <- b :: SegmentOk(g, s))
    requires forall s | s in a && s in b && Covers(s, x) :: SegByte(f, s, x) == SegByte(g, s, x)
    ensures ImageByte(f, a, x) == ImageByte(g, b, x)
  {
    ImageByteIs(f, a, x);
    ImageByteIs(g, b, x);
    SameMembers(a, b);
    if s :| s in a && Covers(s, x) {
      assert SegByte(f, s, x) == SegByte(g, s, x);
    }
  }

  lemma SameMembers(a: seq<Segment>, b: seq<Segment>)
    requires multiset(a) == multiset(b)
    ensures forall s :: s in a <==> s in b
  {
    forall s ensures s in a <==> s in b {
      assert s in a <==> s in multiset(a);
      assert s in b <==> s in multiset(b);
    }
  }

  // ----- parsing -----

  /** The collecting loop of `elf_parse`; false as soon as a segment is unsound. */
  method Collect(f: File) returns (ok: bool, segs: seq<Segment>)
    requires HeaderOk(f)
    ensures ok <==> forall s <- Loads(f, 0) :: SegmentOk(f, s)
    ensures ok ==> segs == Loads(f, 0)
  {
    hide Field, HeaderOk, SegmentOk, Loads;
    LoadsStep(f, 0);
    var i := 0;
    segs := [];
    assert segs + Loads(f, 0) == Loads(f, 0);
    while i < PhNum(f)
      invariant i <= PhNum(f) && segs + Loads(f, i) == Loads(f, 0) && forall s <- segs :: SegmentOk(f, s)
    {
      LoadsStep(f, i);
      var s := Header(f, PhOff(f) + i * 56);
      if s.kind == PT_LOAD && s.memsz != 0 {
        SoundIff(f, PhOff(f) + i * 56);
        assert s in Loads(f, i);
        if s.filesz > s.memsz || s.offset > |f| || s.filesz > |f| - s.offset || (s.vaddr + s.memsz) % WORD < s.vaddr {
          assert s in segs + Loads(f, i);
          return false, segs;
        }
        assert segs + ([s] + Loads(f, i + 1)) == segs + [s] + Loads(f, i + 1);
        segs := segs + [s];
      }
      i := i + 1;
    }
    LoadsStep(f, PhNum(f));
    assert segs == Loads(f, 0);
    ok := true;
  }

  lemma LoadsStep(f: seq<Byte>, i: nat)
    requires HeaderOk(f) && i <= PhNum(f)
    ensures |f| >= 64 && (i < PhNum(f) ==> PhOff(f) + i * 56 + 56 <= |f|)
    ensures if i == PhNum(f) then Loads(f, i) == []
            else var s := Header(f, PhOff(f) + i * 56);
              Loads(f, i) == if s.kind == PT_LOAD && s.memsz != 0 then [s] + Loads(f, i + 1) else Loads(f, i + 1)
  {
  }

  /** The source's checks, with its 64-bit sum, are those of `SegmentOk`. */
  lemma SoundIff(f: seq<Byte>, off: nat)
    requires off + 56 <= |f|
    ensures var s := Header(f, off);
      !(s.filesz > s.memsz || s.offset > |f| || s.filesz > |f| - s.offset || (s.vaddr + s.memsz) % WORD < s.vaddr) <==> SegmentOk(f, s)
  {
    FieldBounds(f, off);
    var s := Header(f, off);
    hide Header, Field;
    WrapIff(s.vaddr, s.memsz);
  }

  /** The 64-bit sum is smaller than its first term exactly when it wraps. */
  lemma WrapIff(a: nat, b: nat)
    requires a < WORD && b < WORD
    ensures (a + b) % WORD < a <==> a + b >= WORD
  {
    if a + b >= WORD {
      assert (a + b) % WORD == a + b - WORD;
    }
  }

  lemma {:induction false} FieldBound(f: seq<Byte>, off: nat, n: nat)
    requires off + n <= |f| && n <= 8
    ensures Field(f, off, n) < Pow(n)
    decreases n
  {
    if n > 0 {
      FieldBound(f, off + 1, n - 1);
    }
  }

  function Pow(n: nat): nat {
    if n == 0 then 1 else 256 * Pow(n - 1)
  }

  lemma FieldBounds(f: seq<Byte>, off: nat)
    requires off + 56 <= |f|
    ensures Header(f, off).vaddr < WORD && Header(f, off).memsz < WORD && Header(f, off).offset < WORD && Header(f, off).filesz < WORD
  {
    FieldBound(f, off + 8, 8);
    FieldBound(f, off + 16, 8);
    FieldBound(f, off + 32, 8);
    FieldBound(f, off + 40, 8);
    assert Pow(4) == 0x1_0000_0000;
    assert Pow(8) == WORD;
  }

  /** The elements from `j` to before `i` have moved up by one. */
  ghost predicate Shifted(was: seq<Segment>, r: seq<Segment>, i: nat, j: nat) {
    && j <= i < |was| == |r|
    && (forall k | 0 <= k < j :: r[k] == was[k])
    && (forall k | j < k <= i :: r[k] == was[k - 1])
    && (forall k | i < k < |r| :: r[k] == was[k])
  }

  /** The inner loop of the insertion sort: element `i` goes to its place among the sorted ones before it. */
  method Insert(segs: seq<Segment>, i: nat) returns (r: seq<Segment>)
    requires i < |segs| && Sorted(segs[..i])
    ensures |r| == |segs| && Sorted(r[..i + 1]) && multiset(r) == multiset(segs)
  {
    hide Sorted;
    r := segs;
    var key, j := segs[i], i;
    while j > 0 && r[j - 1].vaddr > key.vaddr
      invariant 0 <= j <= i && |r| == |segs|
      invariant Shifted(segs, r, i, j)
      invariant forall k | j < k <= i :: r[k].vaddr > key.vaddr
    {
      r := r[j := r[j - 1]];
      j := j - 1;
    }
    r := r[j := key];
    Inserted(segs, r, i, j, key);
  }

  /** The insertion sort of `elf_parse`, by address. */
  method SortByAddress(segs: seq<Segment>) returns (r: seq<Segment>)
    ensures Sorted(r) && multiset(r) == multiset(segs)
  {
    hide Sorted;
    r := segs;
    SortedShort(r);
    var i := 1;
    while i < |r|
      invariant 1 <= i && |r| == |segs| && (i <= |r| || |r| == 0) && Sorted(r[..if i <= |r| then i else 0]) && multiset(r) == multiset(segs)
    {
      r := Insert(r, i);
      i := i + 1;
    }
    assert r[..|r|] == r;
  }

  lemma SortedShort(r: seq<Segment>)
    ensures Sorted(r[..if |r| >= 1 then 1 else 0])
  {
  }

  lemma Inserted(was: seq<Segment>, r: seq<Segment>, i: nat, j: nat, key: Segment)
    requires j <= i < |was| && key == was[i] && Sorted(was[..i])
    requires Shifted(was, r, i, j) && r[j] == key
    requires j > 0 ==> was[j - 1].vaddr <= key.vaddr
    requires forall k | j < k <= i :: r[k].vaddr > key.vaddr
    ensures Sorted(r[..i + 1]) && multiset(r) == multiset(was)
  {
    InsertedSame(was, r, i, j);
    forall a, b | 0 <= a < b < i + 1 ensures r[a].vaddr <= r[b].vaddr {
      var x, y := if a < j then a else a - 1, if b < j then b else b - 1;
      if a != j && b != j {
        assert r[a] == was[..i][x] && r[b] == was[..i][y];
      } else if b == j {
        assert r[a] == was[..i][a] && (a == j - 1 || was[..i][a].vaddr <= was[..i][j - 1].vaddr);
      }
    }
  }

  lemma InsertedSame(was: seq<Segment>, r: seq<Segment>, i: nat, j: nat)
    requires Shifted(was, r, i, j) && r[j] == was[i]
    ensures multiset(r) == multiset(was)
  {
    var x, y, z := was[..j], was[j..i], was[i + 1..];
    CutInFour(was, j, i);
    ShiftedParts(was, r, i, j);
    hide Shifted;
    assert multiset(was) == multiset(x) + multiset(y) + multiset([was[i]]) + multiset(z);
    assert multiset(r) == multiset(x) + multiset([was[i]]) + multiset(y) + multiset(z);
  }

  lemma CutInFour(was: seq<Segment>, j: nat, i: nat)
    requires j <= i < |was|
    ensures was == was[..j] + was[j..i] + [was[i]] + was[i + 1..]
  {
  }

  lemma ShiftedParts(was: seq<Segment>, r: seq<Segment>, i: nat, j: nat)
    requires Shifted(was, r, i, j) && r[j] == was[i]
    ensures r == was[..j] + [was[i]] + was[j..i] + was[i + 1..]
  {
  }

  /** The overlap check of `elf_parse` on a sorted list. */
  method NoOverlap(segs: seq<Segment>) returns (ok: bool)
    requires Sorted(segs) && forall s <- segs :: s.memsz > 0
    ensures ok <==> Disjoint(segs)
  {
    NeighboursApart(segs);
    hide Disjoint, Sorted;
    var i := 1;
    while i < |segs|
      invariant 1 <= i && forall k | 1 <= k < i && k < |segs| :: segs[k].vaddr >= segs[k - 1].vaddr + segs[k - 1].memsz
    {
      if segs[i].vaddr < segs[i - 1].vaddr + segs[i - 1].memsz {
        return false;
      }
      i := i + 1;
    }
    ok := true;
  }

  /** The entry check of `elf_parse`. */
  method EntryInside(segs: seq<Segment>, entry: nat) returns (hit: bool)
    ensures hit <==> exists s :: s in segs && Covers(s, entry)
  {
    hit := false;
    var i := 0;
    while i < |segs|
      invariant 0 <= i <= |segs| && (hit <==> exists k :: 0 <= k < i && Covers(segs[k], entry))
    {
      if segs[i].vaddr <= entry < segs[i].vaddr + segs[i].memsz {
        hit := true;
      }
      i := i + 1;
    }
  }

  /** `elf_parse`: it accepts exactly the accepted files, and hands out their segments by address. */
  method Parse(f: File) returns (ok: bool, segs: seq<Segment>)
    ensures ok <==> Accepted(f)
    ensures ok ==> Sorted(segs) && Disjoint(segs) && multiset(segs) == multiset(Loads(f, 0)) && forall s <- segs :: SegmentOk(f, s) && s.memsz > 0
  {
    hide Field, Loads, SegmentOk, Disjoint, Covers;
    segs := [];
    if !HeaderOk(f) {
      return false, segs;
    }
    ok, segs := Collect(f);
    if !ok || segs == [] {
      return false, segs;
    }
    ghost var loads := segs;
    LoadsPositive(f, 0);
    segs := SortByAddress(segs);
    SameMembers(loads, segs);
    DisjointPermutes(loads, segs);
    ok := NoOverlap(segs);
    if ok {
      ok := EntryInside(segs, Entry(f));
    }
  }

  lemma {:induction false} LoadsPositive(f: seq<Byte>, i: nat)
    requires HeaderOk(f) && i <= PhNum(f)
    ensures forall s <- Loads(f, i) :: s.memsz > 0
    decreases PhNum(f) - i
  {
    hide Field;
    if i < PhNum(f) {
      LoadsPositive(f, i + 1);
    }
  }

  // ----- loading -----

  /** One segment written over the bytes that are there. */
  method Place(out: array<Byte>, f: File, s: Segment, rel: nat)
    requires SegmentOk(f, s) && rel + s.memsz <= out.Length
    modifies out
    ensures forall k | 0 <= k < out.Length ::
              out[k] == if rel <= k < rel + s.memsz then SegByte(f, s, s.vaddr + (k - rel)) else old(out[k])
  {
    var i := 0;
    while i < s.filesz
      invariant i <= s.filesz
      invariant forall k | 0 <= k < out.Length :: out[k] == if rel <= k < rel + i then f[s.offset + (k - rel)] else old(out[k])
    {
      out[rel + i] := f[s.offset + i];
      i := i + 1;
    }
    while i < s.memsz
      invariant s.filesz <= i <= s.memsz
      invariant forall k | 0 <= k < out.Length ::
        out[k] == if rel <= k < rel + s.filesz then f[s.offset + (k - rel)] else if rel + s.filesz <= k < rel + i then 0 else old(out[k])
    {
      out[rel + i] := 0;
      i := i + 1;
    }
  }

  /** Every segment lies in the destination. */
  ghost predicate Fits(segs: seq<Segment>, base: nat, size: nat) {
    forall s <- segs :: base <= s.vaddr && s.vaddr + s.memsz <= base + size
  }

  /** `elf_load`: for an accepted file whose lowest segment is at `vaddr` and that fits, exactly its image. */
  method Load(f: File, out: array<Byte>, vaddr: nat) returns (ok: bool, entry: nat)
    modifies out
    ensures ok <==> Accepted(f) && (exists s :: s in Loads(f, 0) && s.vaddr == vaddr) && Fits(Loads(f, 0), vaddr, out.Length)
    ensures ok ==> entry == Entry(f) && (exists s :: s in Loads(f, 0) && Covers(s, entry)) && out[..] == Image(f, Loads(f, 0), vaddr, out.Length)
    ensures ok ==> HeaderOk(f) && entry == Word8(f, 24) && Loaded(f, out[..], vaddr)
  {
    hide Field, Loads, SegmentOk, Disjoint, HeaderOk, ImageByte, SegByte, Loaded, Word8;
    HeaderOkIff(f);
    entry := 0;
    var good, segs := Parse(f);
    if !good {
      return false, 0;
    }
    SameMembers(Loads(f, 0), segs);
    LowestFirst(segs, vaddr);
    LoadsStep(f, 0);
    if segs[0].vaddr != vaddr {
      return false, 0;
    }
    var i := 0;
    while i < out.Length
      invariant 0 <= i <= out.Length && forall k | 0 <= k < i :: out[k] == 0
    {
      out[i] := 0;
      i := i + 1;
    }
    var n := 0;
    EmptyImage(f, out[..], vaddr);
    while n < |segs|
      invariant n <= |segs| && (forall s <- segs :: SegmentOk(f, s)) && Fits(segs[..n], vaddr, out.Length)
      invariant Painted(f, segs[..n], vaddr, out[..])
    {
      var s := segs[n];
      assert s in segs && vaddr <= s.vaddr;
      var rel := s.vaddr - vaddr;
      if rel > out.Length || s.memsz > out.Length - rel {
        assert s in Loads(f, 0);
        return false, 0;
      }
      ghost var was := out[..];
      Place(out, f, s, rel);
      PaintedMore(f, segs, n, vaddr, was, out[..]);
      n := n + 1;
    }
    assert segs[..n] == segs;
    PaintedImage(f, segs, Loads(f, 0), vaddr, out[..]);
    ImageIsLoaded(f, vaddr, out.Length);
    ok, entry := true, Entry(f);
  }

  lemma LowestFirst(segs: seq<Segment>, v: nat)
    requires Sorted(segs)
    ensures forall s <- segs :: segs[0].vaddr <= s.vaddr
    ensures segs != [] ==> (segs[0].vaddr == v <==> (exists s :: s in segs && s.vaddr == v) && (forall s <- segs :: v <= s.vaddr))
  {
  }

  /** The buffer holds the image of the segments placed so far. */
  ghost predicate Painted(f: seq<Byte>, segs: seq<Segment>, base: nat, out: seq<Byte>) {
    && (forall s <- segs :: SegmentOk(f, s))
    && forall k | 0 <= k < |out| :: out[k] == ImageByte(f, segs, base + k)
  }

  lemma EmptyImage(f: seq<Byte>, out: seq<Byte>, base: nat)
    requires forall k | 0 <= k < |out| :: out[k] == 0
    ensures Painted(f, [], base, out)
  {
  }

  lemma PaintedMore(f: seq<Byte>, segs: seq<Segment>, n: nat, base: nat, was: seq<Byte>, out: seq<Byte>)
    requires n < |segs| && Disjoint(segs) && (forall s <- segs :: SegmentOk(f, s)) && base <= segs[n].vaddr
    requires Painted(f, segs[..n], base, was) && |out| == |was|
    requires var s := segs[n]; var rel := s.vaddr - base;
      forall k | 0 <= k < |out| :: out[k] == if rel <= k < rel + s.memsz then SegByte(f, s, s.vaddr + (k - rel)) else was[k]
    ensures Painted(f, segs[..n + 1], base, out)
  {
    hide SegByte, ImageByte, SegmentOk;
    var s := segs[n];
    assert segs[..n + 1] == segs[..n] + [s];
    forall k | 0 <= k < |out| ensures out[k] == ImageByte(f, segs[..n + 1], base + k) {
      ImageByteIs(f, segs[..n], base + k);
      ImageByteIs(f, segs[..n + 1], base + k);
      assert s in segs[..n + 1];
      if !Covers(s, base + k) {
        if t :| t in segs[..n] && Covers(t, base + k) {
          assert t in segs[..n + 1];
        }
      }
    }
  }

  lemma PaintedImage(f: seq<Byte>, segs: seq<Segment>, loads: seq<Segment>, base: nat, out: seq<Byte>)
    requires Painted(f, segs, base, out) && multiset(segs) == multiset(loads) && Disjoint(segs) && forall s <- segs :: s.memsz > 0
    ensures (forall s <- loads :: SegmentOk(f, s)) && out == Image(f, loads, base, |out|)
  {
    hide SegByte, ImageByte, SegmentOk;
    SameMembers(segs, loads);
    OrderDoesNotMatter(f, f, segs, loads, base, |out|);
  }
}
