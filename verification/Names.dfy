/**
 File names of `kernel/fs.c`: the 8.3 form, long names in directory slots, and generated aliases.
 */
module Names {
  import opened Bytes
  import opened Directories

  type Name = seq<Byte>

  const SPACE: Byte := 0x20
  const TILDE: Byte := 0x7E
  const NAME_MAX: nat := 16
  const LFN_CHARS: nat := 13

  // ----- characters -----

  /** `fold_az`. */
  function Fold(c: Byte): Byte {
    if 0x41 <= c <= 0x5A then c + 0x20 else c
  }

  predicate NameChar(c: Byte) {
    0x61 <= c <= 0x7A || 0x30 <= c <= 0x39
  }

  predicate Good(c: Byte) {
    NameChar(Fold(c))
  }

  function Up(c: Byte): Byte {
    if 0x61 <= c <= 0x7A then c - 0x20 else c
  }

  function Lower(s: Name): (r: Name)
    ensures |r| == |s| && forall i | 0 <= i < |s| :: r[i] == Fold(s[i])
  {
    seq(|s|, i requires 0 <= i < |s| => Fold(s[i]))
  }

  function Upper(s: Name): (r: Name)
    ensures |r| == |s| && forall i | 0 <= i < |s| :: r[i] == Up(Fold(s[i]))
  {
    seq(|s|, i requires 0 <= i < |s| => Up(Fold(s[i])))
  }

  ghost predicate AllGood(s: Name) {
    forall i | 0 <= i < |s| :: Good(s[i])
  }

  // ----- 8.3 names -----

  /** Where the first dot is, or the length. */
  function Dot(s: Name, i: nat): (d: nat)
    requires i <= |s|
    ensures i <= d <= |s| && (d < |s| ==> s[d] == DOT) && forall k | i <= k < d :: s[k] != DOT
    decreases |s| - i
  {
    if i == |s| || s[i] == DOT then i else Dot(s, i + 1)
  }

  function Base(s: Name): Name {
    s[..Dot(s, 0)]
  }

  function Ext(s: Name): Name {
    if Dot(s, 0) < |s| then s[Dot(s, 0) + 1..] else []
  }

  /** What fits 8.3: one to eight letters and digits, then perhaps a dot and one to three more. */
  ghost predicate Fits83(s: Name) {
    && 1 <= |Base(s)| <= 8 && AllGood(Base(s))
    && (Dot(s, 0) < |s| ==> 1 <= |Ext(s)| <= 3 && AllGood(Ext(s)))
  }

  function Padded(s: Name, n: nat): (r: Name)
    ensures |r| == if |s| < n then n else |s|
  {
    if |s| < n then s + seq(n - |s|, _ => SPACE) else s
  }

  /** The eleven bytes of the slot. */
  function Short(s: Name): Name {
    Padded(Upper(Base(s)), 8) + Padded(Upper(Ext(s)), 3)
  }

  /** The bytes up to the first space, in lower case. */
  function Shown(s: Name): Name
  {
    if s == [] || s[0] == SPACE then [] else [Fold(s[0])] + Shown(s[1..])
  }

  /** `fat_name`. */
  function FatName(n83: Name): Name
    requires |n83| == 11
  {
    Shown(n83[..8]) + if n83[8] != SPACE then [DOT] + Shown(n83[8..]) else []
  }

  lemma GoodIsVisible(c: Byte)
    requires Good(c)
    ensures Up(Fold(c)) != SPACE && Fold(Up(Fold(c))) == Fold(c) && c != DOT && c >= 0x20
    ensures Up(Fold(c)) != 0 && Up(Fold(c)) != ERASED && Up(Fold(c)) != DOT
  {
  }

  lemma {:induction false} ShownPadded(s: Name, n: nat)
    requires AllGood(s) && |s| <= n
    ensures Shown(Padded(Upper(s), n)) == Lower(s)
    decreases |s|
  {
    var p := Padded(Upper(s), n);
    if s != [] {
      assert Good(s[0]);
      GoodIsVisible(s[0]);
      assert AllGood(s[1..]);
      ShownPadded(s[1..], n - 1);
      assert p[1..] == Padded(Upper(s[1..]), n - 1);
      assert Lower(s) == [Fold(s[0])] + Lower(s[1..]);
    }
  }

  lemma SplitAtDot(s: Name)
    ensures s == if Dot(s, 0) < |s| then Base(s) + [DOT] + Ext(s) else Base(s)
  {
    hide Dot;
    SplitAt(s, Dot(s, 0));
  }

  lemma SplitAt(s: Name, d: nat)
    requires d <= |s|
    ensures s == if d < |s| then s[..d] + [s[d]] + s[d + 1..] else s[..d]
  {
  }

  /** Reading an 8.3 name back gives the name in lower case. */
  lemma ShortRoundTrip(s: Name)
    requires Fits83(s)
    ensures |Short(s)| == 11 && FatName(Short(s)) == Lower(s)
  {
    hide Dot, Shown, Base, Ext, AllGood, FatName, Padded;
    var base, ext := Base(s), Ext(s);
    if Dot(s, 0) == |s| {
      NoExt(s);
    }
    FatNameOf(Padded(Upper(base), 8), Padded(Upper(ext), 3));
    ShownPadded(base, 8);
    SplitAtDot(s);
    if Dot(s, 0) < |s| {
      ShownPadded(ext, 3);
      FirstGood(ext);
      LowerParts(base, ext);
    }
  }

  lemma FatNameOf(x: Name, y: Name)
    requires |x| == 8 && |y| == 3
    ensures FatName(x + y) == Shown(x) + if y[0] != SPACE then [DOT] + Shown(y) else []
  {
    hide Shown;
    assert (x + y)[..8] == x && (x + y)[8..] == y;
  }

  lemma FirstGood(ext: Name)
    requires AllGood(ext) && 1 <= |ext| <= 3
    ensures Padded(Upper(ext), 3)[0] != SPACE
  {
    assert Good(ext[0]);
    GoodIsVisible(ext[0]);
  }

  lemma NoExt(s: Name)
    requires Dot(s, 0) == |s|
    ensures Ext(s) == [] && Padded(Upper(Ext(s)), 3)[0] == SPACE
  {
    hide Dot;
  }

  lemma LowerParts(base: Name, ext: Name)
    ensures Lower(base + [DOT] + ext) == Lower(base) + [DOT] + Lower(ext)
  {
  }

  lemma {:induction false} DotOfLower(s: Name, i: nat)
    requires i <= |s|
    ensures Dot(Lower(s), i) == Dot(s, i)
    decreases |s| - i
  {
    if i < |s| {
      assert Fold(s[i]) == DOT <==> s[i] == DOT;
      if s[i] != DOT {
        DotOfLower(s, i + 1);
      }
    }
  }

  lemma ShortOfLower(s: Name)
    ensures Short(Lower(s)) == Short(s)
  {
    DotOfLower(s, 0);
    assert Base(Lower(s)) == Lower(Base(s)) && Ext(Lower(s)) == Lower(Ext(s));
    assert forall c: Byte :: Fold(Fold(c)) == Fold(c);
    assert Upper(Lower(Base(s))) == Upper(Base(s)) && Upper(Lower(Ext(s))) == Upper(Ext(s));
  }

  /** Two names have the same 8.3 bytes exactly when they differ in case only. */
  lemma SameShortIff(a: Name, b: Name)
    requires Fits83(a) && Fits83(b)
    ensures Short(a) == Short(b) <==> Lower(a) == Lower(b)
  {
    ShortRoundTrip(a);
    ShortRoundTrip(b);
    ShortOfLower(a);
    ShortOfLower(b);
  }

  /** One part of the name, copied in upper case while its characters are good. */
  method CopyPart(s: Name, from: nat, max: nat, stop: bool) returns (ok: bool, part: Name)
    requires from <= |s|
    ensures |part| <= max && from + |part| <= |s|
    ensures part == Upper(s[from..from + |part|]) && AllGood(s[from..from + |part|])
    ensures forall i | from <= i < from + |part| && stop :: s[i] != DOT
    ensures ok ==> from + |part| == |s| || (stop && s[from + |part|] == DOT) || |part| == max
    ensures !ok ==> from + |part| < |s| && !Good(s[from + |part|]) && |part| < max && (stop ==> s[from + |part|] != DOT)
  {
    part := [];
    while from + |part| < |s| && !(stop && s[from + |part|] == DOT) && |part| < max
      invariant |part| <= max && from + |part| <= |s|
      invariant part == Upper(s[from..from + |part|]) && AllGood(s[from..from + |part|])
      invariant forall i | from <= i < from + |part| && stop :: s[i] != DOT
    {
      var c := Fold(s[from + |part|]);
      if !NameChar(c) {
        return false, part;
      }
      assert s[from..from + |part| + 1] == s[from..from + |part|] + [s[from + |part|]];
      part := part + [Up(c)];
    }
    ok := true;
  }

  /** `to_83`: it accepts exactly the names that fit. */
  method To83(s: Name) returns (ok: bool, out: Name)
    ensures ok <==> Fits83(s)
    ensures ok ==> out == Short(s)
  {
    out := [];
    var good, base := CopyPart(s, 0, 8, true);
    var n := |base|;
    assert s[..n] == s[0..n];
    DotIs(s, n);
    if !good {
      DotPast(s, n);
      return false, [];
    }
    if n == 0 {
      return false, [];
    }
    if n < |s| && s[n] == DOT {
      var fine, ext := CopyPart(s, n + 1, 3, false);
      var e := |ext|;
      assert Ext(s) == s[n + 1..];
      if !fine {
        assert !Good(Ext(s)[e]);
        return false, [];
      }
      if e == 0 || n + 1 + e != |s| {
        return false, [];
      }
      assert s[n + 1..n + 1 + e] == Ext(s);
      return true, Padded(base, 8) + Padded(ext, 3);
    }
    if n != |s| {
      DotPast(s, n);
      return false, [];
    }
    ok, out := true, Padded(base, 8) + Padded([], 3);
    assert Upper([]) == [];
  }

  lemma DotIs(s: Name, n: nat)
    requires n <= |s| && forall i | 0 <= i < n :: s[i] != DOT
    ensures Dot(s, 0) >= n && (n == |s| || s[n] == DOT ==> Dot(s, 0) == n)
  {
  }

  lemma DotPast(s: Name, n: nat)
    requires n < |s| && s[n] != DOT && forall i | 0 <= i < n :: s[i] != DOT
    ensures Dot(s, 0) > n && Base(s)[n] == s[n] && |Base(s)| > n
  {
  }

  // ----- long names in slots -----

  /** Where character `i` of a long-name slot is. */
  function Slot(i: nat): nat {
    if i < 5 then 1 + 2 * i else if i < 11 then 14 + 2 * (i - 5) else 28 + 2 * (i - 11)
  }

  /** Which character byte `b` of the slot belongs to, or -1. */
  function CharOf(b: nat): int {
    if 1 <= b <= 10 then (b - 1) / 2 else if 14 <= b <= 25 then 5 + (b - 14) / 2 else if 28 <= b <= 31 then 11 + (b - 28) / 2 else -1
  }

  lemma SlotChar(i: nat)
    requires i < LFN_CHARS
    ensures CharOf(Slot(i)) == i && CharOf(Slot(i) + 1) == i && Slot(i) + 1 < 32
    ensures forall b: nat | CharOf(b) == i :: b == Slot(i) || b == Slot(i) + 1
  {
  }

  function FixedByte(ord: Byte, sum: Byte, b: nat): Byte {
    if b == 0 then ord else if b == 11 then ATTR_LONG else if b == 13 then sum else 0
  }

  /** Byte `b` of the slot that holds the characters of `name` from `start` on: a zero ends it, then all ones. */
  function LongByte(ord: Byte, sum: Byte, name: Name, start: nat, b: nat): Byte {
    if CharOf(b) < 0 then FixedByte(ord, sum, b)
    else
      var k := start + CharOf(b);
      if k < |name| then if b == Slot(CharOf(b)) then name[k] else 0
      else if k == |name| then 0
      else 0xFF
  }

  function LongEnt(ord: Byte, sum: Byte, name: Name, start: nat): (e: seq<Byte>)
    ensures |e| == 32
  {
    seq(32, b requires 0 <= b < 32 => LongByte(ord, sum, name, start, b))
  }

  method Clear(dir: array<Byte>, off: nat)
    requires off + 32 <= dir.Length
    modifies dir
    ensures forall k | 0 <= k < dir.Length :: dir[k] == if off <= k < off + 32 then 0 else old(dir[k])
  {
    for i := 0 to 32
      invariant forall k | 0 <= k < dir.Length :: dir[k] == if off <= k < off + i then 0 else old(dir[k])
    {
      dir[off + i] := 0;
    }
  }

  /** `lfn_store`, in place. */
  method LfnStore(dir: array<Byte>, off: nat, ord: Byte, sum: Byte, name: Name, start: nat)
    requires off + 32 <= dir.Length && start <= |name|
    modifies dir
    ensures dir[off..off + 32] == LongEnt(ord, sum, name, start)
    ensures forall k | 0 <= k < dir.Length && !(off <= k < off + 32) :: dir[k] == old(dir[k])
  {
    Clear(dir, off);
    dir[off] := ord;
    dir[off + 11] := ATTR_LONG;
    dir[off + 13] := sum;
    var done, i := false, 0;
    while i < LFN_CHARS
      invariant 0 <= i <= LFN_CHARS && (done <==> start + i > |name|)
      invariant forall b: nat | b < 32 :: dir[off + b] == if CharOf(b) < i then LongByte(ord, sum, name, start, b) else 0
      invariant forall k | 0 <= k < dir.Length && !(off <= k < off + 32) :: dir[k] == old(dir[k])
    {
      SlotChar(i);
      var k := start + i;
      if done {
        dir[off + Slot(i)] := 0xFF;
        dir[off + Slot(i) + 1] := 0xFF;
      } else if k == |name| {
        done := true;
      } else {
        dir[off + Slot(i)] := name[k];
      }
      i := i + 1;
    }
  }

  datatype Option = None | Some(name: Name)

  /** `lfn_chars` from character `i` on, with `n` characters already read. */
  function ReadChars(e: seq<Byte>, i: nat, n: nat): Option
    requires |e| == 32 && i <= LFN_CHARS
    decreases LFN_CHARS - i
  {
    if i == LFN_CHARS then Some([])
    else
      SlotChar(i);
      var lo, hi := e[Slot(i)], e[Slot(i) + 1];
      if lo == 0 && hi == 0 then Some([])
      else if hi != 0 || lo < 0x20 || n + 1 >= NAME_MAX then None
      else match ReadChars(e, i + 1, n + 1)
        case None => None
        case Some(r) => Some([lo] + r)
  }

  function ReadLong(e: seq<Byte>, n: nat): Option
    requires |e| == 32
  {
    if e[11] != ATTR_LONG || e[12] != 0 then None else ReadChars(e, 0, n)
  }

  /** `lfn_ok`: a name of at most fifteen letters, digits and dots. */
  predicate LongOk(name: Name) {
    1 <= |name| < NAME_MAX && forall i | 0 <= i < |name| :: name[i] == DOT || Good(name[i])
  }

  method LfnOk(name: Name) returns (ok: bool)
    ensures ok <==> LongOk(name)
    ensures ok <==>
              && 1 <= |name| <= 15
              && forall i | 0 <= i < |name| :: name[i] == 0x2E || 0x30 <= name[i] <= 0x39 || 0x41 <= name[i] <= 0x5A || 0x61 <= name[i] <= 0x7A
  {
    if name == [] {
      return false;
    }
    var n := 0;
    while n < |name|
      invariant n <= |name| && n <= 15 && forall i | 0 <= i < n :: name[i] == DOT || Good(name[i])
    {
      if n + 1 >= NAME_MAX || (name[n] != DOT && !NameChar(Fold(name[n]))) {
        return false;
      }
      n := n + 1;
    }
    ok := true;
  }

  function Cap(name: Name, to: nat): nat {
    if to < |name| then to else |name|
  }

  lemma {:induction false} ReadStored(ord: Byte, sum: Byte, name: Name, start: nat, i: nat, n: nat)
    requires LongOk(name) && i <= LFN_CHARS && start + i <= |name| && n + |name| - start - i < NAME_MAX
    ensures ReadChars(LongEnt(ord, sum, name, start), i, n) == Some(name[start + i..Cap(name, start + LFN_CHARS)])
    decreases LFN_CHARS - i
  {
    hide LongEnt, LongByte, Slot, CharOf, Good, ReadChars, LongOk;
    var e := LongEnt(ord, sum, name, start);
    ReadStep(e, i, n);
    if i < LFN_CHARS {
      StoredChar(ord, sum, name, start, i);
      if start + i < |name| {
        Visible(name, start + i);
        ReadStored(ord, sum, name, start, i + 1, n + 1);
        assert name[start + i..Cap(name, start + LFN_CHARS)] == [name[start + i]] + name[start + i + 1..Cap(name, start + LFN_CHARS)];
      }
    }
  }

  lemma ReadStep(e: seq<Byte>, i: nat, n: nat)
    requires |e| == 32 && i <= LFN_CHARS
    ensures i == LFN_CHARS ==> ReadChars(e, i, n) == Some([])
    ensures i < LFN_CHARS ==> Slot(i) + 1 < 32
    ensures i < LFN_CHARS && e[Slot(i)] == 0 && e[Slot(i) + 1] == 0 ==> ReadChars(e, i, n) == Some([])
    ensures i < LFN_CHARS && e[Slot(i)] >= 0x20 && e[Slot(i) + 1] == 0 && n + 1 < NAME_MAX && ReadChars(e, i + 1, n + 1).Some? ==>
              ReadChars(e, i, n) == Some([e[Slot(i)]] + ReadChars(e, i + 1, n + 1).name)
  {
    if i < LFN_CHARS {
      SlotChar(i);
    }
  }

  lemma Visible(name: Name, i: nat)
    requires LongOk(name) && i < |name|
    ensures name[i] >= 0x20
  {
    assert name[i] == DOT || Good(name[i]);
    if name[i] != DOT {
      GoodIsVisible(name[i]);
    }
  }

  lemma StoredChar(ord: Byte, sum: Byte, name: Name, start: nat, i: nat)
    requires i < LFN_CHARS && start + i <= |name|
    ensures Slot(i) + 1 < 32
    ensures LongEnt(ord, sum, name, start)[Slot(i)] == (if start + i < |name| then name[start + i] else 0)
    ensures LongEnt(ord, sum, name, start)[Slot(i) + 1] == 0
  {
    SlotChar(i);
  }

  /** `lfn_cksum`. */
  function Checksum(n83: Name): Byte {
    if n83 == [] then 0
    else
      var s := Checksum(n83[..|n83| - 1]) as int;
      (((if s % 2 == 1 then 0x80 else 0) + s / 2 + n83[|n83| - 1] as int) % 256) as Byte
  }

  function Ord(seq_: nat, last: bool): Byte
    requires seq_ <= 2
  {
    (seq_ + if last then 0x40 else 0) as Byte
  }

  function Count(name: Name): nat {
    (|name| + 12) / 13
  }

  /** The slots `fs_create` writes for a long name, the end of the name first. */
  function Slots(name: Name, n83: Name): (r: seq<seq<Byte>>)
    requires Count(name) <= 2
    ensures |r| == Count(name) && forall j | 0 <= j < |r| :: |r[j]| == 32
  {
    var c := Count(name);
    seq(c, j requires 0 <= j < c => LongEnt(Ord(c - j, j == 0), Checksum(n83), name, (c - j - 1) * 13))
  }

  /** The characters of the slots below `i`, last slot first. */
  function ReadAll(ents: seq<seq<Byte>>, i: nat, n: nat): Option
    requires i <= |ents| && forall e <- ents :: |e| == 32
  {
    if i == 0 then Some([])
    else match ReadLong(ents[i - 1], n)
      case None => None
      case Some(a) =>
        match ReadAll(ents, i - 1, n + |a|)
        case None => None
        case Some(b) => Some(a + b)
  }

  /** `lfn_build`: the name in these slots, if their numbers and checksums belong to this 8.3 name. */
  function Build(ents: seq<seq<Byte>>, n83: Name): Option
    requires forall e <- ents :: |e| == 32
  {
    var c := |ents|;
    if c == 0 || c > 2 || exists j | 0 <= j < c :: ents[j][0] != Ord(c - j, j == 0) || ents[j][13] != Checksum(n83) then None
    else match ReadAll(ents, c, 0)
      case None => None
      case Some(r) => if r == [] then None else Some(r)
  }

  lemma LongLength(name: Name)
    requires LongOk(name)
    ensures 1 <= |name| <= 15
  {
  }

  lemma ReadSlot(ord: Byte, sum: Byte, name: Name, start: nat, n: nat)
    requires LongOk(name) && start <= |name| && n + |name| - start < NAME_MAX
    ensures LongEnt(ord, sum, name, start)[0] == ord && LongEnt(ord, sum, name, start)[13] == sum
    ensures ReadLong(LongEnt(ord, sum, name, start), n) == Some(name[start..Cap(name, start + LFN_CHARS)])
  {
    ReadStored(ord, sum, name, start, 0, n);
    hide ReadChars;
  }

  /** A long name reads back exactly, with a checksum that matches. */
  lemma LongRoundTrip(name: Name, n83: Name)
    requires LongOk(name)
    ensures 1 <= Count(name) <= 2 && Build(Slots(name, n83), n83) == Some(name)
  {
    hide Checksum, ReadChars, LongByte, LongOk, FixedByte, ReadLong;
    assert 1 <= |name| <= 15 by { LongLength(name); }
    var ents, sum := Slots(name, n83), Checksum(n83);
    var c := Count(name);
    if c == 1 {
      ReadSlot(Ord(1, true), sum, name, 0, 0);
      assert ReadLong(ents[0], 0) == Some(name);
      assert ReadAll(ents, 0, |name|) == Some([]);
      assert ReadAll(ents, 1, 0) == Some(name + []);
      assert name + [] == name;
    } else {
      ReadSlot(Ord(1, false), sum, name, 0, 0);
      ReadSlot(Ord(2, true), sum, name, 13, 13);
      assert ReadLong(ents[1], 0) == Some(name[..13]);
      assert ReadLong(ents[0], 13) == Some(name[13..]);
      assert ReadAll(ents, 1, 13) == Some(name[13..] + []);
      assert ReadAll(ents, 2, 0) == Some(name[..13] + (name[13..] + []));
      assert name[..13] + (name[13..] + []) == name;
    }
  }

  /** What `scan_dir` remembers of long-name slots past slot `i`: where the run began, and its length. */
  function TrackStep(t: (int, nat), e: seq<Byte>, i: nat): (int, nat)
    requires |e| == 32
  {
    if e[0] == ERASED || e[0] == 0x05 || e[0] == DOT || e[11] != ATTR_LONG then (-1, 0)
    else if (e[0] as int / 0x40) % 2 == 1 then (i, 1)
    else if t.0 >= 0 && t.1 < 2 then (t.0, t.1 + 1)
    else (-1, 0)
  }

  function Track(slots: seq<seq<Byte>>, i: nat): (int, nat)
    requires i <= |slots| && forall e <- slots :: |e| == 32
  {
    if i == 0 then (-1, 0) else TrackStep(Track(slots, i - 1), slots[i - 1], i - 1)
  }

  /** The name of the 8.3 slot `i`, with that run remembered. */
  function NameAt(slots: seq<seq<Byte>>, t: (int, nat), i: nat): Name
    requires i < |slots| && forall e <- slots :: |e| == 32
  {
    var (f, n) := t;
    var n83 := slots[i][..11];
    if f >= 0 && f + n <= i && Build(slots[f..f + n], n83).Some? then Build(slots[f..f + n], n83).name else FatName(n83)
  }

  /** The name `scan_dir` gives to the 8.3 slot `i`. */
  function Listed(slots: seq<seq<Byte>>, i: nat): Name
    requires i < |slots| && forall e <- slots :: |e| == 32
  {
    NameAt(slots, Track(slots, i), i)
  }

  /** Whatever is around it, a long name that was created is listed exactly as it was given. */
  lemma ListedBack(slots: seq<seq<Byte>>, off: nat, name: Name, n83: Name)
    requires (forall e <- slots :: |e| == 32) && LongOk(name) && Count(name) <= 2 && |n83| == 11
    requires off + Count(name) < |slots| && slots[off..off + Count(name)] == Slots(name, n83)
    requires slots[off + Count(name)][..11] == n83
    ensures Listed(slots, off + Count(name)) == name
  {
    hide Checksum, Build, LongByte;
    LongRoundTrip(name, n83);
    var c := Count(name);
    assert slots[off] == Slots(name, n83)[0];
    FirstSlot(Ord(c, true), Checksum(n83), name, (c - 1) * 13);
    assert Track(slots, off + 1) == (off, 1);
    if c == 2 {
      assert slots[off + 1] == Slots(name, n83)[1];
      FirstSlot(Ord(1, false), Checksum(n83), name, 0);
      assert Track(slots, off + 2) == (off, 2);
    }
  }

  lemma FirstSlot(ord: Byte, sum: Byte, name: Name, start: nat)
    ensures LongEnt(ord, sum, name, start)[0] == ord && LongEnt(ord, sum, name, start)[11] == ATTR_LONG
  {
  }

  // ----- aliases -----

  predicate Counts(e: Dirent) {
    !Free(e) && e.attr != ATTR_LONG && (e.attr as int / 8) % 2 == 0
  }

  /** A slot whose 8.3 name counts: in use, and neither a long name nor a label. */
  lemma CountsIff(e: Dirent)
    ensures Counts(e) <==> First(e) !in {0, 0xE5} && e.attr != 0x0F && Lacks(e.attr, 8)
  {
    LacksIs(e.attr);
  }

  ghost predicate Used(dir: seq<Dirent>, n83: Name) {
    exists i :: 0 <= i < |dir| && Counts(dir[i]) && dir[i].name == n83
  }

  /** `alias_used`: whether a slot in use has this 8.3 name. */
  method AliasUsed(dir: seq<Dirent>, n83: Name) returns (used: bool)
    requires EndOk(dir)
    ensures used <==> Used(dir, n83)
  {
    var i := 0;
    while i < |dir|
      invariant 0 <= i <= |dir| && forall k | 0 <= k < i :: !(Counts(dir[k]) && dir[k].name == n83)
    {
      if First(dir[i]) == 0 {
        return false;
      }
      if Counts(dir[i]) && dir[i].name == n83 {
        return true;
      }
      i := i + 1;
    }
    used := false;
  }

  /** The letters and digits of a name in upper case, at most `max` of them. */
  function Letters(s: Name, max: nat): (r: Name)
    ensures |r| <= max
  {
    if s == [] || max == 0 then []
    else if Good(s[0]) then [Up(Fold(s[0]))] + Letters(s[1..], max - 1)
    else Letters(s[1..], max)
  }

  function LastDot(s: Name): (d: nat)
    ensures d <= |s| && (d < |s| ==> s[d] == DOT)
    ensures forall k | 0 <= k < |s| && (k > d || d == |s|) :: s[k] != DOT
  {
    if s == [] then 0 else if s[|s| - 1] == DOT then |s| - 1
    else var d := LastDot(s[..|s| - 1]); if d == |s| - 1 then |s| else d
  }

  /** The alias number `gen`: at most six letters of the base, a tilde, the digit, and the extension. */
  function Alias(name: Name, gen: nat): Name
    requires 1 <= gen <= 9
  {
    var d := LastDot(name);
    var base := Letters(name[..d], 8);
    var stem := base[..if |base| > 6 then 6 else |base|];
    Padded(stem + [TILDE, 0x30 + gen as Byte], 8) + Padded(if d < |name| then Letters(name[d + 1..], 3) else [], 3)
  }

  /** `make_alias`: the lowest alias that no slot in use has; none exactly without letters or when all nine are taken. */
  method MakeAlias(name: Name, dir: seq<Dirent>) returns (ok: bool, out: Name)
    requires EndOk(dir)
    ensures ok <==> Letters(name[..LastDot(name)], 8) != [] && exists gen :: 1 <= gen <= 9 && !Used(dir, Alias(name, gen))
    ensures ok ==> !Used(dir, out) && exists gen :: 1 <= gen <= 9 && out == Alias(name, gen) && forall g | 1 <= g < gen :: Used(dir, Alias(name, g))
  {
    hide Used, Alias;
    out := [];
    var d := LastDot(name);
    var base := Letters(name[..d], 8);
    if |base| == 0 {
      return false, [];
    }
    var gen := 1;
    while gen <= 9
      invariant 1 <= gen <= 10 && forall g | 1 <= g < gen :: Used(dir, Alias(name, g))
    {
      out := Alias(name, gen);
      var used := AliasUsed(dir, out);
      if !used {
        return true, out;
      }
      gen := gen + 1;
    }
    ok := false;
  }

  lemma {:induction false} LettersShown(s: Name, max: nat)
    ensures forall i | 0 <= i < |Letters(s, max)| :: Letters(s, max)[i] != SPACE && Letters(s, max)[i] != 0 && Letters(s, max)[i] != ERASED && Letters(s, max)[i] != DOT
    decreases |s|
  {
    if s != [] && max != 0 {
      LettersShown(s[1..], max - 1);
      LettersShown(s[1..], max);
      if Good(s[0]) {
        GoodIsVisible(s[0]);
      }
    }
  }

  /** An alias is eleven bytes, begins with a letter or digit, and no two numbers give the same one. */
  lemma AliasShape(name: Name, g: nat, h: nat)
    requires 1 <= g <= 9 && 1 <= h <= 9 && Letters(name[..LastDot(name)], 8) != []
    ensures |Alias(name, g)| == 11 && Alias(name, g)[0] != 0 && Alias(name, g)[0] != ERASED && Alias(name, g)[0] != DOT
    ensures Alias(name, g) == Alias(name, h) ==> g == h
  {
    var d := LastDot(name);
    var base := Letters(name[..d], 8);
    LettersShown(name[..d], 8);
    var m := if |base| > 6 then 6 else |base|;
    assert Alias(name, g)[0] == base[0];
    assert Alias(name, g)[m + 1] == 0x30 + g as Byte && Alias(name, h)[m + 1] == 0x30 + h as Byte;
  }
}
