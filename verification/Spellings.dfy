/**
 What the slots of a directory spell, stated on their bytes, and that this is what the name code of
 `kernel/fs.c` writes and reads.
 */
module Spellings {
  import opened Bytes
  import opened Names

  /** Where the thirteen characters of a long-name slot lie. */
  const OFFSETS: seq<nat> := [1, 3, 5, 7, 9, 14, 16, 18, 20, 22, 24, 28, 30]

  lemma SlotIs(i: nat)
    requires i < 13
    ensures Slot(i) == OFFSETS[i] && OFFSETS[i] + 1 < 32
  {
  }

  // ----- the checksum -----

  /** The rotating sum of a name: before each byte is added the sum is rotated right by one bit. */
  ghost predicate Sums(n83: Name, t: seq<int>) {
    && |t| == |n83| + 1 && t[0] == 0
    && forall i | 0 <= i < |n83| :: t[i + 1] == (t[i] / 2 + 128 * (t[i] % 2) + n83[i] as int) % 256
  }

  lemma {:induction false} ChecksumIs(n83: Name, t: seq<int>)
    requires Sums(n83, t)
    ensures Checksum(n83) as int == t[|n83|]
    decreases |n83|
  {
    if n83 != [] {
      var n := |n83| - 1;
      ChecksumIs(n83[..n], t[..n + 1]);
      assert n83[..n + 1] == n83 && t[..n + 1][n] == t[n];
    }
  }

  lemma {:induction false} SumsOf(n83: Name) returns (t: seq<int>)
    ensures Sums(n83, t)
    decreases |n83|
  {
    if n83 == [] {
      t := [0];
    } else {
      var n := |n83| - 1;
      var u := SumsOf(n83[..n]);
      t := u + [(u[n] / 2 + 128 * (u[n] % 2) + n83[n] as int) % 256];
    }
  }

  // ----- the characters of a slot -----

  /** Character `i` of the slot is the visible character `c`. */
  ghost predicate CharAt(e: seq<Byte>, i: nat, c: Byte)
    requires |e| == 32 && i < 13
  {
    e[OFFSETS[i]] == c && c >= 0x20 && e[OFFSETS[i] + 1] == 0
  }

  ghost predicate EndAt(e: seq<Byte>, i: nat)
    requires |e| == 32 && i < 13
  {
    e[OFFSETS[i]] == 0 && e[OFFSETS[i] + 1] == 0
  }

  /** From character `i` on the slot reads `s`: visible characters, then a zero unless the slot is full. */
  ghost predicate TextFrom(e: seq<Byte>, i: nat, s: Name)
    requires |e| == 32
  {
    && i + |s| <= 13 && (forall j | 0 <= j < |s| :: CharAt(e, i + j, s[j]))
    && (i + |s| < 13 ==> EndAt(e, i + |s|))
  }

  /** What `lfn_chars` does with one character. */
  lemma ReadStepIs(e: seq<Byte>, i: nat, n: nat)
    requires |e| == 32 && i < 13
    ensures EndAt(e, i) ==> ReadChars(e, i, n) == Some([]) && forall c :: !CharAt(e, i, c)
    ensures !EndAt(e, i) && ((forall c :: !CharAt(e, i, c)) || n + 1 >= 16) ==> ReadChars(e, i, n) == None
    ensures forall c | CharAt(e, i, c) && n + 1 < 16 ::
              var r := ReadChars(e, i + 1, n + 1); ReadChars(e, i, n) == if r.None? then None else Some([c] + r.name)
  {
    SlotIs(i);
    assert e[OFFSETS[i]] >= 0x20 && e[OFFSETS[i] + 1] == 0 ==> CharAt(e, i, e[OFFSETS[i]]);
  }

  lemma {:induction false} ReadCharsAre(e: seq<Byte>, i: nat, n: nat, s: Name)
    requires |e| == 32 && i <= 13 && n < 16
    ensures ReadChars(e, i, n) == Some(s) <==> TextFrom(e, i, s) && n + |s| < 16
    decreases 13 - i
  {
    hide CharAt, EndAt, ReadChars;
    if i == 13 {
      assert ReadChars(e, 13, n) == Some([]) by { ReadNone(e, n); }
    } else {
      ReadStepIs(e, i, n);
      TextSplit(e, i, s);
      if s != [] && CharAt(e, i, s[0]) && n + 1 < 16 {
        ReadCharsAre(e, i + 1, n + 1, s[1..]);
        Cons(s[0], ReadChars(e, i + 1, n + 1), s);
      } else if c :| CharAt(e, i, c) && n + 1 < 16 {
        NotCons(e, i, c, ReadChars(e, i + 1, n + 1), s);
      }
    }
  }

  lemma ReadNone(e: seq<Byte>, n: nat)
    requires |e| == 32
    ensures ReadChars(e, 13, n) == Some([])
  {
  }

  lemma Cons(c: Byte, r: Option, s: Name)
    requires s != [] && s[0] == c
    ensures (if r.None? then None else Some([c] + r.name)) == Some(s) <==> r == Some(s[1..])
  {
    if r.Some? {
      assert ([c] + r.name)[1..] == r.name && s == [c] + s[1..];
    }
  }

  lemma NotCons(e: seq<Byte>, i: nat, c: Byte, r: Option, s: Name)
    requires |e| == 32 && i < 13 && CharAt(e, i, c) && (s == [] || !CharAt(e, i, s[0]))
    ensures (if r.None? then None else Some([c] + r.name)) != Some(s)
  {
    hide CharAt;
    assert r.Some? ==> ([c] + r.name)[0] == c;
  }

  lemma TextSplit(e: seq<Byte>, i: nat, s: Name)
    requires |e| == 32 && i < 13
    ensures if s == [] then TextFrom(e, i, s) <==> EndAt(e, i) else TextFrom(e, i, s) <==> CharAt(e, i, s[0]) && TextFrom(e, i + 1, s[1..])
  {
    hide CharAt, EndAt;
    if s != [] {
      var rest := s[1..];
      if TextFrom(e, i, s) {
        assert CharAt(e, i + 0, s[0]);
        forall j | 0 <= j < |rest| ensures CharAt(e, i + 1 + j, rest[j]) {
          assert CharAt(e, i + (j + 1), s[j + 1]);
        }
      }
      if CharAt(e, i, s[0]) && TextFrom(e, i + 1, rest) {
        forall j | 0 <= j < |s| ensures CharAt(e, i + j, s[j]) {
          if j > 0 {
            assert CharAt(e, i + 1 + (j - 1), rest[j - 1]);
          }
        }
      }
    }
  }

  /** A slot with the attribute of a long name and these characters. */
  ghost predicate Text(e: seq<Byte>, s: Name) {
    |e| == 32 && e[11] == 0x0F && e[12] == 0 && TextFrom(e, 0, s)
  }

  lemma ReadLongIs(e: seq<Byte>, n: nat, s: Name)
    requires |e| == 32 && n < 16
    ensures ReadLong(e, n) == Some(s) <==> Text(e, s) && n + |s| < 16
  {
    ReadCharsAre(e, 0, n, s);
  }

  // ----- the run in front of an 8.3 slot -----

  /** The slots are numbered downwards, the first one marked, and each has the checksum of the 8.3 name. */
  ghost predicate Numbered(ents: seq<seq<Byte>>, n83: Name) {
    && 1 <= |ents| <= 2 && (forall e <- ents :: |e| == 32)
    && (forall j | 0 <= j < |ents| :: ents[j][0] as int == |ents| - j + if j == 0 then 0x40 else 0)
    && exists t :: Sums(n83, t) && forall j | 0 <= j < |ents| :: ents[j][13] as int == t[|n83|]
  }

  /** Read from the last slot to the first, the characters are those of `name`. */
  ghost predicate Reads(ents: seq<seq<Byte>>, name: Name) {
    && 1 <= |name| < 16
    && if |ents| == 1 then Text(ents[0], name)
       else |ents| == 2 && exists m :: 0 <= m <= |name| && Text(ents[1], name[..m]) && Text(ents[0], name[m..])
  }

  lemma NumberedIs(ents: seq<seq<Byte>>, n83: Name)
    requires (forall e <- ents :: |e| == 32) && 1 <= |ents| <= 2
    ensures Numbered(ents, n83) <==> forall j | 0 <= j < |ents| :: ents[j][0] == Ord(|ents| - j, j == 0) && ents[j][13] == Checksum(n83)
  {
    hide Checksum;
    var t := SumsOf(n83);
    ChecksumIs(n83, t);
    if Numbered(ents, n83) {
      var u :| Sums(n83, u) && forall j | 0 <= j < |ents| :: ents[j][13] as int == u[|n83|];
      ChecksumIs(n83, u);
    }
  }

  lemma ReadAllIs(ents: seq<seq<Byte>>, name: Name)
    requires (forall e <- ents :: |e| == 32) && 1 <= |ents| <= 2 && name != []
    ensures ReadAll(ents, |ents|, 0) == Some(name) <==> Reads(ents, name)
  {
    hide ReadLong, Text;
    if |ents| == 1 {
      ReadLongIs(ents[0], 0, name);
      assert forall n :: ReadAll(ents, 0, n) == Some([]);
      assert forall a: Name :: a + [] == a;
    } else {
      ReadTwo(ents, name);
    }
  }

  /** Two slots give a name when both can be read, the second one first. */
  lemma ReadAllTwo(ents: seq<seq<Byte>>)
    requires (forall e <- ents :: |e| == 32) && |ents| == 2
    ensures var a := ReadLong(ents[1], 0);
      && (a.None? ==> ReadAll(ents, 2, 0) == None)
      && (a.Some? ==> var b := ReadLong(ents[0], |a.name|); ReadAll(ents, 2, 0) == if b.None? then None else Some(a.name + b.name))
  {
    hide ReadLong;
    var a := ReadLong(ents[1], 0);
    if a.Some? {
      var b := ReadLong(ents[0], |a.name|);
      if b.Some? {
        assert ReadAll(ents, 0, |a.name| + |b.name|) == Some([]) && b.name + [] == b.name;
        assert ReadAll(ents, 1, |a.name|) == Some(b.name + []);
      }
    }
  }

  lemma ReadTwo(ents: seq<seq<Byte>>, name: Name)
    requires (forall e <- ents :: |e| == 32) && |ents| == 2 && name != []
    ensures ReadAll(ents, 2, 0) == Some(name) <==> Reads(ents, name)
  {
    hide ReadLong, Text, ReadAll;
    ReadAllTwo(ents);
    if ReadAll(ents, 2, 0) == Some(name) {
      var a := ReadLong(ents[1], 0).name;
      ReadLongIs(ents[1], 0, a);
      var b := ReadLong(ents[0], |a|).name;
      ReadLongIs(ents[0], |a|, b);
      assert name == a + b && name[..|a|] == a && name[|a|..] == b;
    }
    if Reads(ents, name) {
      var m :| 0 <= m <= |name| && Text(ents[1], name[..m]) && Text(ents[0], name[m..]);
      ReadLongIs(ents[1], 0, name[..m]);
      ReadLongIs(ents[0], m, name[m..]);
      assert name[..m] + name[m..] == name;
    }
  }

  /** `lfn_build` gives a name exactly when the numbers, the checksums and the characters are right. */
  lemma BuildIff(ents: seq<seq<Byte>>, n83: Name, name: Name)
    requires forall e <- ents :: |e| == 32
    ensures Build(ents, n83) == Some(name) <==> Numbered(ents, n83) && Reads(ents, name)
  {
    hide ReadAll, Checksum, Sums, Text;
    if 1 <= |ents| <= 2 {
      NumberedIs(ents, n83);
      if name != [] {
        ReadAllIs(ents, name);
      }
      hide Numbered, Reads;
    }
  }

  // ----- 8.3 slots -----

  /** `c` is `x` in lower case. */
  predicate Lowers(x: Byte, c: Byte) {
    if 0x41 <= x <= 0x5A then c == x + 0x20 else c == x
  }

  /** `s` is, in lower case, what stands in front of the first space of `part`. */
  ghost predicate Reads83Part(part: Name, s: Name) {
    && |s| <= |part| && (forall j | 0 <= j < |s| :: part[j] != 0x20 && Lowers(part[j], s[j]))
    && (|s| < |part| ==> part[|s|] == 0x20)
  }

  /** Eight bytes of base and three of extension, a dot between them unless the extension is blank. */
  ghost predicate Reads83(n83: Name, name: Name) {
    && |n83| == 11
    && exists a, b: Name :: Reads83Part(n83[..8], a) && Reads83Part(n83[8..], b) && name == if b == [] then a else a + [0x2E] + b
  }

  lemma {:induction false} ShownIs(part: Name)
    ensures Reads83Part(part, Names.Shown(part))
    decreases |part|
  {
    if part != [] && part[0] != 0x20 {
      ShownIs(part[1..]);
      var s := Names.Shown(part);
      forall j | 0 <= j < |s| ensures part[j] != 0x20 && Lowers(part[j], s[j]) {
        if j > 0 {
          assert part[j] == part[1..][j - 1] && s[j] == Names.Shown(part[1..])[j - 1];
        }
      }
    }
  }

  lemma FatNameIs(n83: Name)
    requires |n83| == 11
    ensures Reads83(n83, FatName(n83))
  {
    ShownIs(n83[..8]);
    ShownIs(n83[8..]);
    var a, b := Names.Shown(n83[..8]), Names.Shown(n83[8..]);
    assert n83[8..][0] == n83[8];
    assert FatName(n83) == if b == [] then a else a + [0x2E] + b;
  }

  // ----- what a scan lists -----

  /** The slots from `f` up to `i` are a long name of the 8.3 slot `i`. */
  ghost predicate LongRun(slots: seq<seq<Byte>>, f: nat, i: nat, name: Name)
    requires f < i < |slots| && |slots[i]| == 32
  {
    Numbered(slots[f..i], slots[i][..11]) && Reads(slots[f..i], name)
  }

  /** The name of slot `i`: that of the long-name slots right in front of it, or its own in lower case if there are none. */
  ghost predicate Spelled(slots: seq<seq<Byte>>, i: nat, name: Name)
    requires i < |slots| && |slots[i]| == 32
  {
    || (exists f: nat :: f < i && LongRun(slots, f, i, name))
    || ((forall f: nat, s: Name :: f < i ==> !LongRun(slots, f, i, s)) && Reads83(slots[i][..11], name))
  }

  lemma {:induction false} TrackEnds(slots: seq<seq<Byte>>, i: nat)
    requires i <= |slots| && forall e <- slots :: |e| == 32
    ensures var t := Track(slots, i); t.0 == -1 || (0 <= t.0 && t.0 + t.1 == i && 1 <= t.1 <= 2)
  {
    if i > 0 {
      TrackEnds(slots, i - 1);
    }
  }

  /** A scan that comes to the 8.3 slot remembers such a run. */
  lemma RunTracked(slots: seq<seq<Byte>>, f: nat, i: nat, name: Name)
    requires f < i < |slots| && (forall e <- slots :: |e| == 32) && LongRun(slots, f, i, name)
    ensures Track(slots, i) == (f, i - f)
  {
    hide Sums, TextFrom;
    var run := slots[f..i];
    assert run[0] == slots[f] && run[|run| - 1] == slots[i - 1];
    assert Track(slots, f + 1) == (f, 1);
    if i - f == 2 {
      assert slots[f + 1] == run[1];
    }
  }

  /** `scan_dir` lists a slot under a long name exactly when its run spells one, and otherwise under its own name. */
  lemma ListedIsSpelled(slots: seq<seq<Byte>>, i: nat)
    requires i < |slots| && forall e <- slots :: |e| == 32
    ensures Spelled(slots, i, Listed(slots, i))
    ensures forall f: nat, s: Name | f < i && LongRun(slots, f, i, s) :: Listed(slots, i) == s
  {
    hide Numbered, Reads, Reads83, Build, Track, FatName;
    var n83, t := slots[i][..11], Track(slots, i);
    TrackEnds(slots, i);
    FatNameIs(n83);
    forall f: nat, s: Name | f < i && LongRun(slots, f, i, s) ensures t == (f, i - f) && Build(slots[f..i], n83) == Some(s) {
      RunTracked(slots, f, i, s);
      BuildIff(slots[f..i], n83, s);
    }
    if t.0 >= 0 && Build(slots[t.0..i], n83).Some? {
      BuildIff(slots[t.0..i], n83, Build(slots[t.0..i], n83).name);
      assert LongRun(slots, t.0, i, Listed(slots, i));
    }
  }

  // ----- what the name code writes -----

  /** A letter or a digit. */
  predicate Alnum(c: Byte) {
    0x30 <= c <= 0x39 || 0x41 <= c <= 0x5A || 0x61 <= c <= 0x7A
  }

  /** `c` is `x` in upper case. */
  predicate Raises(x: Byte, c: Byte) {
    if 0x61 <= x <= 0x7A then c == x - 0x20 else c == x
  }

  /** `part` in upper case, filled up with spaces to the length of `out`. */
  ghost predicate Fills(part: Name, out: Name) {
    && |part| <= |out| && (forall j | 0 <= j < |part| :: Raises(part[j], out[j]))
    && (forall j | |part| <= j < |out| :: out[j] == 0x20)
  }

  /** `s` is a base of one to eight letters and digits, alone or with a dot and one to three more. */
  ghost predicate Shape83(s: Name, base: Name, ext: Name) {
    && 1 <= |base| <= 8 && |ext| <= 3 && (forall c <- base + ext :: Alnum(c))
    && s == if ext == [] then base else base + [0x2E] + ext
  }

  lemma GoodIsAlnum(c: Byte)
    ensures Good(c) <==> Alnum(c)
  {
  }

  /** What fits 8.3, and its eleven bytes. */
  lemma ShortIff(s: Name)
    ensures Fits83(s) <==> exists base, ext :: Shape83(s, base, ext)
    ensures Fits83(s) ==> |Short(s)| == 11
    ensures forall base, ext | Shape83(s, base, ext) :: |Short(s)| == 11 && Fills(base, Short(s)[..8]) && Fills(ext, Short(s)[8..])
  {
    if Fits83(s) {
      SplitAtDot(s);
      forall c <- Base(s) + Ext(s) ensures Alnum(c) {
        if c in Base(s) {
          var i :| 0 <= i < |Base(s)| && Base(s)[i] == c;
        } else {
          var i :| 0 <= i < |Ext(s)| && Ext(s)[i] == c;
        }
      }
      assert Shape83(s, Base(s), Ext(s));
    }
    forall base, ext | Shape83(s, base, ext)
      ensures Fits83(s) && |Short(s)| == 11 && Fills(base, Short(s)[..8]) && Fills(ext, Short(s)[8..])
    {
      ShapeParts(s, base, ext);
      assert Short(s)[..8] == Names.Padded(Upper(base), 8) && Short(s)[8..] == Names.Padded(Upper(ext), 3);
    }
  }

  lemma ShapeParts(s: Name, base: Name, ext: Name)
    requires Shape83(s, base, ext)
    ensures Base(s) == base && Ext(s) == ext && Fits83(s)
  {
    forall j | 0 <= j < |base| ensures s[j] == base[j] && base[j] != 0x2E && Good(base[j]) {
      assert (base + ext)[j] == base[j] && base[j] in base + ext;
    }
    forall j | 0 <= j < |ext| ensures Good(ext[j]) {
      assert (base + ext)[|base| + j] == ext[j] && ext[j] in base + ext;
    }
    DotIs(s, |base|);
    assert ext != [] ==> s[|base|] == 0x2E && s[|base| + 1..] == ext;
  }

  /** The 32 bytes of a long-name slot. */
  ghost predicate LongBytes(e: seq<Byte>, ord: Byte, sum: Byte, name: Name, start: nat) {
    && |e| == 32 && e[0] == ord && e[11] == 0x0F && e[12] == 0 && e[13] == sum && e[26] == 0 && e[27] == 0
    && (forall i | 0 <= i < 13 && start + i < |name| :: e[OFFSETS[i]] == name[start + i] && e[OFFSETS[i] + 1] == 0)
    && (forall i | 0 <= i < 13 && start + i == |name| :: e[OFFSETS[i]] == 0 && e[OFFSETS[i] + 1] == 0)
    && (forall i | 0 <= i < 13 && start + i > |name| :: e[OFFSETS[i]] == 0xFF && e[OFFSETS[i] + 1] == 0xFF)
  }

  lemma LongEntIs(ord: Byte, sum: Byte, name: Name, start: nat)
    ensures LongBytes(LongEnt(ord, sum, name, start), ord, sum, name, start)
  {
    hide LongEnt;
    LongFixed(ord, sum, name, start);
    forall i | 0 <= i < 13
      ensures var e := LongEnt(ord, sum, name, start);
        && e[OFFSETS[i]] == (if start + i < |name| then name[start + i] else if start + i == |name| then 0 else 0xFF)
        && e[OFFSETS[i] + 1] == (if start + i <= |name| then 0 else 0xFF)
    {
      LongCharIs(ord, sum, name, start, i);
    }
  }

  lemma LongFixed(ord: Byte, sum: Byte, name: Name, start: nat)
    ensures var e := LongEnt(ord, sum, name, start); e[0] == ord && e[11] == 0x0F && e[12] == 0 && e[13] == sum && e[26] == 0 && e[27] == 0
  {
  }

  lemma LongCharIs(ord: Byte, sum: Byte, name: Name, start: nat, i: nat)
    requires i < 13
    ensures OFFSETS[i] + 1 < 32
    ensures var e := LongEnt(ord, sum, name, start);
      && e[OFFSETS[i]] == (if start + i < |name| then name[start + i] else if start + i == |name| then 0 else 0xFF)
      && e[OFFSETS[i] + 1] == (if start + i <= |name| then 0 else 0xFF)
  {
    SlotIs(i);
    SlotChar(i);
  }

  /** `fs_create` numbers the slots downwards and gives each its thirteen characters. */
  lemma SlotsAre(name: Name, n83: Name)
    requires Count(name) <= 2
    ensures var r, c := Slots(name, n83), Count(name);
      && |r| == c && 13 * (c - 1) < |name| <= 13 * c
      && forall j | 0 <= j < c :: LongBytes(r[j], ((c - j) + if j == 0 then 0x40 else 0) as Byte, Checksum(n83), name, 13 * (c - j - 1))
  {
    hide LongBytes, Checksum;
    var r, c := Slots(name, n83), Count(name);
    forall j | 0 <= j < c
      ensures LongBytes(r[j], ((c - j) + if j == 0 then 0x40 else 0) as Byte, Checksum(n83), name, 13 * (c - j - 1))
    {
      LongEntIs(Ord(c - j, j == 0), Checksum(n83), name, (c - j - 1) * 13);
    }
  }

  // ----- aliases -----

  /** The letters and digits are gathered from left to right until there are `max` of them. */
  lemma {:induction false} LettersOneMore(s: Name, c: Byte, max: nat)
    ensures Letters([], max) == []
    ensures Alnum(c) && |Letters(s, max)| < max ==>
              |Letters(s + [c], max)| == |Letters(s, max)| + 1 && Letters(s + [c], max)[..|Letters(s, max)|] == Letters(s, max)
              && Raises(c, Letters(s + [c], max)[|Letters(s, max)|])
    ensures !(Alnum(c) && |Letters(s, max)| < max) ==> Letters(s + [c], max) == Letters(s, max)
    decreases |s|
  {
    if s == [] {
      assert [c][1..] == [] && Letters([], max) == [] && (max > 0 ==> Letters([], max - 1) == []);
      assert s + [c] == [c];
    } else {
      assert (s + [c])[1..] == s[1..] + [c] && (s + [c])[0] == s[0];
      if max > 0 {
        LettersOneMore(s[1..], c, max - 1);
        LettersOneMore(s[1..], c, max);
      }
    }
  }

  /** Alias `gen`: at most six letters of what is before the last dot, a tilde and the digit; three letters behind it. */
  ghost predicate AliasBytes(out: Name, letters: Name, ext: Name, gen: nat) {
    var k := if |letters| > 6 then 6 else |letters|;
    && |out| == 11 && 1 <= gen <= 9 && |ext| <= 3
    && out[..k] == letters[..k] && out[k] == 0x7E && out[k + 1] as int == 0x30 + gen
    && (forall j | k + 2 <= j < 8 :: out[j] == 0x20)
    && out[8..8 + |ext|] == ext && (forall j | 8 + |ext| <= j < 11 :: out[j] == 0x20)
  }

  lemma AliasIs(name: Name, gen: nat)
    requires 1 <= gen <= 9
    ensures var d := LastDot(name);
      AliasBytes(Alias(name, gen), Letters(name[..d], 8), if d < |name| then Letters(name[d + 1..], 3) else [], gen)
  {
    hide Letters;
    var d := LastDot(name);
    var letters, ext := Letters(name[..d], 8), if d < |name| then Letters(name[d + 1..], 3) else [];
    AliasParts(letters, ext, gen);
  }

  lemma AliasParts(letters: Name, ext: Name, gen: nat)
    requires 1 <= gen <= 9 && |ext| <= 3
    ensures var k := if |letters| > 6 then 6 else |letters|;
      AliasBytes(Names.Padded(letters[..k] + [TILDE, 0x30 + gen as Byte], 8) + Names.Padded(ext, 3), letters, ext, gen)
  {
    var k := if |letters| > 6 then 6 else |letters|;
    var a, b := Names.Padded(letters[..k] + [TILDE, 0x30 + gen as Byte], 8), Names.Padded(ext, 3);
    assert |a| == 8 && |b| == 3 && a[..k] == letters[..k] && a[k] == TILDE && b[..|ext|] == ext;
    var out := a + b;
    assert out[..k] == a[..k] && out[8..8 + |ext|] == b[..|ext|];
    forall j | 8 + |ext| <= j < 11 ensures out[j] == 0x20 {
      assert out[j] == b[j - 8];
    }
  }
}
