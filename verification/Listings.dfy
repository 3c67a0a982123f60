/**
 The names that `scan_dir` of `kernel/fs.c` gives to the slots `fs_create` writes.
 */
module Listings {
  import opened Bytes
  import opened Directories
  import LongNames = Names
  import Spellings

  /** The bytes of a slot that have to do with names; a long-name slot has all its 32 bytes in `name`. */
  function SlotBytes(e: Dirent): (r: seq<Byte>)
    ensures |r| == 32 && r[0] == First(e) && r[11] == e.attr
    ensures forall b | 0 <= b < 32 && b != 11 :: r[b] == if b < |e.name| then e.name[b] else 0
  {
    seq(32, b requires 0 <= b < 32 => if b == 11 then e.attr else if b < |e.name| then e.name[b] else 0)
  }

  function Raw(dir: seq<Dirent>): (r: seq<seq<Byte>>)
    ensures |r| == |dir| && forall i | 0 <= i < |r| :: r[i] == SlotBytes(dir[i])
    ensures forall e <- r :: |e| == 32
  {
    seq(|dir|, i requires 0 <= i < |dir| => SlotBytes(dir[i]))
  }

  function ListName(dir: seq<Dirent>, i: nat): seq<Byte>
    requires i < |dir|
  {
    LongNames.Listed(Raw(dir), i)
  }

  /** A listed name is what the bytes of the slots spell. */
  lemma ListNameSpelled(dir: seq<Dirent>, i: nat)
    requires i < |dir|
    ensures Spellings.Spelled(Raw(dir), i, ListName(dir, i))
  {
    Spellings.ListedIsSpelled(Raw(dir), i);
  }

  lemma TrackNone(dir: seq<Dirent>)
    ensures LongNames.Track(Raw(dir), 0) == (-1, 0)
  {
  }

  lemma TrackNext(dir: seq<Dirent>, i: nat)
    requires i < |dir|
    ensures LongNames.Track(Raw(dir), i + 1) == LongNames.TrackStep(LongNames.Track(Raw(dir), i), Raw(dir)[i], i)
  {
  }

  lemma NameIs(dir: seq<Dirent>, i: nat)
    requires i < |dir|
    ensures ListName(dir, i) == LongNames.NameAt(Raw(dir), LongNames.Track(Raw(dir), i), i)
  {
  }

  /** The long-name slots of `name`; none for a name that fits 8.3. */
  function LongSlots(name: seq<Byte>, n83: seq<Byte>, fits: bool): (r: seq<Dirent>)
    requires !fits ==> LongNames.LongOk(name)
    ensures |r| <= 2 && forall i | 0 <= i < |r| :: IsLong(r[i])
  {
    if fits then []
    else
      var raw := LongNames.Slots(name, n83);
      LongInUse(name, n83);
      seq(|raw|, j requires 0 <= j < |raw| => Dirent(raw[j], ATTR_LONG, 0, 0))
  }

  lemma LongInUse(name: seq<Byte>, n83: seq<Byte>)
    requires LongNames.LongOk(name)
    ensures |LongNames.Slots(name, n83)| == LongNames.Count(name) <= 2
    ensures forall j | 0 <= j < |LongNames.Slots(name, n83)| :: IsLong(Dirent(LongNames.Slots(name, n83)[j], ATTR_LONG, 0, 0))
  {
    hide LongNames.Checksum, LongNames.LongByte, LongNames.LongOk;
    LongNames.LongLength(name);
    var c := LongNames.Count(name);
    forall j | 0 <= j < c ensures IsLong(Dirent(LongNames.Slots(name, n83)[j], ATTR_LONG, 0, 0)) {
      LongNames.FirstSlot(LongNames.Ord(c - j, j == 0), LongNames.Checksum(n83), name, (c - j - 1) * 13);
    }
  }

  /** Every long-name slot has a slot in use behind it. */
  ghost predicate NoOrphans(dir: seq<Dirent>) {
    forall i | 0 <= i < |dir| && IsLong(dir[i]) :: i + 1 < |dir| && !Free(dir[i + 1])
  }

  /** The directory with slots added where there were free ones, or in a sector it grew by. */
  ghost predicate SlotsAdded(dir: seq<Dirent>, dir': seq<Dirent>, off: nat, ents: seq<Dirent>) {
    && |dir| <= |dir'| <= |dir| + 16 && off + |ents| <= |dir'| && dir'[off..off + |ents|] == ents
    && (forall i | off <= i < off + |ents| && i < |dir| :: Free(dir[i]))
    && (forall i | 0 <= i < |dir'| && !(off <= i < off + |ents|) :: if i < |dir| then dir'[i] == dir[i] else Free(dir'[i]))
  }

  lemma AddedNoOrphans(dir: seq<Dirent>, dir': seq<Dirent>, off: nat, ents: seq<Dirent>)
    requires NoOrphans(dir) && SlotsAdded(dir, dir', off, ents) && (forall i | 0 <= i < |ents| :: !Free(ents[i]))
    requires ents != [] && !IsLong(ents[|ents| - 1])
    ensures NoOrphans(dir')
  {
    forall i | 0 <= i < |dir'| && IsLong(dir'[i]) ensures i + 1 < |dir'| && !Free(dir'[i + 1]) {
      if off <= i < off + |ents| {
        assert dir'[i] == dir'[off..off + |ents|][i - off];
        assert i + 1 < off + |ents|;
        assert dir'[i + 1] == dir'[off..off + |ents|][i + 1 - off];
      } else {
        assert i < |dir| && dir'[i] == dir[i];
        assert IsLong(dir[i]);
        assert i + 1 < |dir| && !Free(dir[i + 1]);
      }
    }
  }

  lemma GrownNoOrphans(dir: seq<Dirent>, n: nat)
    ensures NoOrphans(dir) ==> NoOrphans(dir + seq(n, _ => BLANK))
  {
    var r := dir + seq(n, _ => BLANK);
    if NoOrphans(dir) {
      forall i | 0 <= i < |r| && IsLong(r[i]) ensures i + 1 < |r| && !Free(r[i + 1]) {
        assert i < |dir| && IsLong(dir[i]);
        assert i + 1 < |dir| && r[i + 1] == dir[i + 1];
      }
    }
  }

  /** `dir_wipe` leaves no part of a long name behind. */
  lemma {:induction false} WipedNoOrphans(dir: seq<Dirent>, k: nat)
    requires k < |dir| && Free(dir[k])
    requires forall i | 0 <= i < |dir| && IsLong(dir[i]) && i + 1 != k :: i + 1 < |dir| && !Free(dir[i + 1])
    ensures NoOrphans(WipeLong(dir, k))
    decreases k
  {
    if k != 0 && IsLong(dir[k - 1]) {
      WipedNoOrphans(dir[k - 1 := Erased(dir[k - 1])], k - 1);
    }
  }

  lemma RemovedNoOrphans(dir: seq<Dirent>, off: nat)
    requires NoOrphans(dir) && off < |dir|
    ensures NoOrphans(WipeLong(dir[off := Erased(dir[off])], off))
  {
    WipedNoOrphans(dir[off := Erased(dir[off])], off);
  }

  /** A long name is listed as it was given, whatever surrounds its slots. */
  lemma LongListed(dir: seq<Dirent>, off: nat, name: seq<Byte>, n83: seq<Byte>)
    requires LongNames.LongOk(name) && |n83| == 11
    requires var long := LongSlots(name, n83, false);
      off + |long| < |dir| && dir[off..off + |long|] == long && dir[off + |long|].name == n83
    ensures ListName(dir, off + LongNames.Count(name)) == name
  {
    LongNames.LongRoundTrip(name, n83);
    var c, raw := LongNames.Count(name), LongNames.Slots(name, n83);
    forall j | 0 <= j < c ensures Raw(dir)[off + j] == raw[j] {
      assert dir[off + j] == dir[off..off + c][j];
      LongBytes(name, n83, j);
    }
    assert Raw(dir)[off..off + c] == raw;
    assert Raw(dir)[off + c][..11] == n83;
    LongNames.ListedBack(Raw(dir), off, name, n83);
  }

  lemma LongBytes(name: seq<Byte>, n83: seq<Byte>, j: nat)
    requires LongNames.LongOk(name) && j < LongNames.Count(name)
    ensures SlotBytes(Dirent(LongNames.Slots(name, n83)[j], ATTR_LONG, 0, 0)) == LongNames.Slots(name, n83)[j]
  {
    hide LongNames.Checksum, LongNames.LongByte, LongNames.LongOk;
    LongNames.LongLength(name);
    var c := LongNames.Count(name);
    LongNames.FirstSlot(LongNames.Ord(c - j, j == 0), LongNames.Checksum(n83), name, (c - j - 1) * 13);
  }

  /** A name that fits 8.3 is listed in lower case, unless the slot before it is part of some long name. */
  lemma ShortListed(dir: seq<Dirent>, off: nat, name: seq<Byte>)
    requires LongNames.Fits83(name) && off < |dir| && dir[off].name == LongNames.Short(name)
    requires off == 0 || dir[off - 1].attr != ATTR_LONG
    ensures ListName(dir, off) == LongNames.Lower(name)
  {
    hide LongNames.Fits83, LongNames.Short, LongNames.FatName, LongNames.Lower, LongNames.Build;
    LongNames.ShortRoundTrip(name);
    assert Raw(dir)[off][..11] == LongNames.Short(name);
    assert LongNames.Track(Raw(dir), off) == (-1, 0);
  }

  lemma ShortSlots(name: seq<Byte>, n83: seq<Byte>)
    ensures LongSlots(name, n83, true) == []
  {
  }

  lemma AddedShort(dir: seq<Dirent>, dir': seq<Dirent>, off: nat, name: seq<Byte>, e: Dirent)
    requires LongNames.Fits83(name) && e.name == LongNames.Short(name) && NoOrphans(dir)
    requires SlotsAdded(dir, dir', off, [e]) && (off == 0 || !Free(dir'[off - 1]))
    ensures off < |dir'| && ListName(dir', off) == LongNames.Lower(name)
  {
    hide LongNames.Fits83, LongNames.Short, ListName;
    assert dir'[off] == dir'[off..off + 1][0];
    if off > 0 {
      assert off - 1 < |dir| && dir'[off - 1] == dir[off - 1];
      assert off < |dir| ==> Free(dir[off - 1 + 1]);
      assert !IsLong(dir[off - 1]);
    }
    ShortListed(dir', off, name);
  }

  lemma AddedLong(dir: seq<Dirent>, dir': seq<Dirent>, off: nat, name: seq<Byte>, e: Dirent)
    requires LongNames.LongOk(name) && |e.name| == 11
    requires SlotsAdded(dir, dir', off, LongSlots(name, e.name, false) + [e])
    ensures var at := off + |LongSlots(name, e.name, false)|; at < |dir'| && ListName(dir', at) == name
  {
    hide LongNames.LongOk, ListName;
    var long := LongSlots(name, e.name, false);
    var all := dir'[off..off + |long| + 1];
    assert all == long + [e];
    assert dir'[off..off + |long|] == all[..|long|] == long;
    assert dir'[off + |long|] == all[|long|] == e;
    LongListed(dir', off, name, e.name);
  }
}
