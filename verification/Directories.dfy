/**
 Directory slots of `kernel/fs.c`: free runs, wiping, and the names a cluster has.  A slot is kept as a
 record of the fields of its 32 bytes.
 */
module Directories {
  import opened Bytes

  const ATTR_LONG: Byte := 0x0F
  const ERASED: Byte := 0xE5
  const DOT: Byte := 0x2E

  datatype Dirent = Dirent(name: seq<Byte>, attr: Byte, cluster: nat, size: nat)

  const BLANK: Dirent := Dirent([], 0, 0, 0)

  function First(e: Dirent): Byte {
    if e.name == [] then 0 else e.name[0]
  }

  predicate Free(e: Dirent) {
    First(e) == 0 || First(e) == ERASED
  }

  predicate IsLong(e: Dirent) {
    !Free(e) && e.attr == ATTR_LONG
  }

  /** A name of a file: not free, not a dot entry, not part of a long name, a label or a directory. */
  predicate Live(e: Dirent) {
    !Free(e) && First(e) != DOT && e.attr != ATTR_LONG && (e.attr as int / 8) % 2 == 0 && (e.attr as int / 16) % 2 == 0
  }

  /** The attribute does not have the bit of weight `w`. */
  predicate Lacks(attr: Byte, w: nat)
    requires w > 0
  {
    attr as int % (2 * w) < w
  }

  lemma LacksIs(a: Byte)
    ensures Lacks(a, 8) <==> (a as int / 8) % 2 == 0
    ensures Lacks(a, 16) <==> (a as int / 16) % 2 == 0
  {
    var x := a as int;
    assert x == 16 * (x / 16) + 8 * (x / 8 % 2) + x % 8;
    assert x == 32 * (x / 32) + 16 * (x / 16 % 2) + x % 16;
  }

  /** A slot names a file: it is not free, not a dot entry, and has the bits of neither a long name, a label nor a directory. */
  lemma LiveIff(e: Dirent)
    ensures Live(e) <==> First(e) !in {0, 0xE5, 0x2E} && e.attr != 0x0F && Lacks(e.attr, 8) && Lacks(e.attr, 16)
  {
    hide Lacks;
    LacksIs(e.attr);
  }

  /** Nothing in use follows an end marker. */
  ghost predicate EndOk(dir: seq<Dirent>) {
    forall i, j | 0 <= i < j < |dir| && First(dir[i]) == 0 :: Free(dir[j])
  }

  /** The slots that name a file whose first cluster is `cl`. */
  ghost function Names(dir: seq<Dirent>, cl: nat): set<int> {
    set i | 0 <= i < |dir| && Live(dir[i]) && dir[i].cluster == cl
  }

  ghost predicate FreeRun(dir: seq<Dirent>, off: int, need: nat) {
    0 <= off && off + need <= |dir| && forall i | off <= i < off + need :: Free(dir[i])
  }

  /** `dir_find_run`: the first run of free slots that is long enough; -1 exactly when there is none. */
  method FindRun(dir: seq<Dirent>, need: nat) returns (off: int)
    ensures off == -1 <==> need == 0 || forall k :: !FreeRun(dir, k, need)
    ensures off != -1 ==> FreeRun(dir, off, need) && (off == 0 || !Free(dir[off - 1]))
    ensures off != -1 ==> forall k | 0 <= k < off :: !FreeRun(dir, k, need)
  {
    if need == 0 {
      return -1;
    }
    var run, start, i := 0, 0, 0;
    while i < |dir|
      invariant 0 <= i <= |dir| && 0 <= run < need
      invariant run > 0 ==> start + run == i
      invariant forall k | i - run <= k < i :: Free(dir[k])
      invariant i - run == 0 || (0 < i - run && !Free(dir[i - run - 1]))
      invariant forall k | 0 <= k < i - run :: !FreeRun(dir, k, need)
    {
      if Free(dir[i]) {
        if run == 0 {
          start := i;
        }
        run := run + 1;
        if run >= need {
          assert FreeRun(dir, start, need);
          return start;
        }
      } else {
        assert !Free(dir[i]);
        forall k | i - run <= k <= i ensures !FreeRun(dir, k, need) {
        }
        run := 0;
      }
      i := i + 1;
    }
    forall k | |dir| - run <= k ensures !FreeRun(dir, k, need) {
    }
    off := -1;
  }

  /** The directory with these slots written from `off` on. */
  function Placed(dir: seq<Dirent>, off: nat, ents: seq<Dirent>): (r: seq<Dirent>)
    requires off + |ents| <= |dir|
    ensures |r| == |dir|
    ensures forall i | 0 <= i < |dir| :: r[i] == if off <= i < off + |ents| then ents[i - off] else dir[i]
  {
    dir[..off] + ents + dir[off + |ents|..]
  }

  /** Filling the run that `FindRun` found never leaves a slot in use behind an end marker. */
  lemma PlacedEnd(dir: seq<Dirent>, off: nat, ents: seq<Dirent>)
    requires EndOk(dir) && FreeRun(dir, off, |ents|) && (off == 0 || !Free(dir[off - 1]))
    requires forall k | 0 <= k < |ents| :: !Free(ents[k])
    ensures EndOk(Placed(dir, off, ents))
  {
    var r := Placed(dir, off, ents);
    assert forall i | 0 <= i < off :: First(dir[i]) != 0;
    forall i, j | 0 <= i < j < |r| && First(r[i]) == 0 ensures Free(r[j]) {
      assert i >= off + |ents|;
    }
  }

  /** A grown directory is followed by zeroed slots. */
  lemma GrownEnd(dir: seq<Dirent>, n: nat)
    requires EndOk(dir)
    ensures EndOk(dir + seq(n, _ => BLANK))
  {
  }

  /** The slots of a long name just below `k`, erased. */
  function WipeLong(dir: seq<Dirent>, k: nat): (r: seq<Dirent>)
    requires k <= |dir|
    ensures |r| == |dir|
    decreases k
  {
    if k == 0 || !IsLong(dir[k - 1]) then dir
    else WipeLong(dir[k - 1 := Erased(dir[k - 1])], k - 1)
  }

  function Erased(e: Dirent): Dirent {
    if e.name == [] then e.(name := [ERASED]) else e.(name := e.name[0 := ERASED])
  }

  /** The slot with the first byte of its name replaced by the mark of an erased one. */
  ghost predicate Marked(e: Dirent, e': Dirent) {
    e' == e.(name := e'.name) && e'.name != [] && e'.name[0] == 0xE5 && (e.name != [] ==> e'.name[1..] == e.name[1..])
  }

  /** The slots from `f` to `off` are erased, those before `off` being long-name slots; every other slot is as it was. */
  ghost predicate WipedFrom(dir: seq<Dirent>, r: seq<Dirent>, f: nat, off: nat)
    requires |r| == |dir| && off < |dir|
  {
    && f <= off && (forall i | f <= i < off :: !Free(dir[i]) && dir[i].attr == 0x0F)
    && (f > 0 ==> Free(dir[f - 1]) || dir[f - 1].attr != 0x0F)
    && forall i | 0 <= i < |dir| :: if f <= i <= off then Marked(dir[i], r[i]) else r[i] == dir[i]
  }

  /** Slot `off` is erased and the unbroken run of long-name slots in front of it. */
  ghost predicate Wiped(dir: seq<Dirent>, r: seq<Dirent>, off: nat) {
    |r| == |dir| && off < |dir| && exists f: nat :: WipedFrom(dir, r, f, off)
  }

  /** How far down the run below `k` goes. */
  lemma {:induction false} WipeLongIs(dir: seq<Dirent>, k: nat) returns (f: nat)
    requires k <= |dir|
    ensures f <= k && (forall i | f <= i < k :: IsLong(dir[i])) && (f > 0 ==> !IsLong(dir[f - 1]))
    ensures forall i | 0 <= i < |dir| :: if f <= i < k then Marked(dir[i], WipeLong(dir, k)[i]) else WipeLong(dir, k)[i] == dir[i]
    decreases k
  {
    if k == 0 || !IsLong(dir[k - 1]) {
      f := k;
    } else {
      var d := dir[k - 1 := Erased(dir[k - 1])];
      f := WipeLongIs(d, k - 1);
      assert Marked(dir[k - 1], Erased(dir[k - 1]));
      forall i | f <= i < k ensures IsLong(dir[i]) {
        assert i < k - 1 ==> d[i] == dir[i];
      }
      assert f > 0 ==> d[f - 1] == dir[f - 1];
      assert WipeLong(dir, k) == WipeLong(d, k - 1);
    }
  }

  lemma WipeIsWiped(dir: seq<Dirent>, off: nat)
    requires off < |dir|
    ensures Wiped(dir, WipeLong(dir[off := Erased(dir[off])], off), off)
  {
    hide WipeLong, Marked;
    var d := dir[off := Erased(dir[off])];
    var f := WipeLongIs(d, off);
    var r := WipeLong(d, off);
    assert Marked(dir[off], r[off]) by { ErasedIsMarked(dir[off]); }
    forall i | f <= i < off ensures !Free(dir[i]) && dir[i].attr == 0x0F {
      assert IsLong(d[i]) && d[i] == dir[i];
    }
    forall i | 0 <= i < |dir| ensures if f <= i <= off then Marked(dir[i], r[i]) else r[i] == dir[i] {
      assert i != off ==> d[i] == dir[i];
    }
    assert f > 0 ==> d[f - 1] == dir[f - 1];
    assert WipedFrom(dir, r, f, off);
  }

  lemma ErasedIsMarked(e: Dirent)
    ensures Marked(e, Erased(e))
  {
  }

  /** `dir_wipe`: the slot and the long name in front of it. */
  method Wipe(dir: seq<Dirent>, off: nat) returns (r: seq<Dirent>)
    requires off < |dir|
    ensures r == WipeLong(dir[off := Erased(dir[off])], off) && Wiped(dir, r, off)
  {
    WipeIsWiped(dir, off);
    hide Wiped;
    r := dir[off := Erased(dir[off])];
    var k := off;
    while k >= 1
      invariant 0 <= k <= off && |r| == |dir| && WipeLong(r, k) == WipeLong(dir[off := Erased(dir[off])], off)
    {
      k := k - 1;
      if Free(r[k]) || r[k].attr != ATTR_LONG {
        return;
      }
      r := r[k := Erased(r[k])];
    }
  }

  /** Wiping removes this name and no other, and no end marker appears. */
  lemma {:induction false} WipeLongKeeps(dir: seq<Dirent>, k: nat)
    requires k <= |dir| && EndOk(dir)
    ensures EndOk(WipeLong(dir, k))
    ensures forall i | 0 <= i < |dir| :: !IsLong(dir[i]) ==> WipeLong(dir, k)[i] == dir[i]
    ensures forall i | 0 <= i < |dir| :: IsLong(dir[i]) ==> WipeLong(dir, k)[i] == dir[i] || Free(WipeLong(dir, k)[i])
    decreases k
  {
    if k != 0 && IsLong(dir[k - 1]) {
      var d := dir[k - 1 := Erased(dir[k - 1])];
      assert EndOk(d) by {
        forall i, j | 0 <= i < j < |d| && First(d[i]) == 0 ensures Free(d[j]) {
          assert First(dir[i]) == 0;
        }
      }
      WipeLongKeeps(d, k - 1);
    }
  }

  lemma WipeNames(dir: seq<Dirent>, off: nat, cl: nat)
    requires off < |dir| && EndOk(dir) && Live(dir[off])
    ensures var r := WipeLong(dir[off := Erased(dir[off])], off);
      && EndOk(r) && Names(r, cl) == Names(dir, cl) - {off}
      && (forall i | 0 <= i < |dir| && i != off && !IsLong(dir[i]) :: r[i] == dir[i])
      && Free(r[off]) && (forall i | 0 <= i < |dir| :: r[i] == dir[i] || Free(r[i]))
  {
    var d := dir[off := Erased(dir[off])];
    assert EndOk(d) by {
      forall i, j | 0 <= i < j < |d| && First(d[i]) == 0 ensures Free(d[j]) {
        assert First(dir[i]) == 0;
      }
    }
    WipeLongKeeps(d, off);
  }

  /** The names of `cl` among the first `n` slots, other than `skip`. */
  ghost function NamesBelow(dir: seq<Dirent>, cl: nat, skip: nat, n: nat): set<int>
    requires n <= |dir|
  {
    set i | 0 <= i < n && i != skip && Live(dir[i]) && dir[i].cluster == cl
  }

  lemma NamesStep(dir: seq<Dirent>, cl: nat, skip: nat, i: nat)
    requires i < |dir|
    ensures |NamesBelow(dir, cl, skip, i + 1)|
         == |NamesBelow(dir, cl, skip, i)| + if i != skip && Live(dir[i]) && dir[i].cluster == cl then 1 else 0
  {
    hide Live;
    if i != skip && Live(dir[i]) && dir[i].cluster == cl {
      assert NamesBelow(dir, cl, skip, i + 1) == NamesBelow(dir, cl, skip, i) + {i};
    } else {
      assert NamesBelow(dir, cl, skip, i + 1) == NamesBelow(dir, cl, skip, i);
    }
  }

  /** Past an end marker there are no names. */
  lemma NamesEnd(dir: seq<Dirent>, cl: nat, skip: nat, i: nat)
    requires EndOk(dir) && i <= |dir| && (i < |dir| ==> First(dir[i]) == 0)
    ensures Names(dir, cl) - {skip} == NamesBelow(dir, cl, skip, i)
  {
    assert forall k | i <= k < |dir| :: Free(dir[k]);
  }

  /** `other_links`: how many other names the cluster has in this directory. */
  method OtherLinks(dir: seq<Dirent>, cl: nat, skip: nat) returns (count: nat)
    requires EndOk(dir)
    ensures count == if cl < 2 then 0 else |Names(dir, cl) - {skip}|
  {
    hide Names, Live, EndOk;
    count := 0;
    if cl < 2 {
      return;
    }
    var i := 0;
    while i < |dir|
      invariant 0 <= i <= |dir| && count == |NamesBelow(dir, cl, skip, i)|
    {
      var e := dir[i];
      if First(e) == 0 {
        break;
      }
      NamesStep(dir, cl, skip, i);
      if i != skip && Live(e) && e.cluster == cl {
        count := count + 1;
      }
      i := i + 1;
    }
    NamesEnd(dir, cl, skip, i);
  }
}
