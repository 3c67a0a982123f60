/**
 File contents of `kernel/fs.c`: the bytes a chain of clusters holds, one 512-byte sector per cluster.  Sectors
 are counted from the first one of the data area, which is cluster 2.
 */
module Sectors {
  import opened Bytes
  import opened Fat12

  const SEC: nat := 512

  function Secs(len: nat): (r: nat)
    ensures 512 * r >= len && (r > 0 ==> 512 * (r - 1) < len)
  {
    (len + 511) / 512
  }

  /** Sectors of full size, with room for `n` clusters. */
  ghost predicate DiskOk(disk: seq<seq<Byte>>, n: nat) {
    |disk| >= n && forall s | 0 <= s < |disk| :: |disk[s]| == SEC
  }

  function Lba(c: nat): int {
    c - 2
  }

  /** The sector of cluster `c`. */
  function SectorOf(disk: seq<seq<Byte>>, c: nat): seq<Byte> {
    if 0 <= Lba(c) < |disk| then disk[Lba(c)] else []
  }

  ghost predicate OnDisk(disk: seq<seq<Byte>>, p: seq<nat>) {
    forall i | 0 <= i < |p| :: 2 <= p[i] && Lba(p[i]) < |disk| && |disk[Lba(p[i])]| == SEC
  }

  lemma ChainOnDisk(fat: seq<Byte>, n: nat, p: seq<nat>, disk: seq<seq<Byte>>)
    requires DiskOk(disk, n) && Chain(fat, n, p)
    ensures OnDisk(disk, p) && Distinct(p)
  {
    forall i | 0 <= i < |p| ensures 2 <= p[i] && Lba(p[i]) < |disk| {
      assert Good(fat, n, p[i]);
    }
  }

  ghost function ByteAt(disk: seq<seq<Byte>>, p: seq<nat>, i: nat): Byte
    requires OnDisk(disk, p) && i < 512 * |p|
  {
    disk[Lba(p[i / 512])][i % 512]
  }

  /** The first `size` bytes that the clusters of `p` hold. */
  ghost function Contents(disk: seq<seq<Byte>>, p: seq<nat>, size: nat): (r: seq<Byte>)
    requires OnDisk(disk, p) && size <= 512 * |p|
    ensures |r| == size
  {
    seq(size, i requires 0 <= i < size => ByteAt(disk, p, i))
  }

  /** Sector `k` of a file, padded with zeros. */
  function Sector(src: seq<Byte>, k: nat): (r: seq<Byte>)
    ensures |r| == SEC
  {
    seq(SEC, j requires 0 <= j < SEC => if 512 * k + j < |src| then src[512 * k + j] else 0)
  }

  /** The disk after the first `k` sectors of `src` went to the first `k` clusters of `p`. */
  ghost function Stored(disk: seq<seq<Byte>>, p: seq<nat>, src: seq<Byte>, k: nat): (r: seq<seq<Byte>>)
    requires OnDisk(disk, p) && k <= |p|
    ensures |r| == |disk| && OnDisk(r, p)
  {
    if k == 0 then disk else Stored(disk, p, src, k - 1)[Lba(p[k - 1]) := Sector(src, k - 1)]
  }

  lemma {:induction false} StoredAt(disk: seq<seq<Byte>>, p: seq<nat>, src: seq<Byte>, k: nat, s: nat)
    requires OnDisk(disk, p) && k <= |p| && Distinct(p) && s < |disk|
    ensures forall j | 0 <= j < k && s == Lba(p[j]) :: Stored(disk, p, src, k)[s] == Sector(src, j)
    ensures (forall j | 0 <= j < k :: s != Lba(p[j])) ==> Stored(disk, p, src, k)[s] == disk[s]
  {
    if k > 0 {
      StoredAt(disk, p, src, k - 1, s);
    }
  }

  lemma StoredByte(disk: seq<seq<Byte>>, p: seq<nat>, src: seq<Byte>, k: nat, j: nat, r: nat)
    requires OnDisk(disk, p) && Distinct(p) && j < k <= |p| && r < SEC && 512 * j + r < |src|
    ensures Stored(disk, p, src, k)[Lba(p[j])][r] == src[512 * j + r]
  {
    hide Stored;
    StoredAt(disk, p, src, k, Lba(p[j]));
  }

  lemma Place(i: nat, n: nat)
    requires i < n
    ensures i / 512 < Secs(n) && 512 * (i / 512) + i % 512 == i && i % 512 < SEC && n <= 512 * Secs(n)
  {
  }

  /** What was stored is what the clusters hold. */
  lemma StoredContents(disk: seq<seq<Byte>>, p: seq<nat>, src: seq<Byte>)
    requires OnDisk(disk, p) && Distinct(p) && Secs(|src|) <= |p|
    ensures |src| <= 512 * |p|
    ensures Contents(Stored(disk, p, src, Secs(|src|)), p, |src|) == src
  {
    hide Stored, Sector, OnDisk, Secs, Distinct;
    var disk' := Stored(disk, p, src, Secs(|src|));
    assert |src| <= 512 * |p| by {
      if |src| > 0 {
        Place(0, |src|);
      }
    }
    forall i | 0 <= i < |src| ensures ByteAt(disk', p, i) == src[i] {
      Place(i, |src|);
      StoredByte(disk, p, src, Secs(|src|), i / 512, i % 512);
    }
  }

  /** A chain apart from the one written holds what it held. */
  lemma StoredApart(disk: seq<seq<Byte>>, p: seq<nat>, src: seq<Byte>, k: nat, q: seq<nat>, size: nat)
    requires OnDisk(disk, p) && Distinct(p) && k <= |p|
    requires OnDisk(disk, q) && Apart(q, p) && size <= 512 * |q|
    ensures OnDisk(Stored(disk, p, src, k), q)
    ensures Contents(Stored(disk, p, src, k), q, size) == Contents(disk, q, size)
  {
    var disk' := Stored(disk, p, src, k);
    forall i | 0 <= i < |q| ensures disk'[Lba(q[i])] == disk[Lba(q[i])] {
      assert q[i] in q;
      StoredAt(disk, p, src, k, Lba(q[i]));
    }
    forall i | 0 <= i < size ensures ByteAt(disk', q, i) == ByteAt(disk, q, i) {
      assert i / 512 < |q|;
    }
  }

  /** A cluster outside the chain written keeps its sector. */
  lemma StoredElsewhere(disk: seq<seq<Byte>>, p: seq<nat>, src: seq<Byte>, k: nat, c: nat)
    requires OnDisk(disk, p) && Distinct(p) && k <= |p| && c !in p
    ensures SectorOf(Stored(disk, p, src, k), c) == SectorOf(disk, c)
  {
    if 0 <= Lba(c) < |disk| {
      assert forall j | 0 <= j < k :: p[j] in p;
      StoredAt(disk, p, src, k, Lba(c));
    }
  }

  lemma {:induction false} StoredOk(disk: seq<seq<Byte>>, p: seq<nat>, src: seq<Byte>, k: nat, n: nat)
    requires OnDisk(disk, p) && k <= |p| && DiskOk(disk, n)
    ensures DiskOk(Stored(disk, p, src, k), n)
  {
    if k > 0 {
      StoredOk(disk, p, src, k - 1, n);
    }
  }

  /** A chain cut short or extended holds the same bytes in the part it shares. */
  lemma SharedContents(disk: seq<seq<Byte>>, p: seq<nat>, q: seq<nat>, len: nat, size: nat)
    requires OnDisk(disk, p) && OnDisk(disk, q) && len <= size <= 512 * |p| && len <= 512 * |q|
    requires forall i | 0 <= i < |p| && i < |q| :: p[i] == q[i]
    ensures Contents(disk, q, len) == Contents(disk, p, size)[..len]
  {
    forall i | 0 <= i < len ensures ByteAt(disk, q, i) == ByteAt(disk, p, i) {
      assert i / 512 < |p| && i / 512 < |q|;
    }
  }

  lemma ContentsMore(disk: seq<seq<Byte>>, p: seq<nat>, k: nat, n: nat)
    requires OnDisk(disk, p) && k < |p| && n <= SEC && 512 * k + n <= 512 * |p|
    ensures Contents(disk, p, 512 * k + n) == Contents(disk, p, 512 * k) + disk[Lba(p[k])][..n]
  {
    forall i | 512 * k <= i < 512 * k + n ensures ByteAt(disk, p, i) == disk[Lba(p[k])][i - 512 * k] {
      assert i / 512 == k;
    }
  }

  // ----- the two copies of the table -----

  /** `bread`: the bytes of `n` sectors from `lba` on. */
  ghost function ReadFrom(disk: seq<seq<Byte>>, lba: nat, n: nat): seq<Byte>
    requires lba + n <= |disk|
  {
    if n == 0 then [] else ReadFrom(disk, lba, n - 1) + disk[lba + n - 1]
  }

  lemma {:induction false} ReadSame(disk: seq<seq<Byte>>, disk': seq<seq<Byte>>, lba: nat, n: nat)
    requires lba + n <= |disk| && lba + n <= |disk'| && forall s | lba <= s < lba + n :: disk'[s] == disk[s]
    ensures ReadFrom(disk', lba, n) == ReadFrom(disk, lba, n)
  {
    if n > 0 {
      ReadSame(disk, disk', lba, n - 1);
    }
  }

  /** From sector `lba` on the disk has the bytes of `table`, 512 to a sector. */
  ghost predicate TableFrom(disk: seq<seq<Byte>>, lba: nat, table: seq<Byte>) {
    forall x | 0 <= x < |table| :: lba + x / 512 < |disk| && x % 512 < |disk[lba + x / 512]| && disk[lba + x / 512][x % 512] == table[x]
  }

  lemma {:induction false} ReadFromIs(disk: seq<seq<Byte>>, lba: nat, n: nat)
    requires lba + n <= |disk| && forall s | lba <= s < lba + n :: |disk[s]| == 512
    ensures |ReadFrom(disk, lba, n)| == 512 * n && TableFrom(disk, lba, ReadFrom(disk, lba, n))
  {
    if n > 0 {
      ReadFromIs(disk, lba, n - 1);
      var r, rest := ReadFrom(disk, lba, n), ReadFrom(disk, lba, n - 1);
      forall x | 0 <= x < 512 * n
        ensures lba + x / 512 < |disk| && x % 512 < |disk[lba + x / 512]| && disk[lba + x / 512][x % 512] == r[x]
      {
        if x < 512 * (n - 1) {
          assert r[x] == rest[x];
        } else {
          InLast(x, n);
          assert r[x] == disk[lba + n - 1][x - 512 * (n - 1)];
        }
      }
    }
  }

  lemma InLast(x: nat, n: nat)
    requires n > 0 && 512 * (n - 1) <= x < 512 * n
    ensures x / 512 == n - 1 && x % 512 == x - 512 * (n - 1)
  {
  }

  /** The disk holds `table` twice, as a mount would read it. */
  ghost predicate HoldsTable(disk: seq<seq<Byte>>, rsvd: nat, fatsz: nat, table: seq<Byte>) {
    && rsvd + 2 * fatsz <= |disk|
    && ReadFrom(disk, rsvd, fatsz) == table && ReadFrom(disk, rsvd + fatsz, fatsz) == table
  }

  lemma TableStays(disk: seq<seq<Byte>>, disk': seq<seq<Byte>>, rsvd: nat, fatsz: nat, table: seq<Byte>)
    requires HoldsTable(disk, rsvd, fatsz, table) && |disk'| == |disk|
    requires forall s | rsvd <= s < rsvd + 2 * fatsz :: disk'[s] == disk[s]
    ensures HoldsTable(disk', rsvd, fatsz, table)
  {
    ReadSame(disk, disk', rsvd, fatsz);
    ReadSame(disk, disk', rsvd + fatsz, fatsz);
  }

  lemma TableUnder(disk: seq<seq<Byte>>, disk': seq<seq<Byte>>, rsvd: nat, fatsz: nat, first: nat, table: seq<Byte>)
    requires HoldsTable(disk, rsvd, fatsz, table) && |disk'| == |disk| && rsvd + 2 * fatsz <= first <= |disk|
    requires disk'[..first] == disk[..first]
    ensures HoldsTable(disk', rsvd, fatsz, table)
  {
    assert forall s | 0 <= s < first :: disk'[s] == disk'[..first][s] && disk[s] == disk[..first][s];
    TableStays(disk, disk', rsvd, fatsz, table);
  }

  /** Only sectors from `lba` up to `end` changed. */
  ghost predicate OnlyBetween(disk: seq<seq<Byte>>, disk': seq<seq<Byte>>, lba: nat, end: nat) {
    |disk'| == |disk| && forall s | 0 <= s < |disk| && !(lba <= s < end) :: disk'[s] == disk[s]
  }

  /**
   `fat_flush` writes two copies whatever the number of copies the volume has.  The sector behind the last copy,
   which is the root directory's, is spared exactly when there are two or more, or by chance.
   */
  lemma RootSparedIff(disk: seq<seq<Byte>>, disk': seq<seq<Byte>>, rsvd: nat, fatsz: nat, copies: nat, table: seq<Byte>)
    requires HoldsTable(disk', rsvd, fatsz, table) && OnlyBetween(disk, disk', rsvd, rsvd + 2 * fatsz)
    requires 1 <= copies && 1 <= fatsz && rsvd + copies * fatsz < |disk| && |disk'[rsvd + fatsz]| == 512 <= |table|
    ensures var root := rsvd + copies * fatsz; disk'[root] == disk[root] <==> copies >= 2 || disk[root] == table[..512]
  {
    hide ReadFrom;
    CopiesEnd(copies, fatsz);
    if copies == 1 {
      FirstSector(disk', rsvd + fatsz, fatsz);
    }
  }

  lemma CopiesEnd(copies: nat, fatsz: nat)
    requires 1 <= copies
    ensures if copies == 1 then copies * fatsz == fatsz else copies * fatsz >= 2 * fatsz
  {
  }

  lemma {:induction false} FirstSector(disk: seq<seq<Byte>>, lba: nat, n: nat)
    requires lba + n <= |disk| && n > 0
    ensures |ReadFrom(disk, lba, n)| >= |disk[lba]| && ReadFrom(disk, lba, n)[..|disk[lba]|] == disk[lba]
  {
    if n > 1 {
      FirstSector(disk, lba, n - 1);
    }
  }

  /** A sector of the data area, seen from the whole disk. */
  lemma DataSet(disk: seq<seq<Byte>>, first: nat, i: nat, sec: seq<Byte>)
    requires first + i < |disk|
    ensures disk[first + i := sec][first..] == disk[first..][i := sec] && disk[first + i := sec][..first] == disk[..first]
  {
  }

  // ----- where the bytes of a chain lie on the disk -----

  /**
   Byte `x` of a chain is byte `x % 512` of the sector of its cluster `x / 512`, where cluster 2 is sector `first`;
   it is `data[x]`, or zero past the end of `data`.
   */
  ghost predicate ByteLies(disk: seq<seq<Byte>>, first: nat, p: seq<nat>, data: seq<Byte>, x: nat) {
    && x / 512 < |p|
    && var s := first + p[x / 512] - 2;
    0 <= s < |disk| && x % 512 < |disk[s]| && disk[s][x % 512] == if x < |data| then data[x] else 0
  }

  ghost predicate ReadsFrom(disk: seq<seq<Byte>>, first: nat, p: seq<nat>, data: seq<Byte>) {
    |data| <= 512 * |p| && forall x: nat | x < |data| :: ByteLies(disk, first, p, data, x)
  }

  lemma ContentsRead(disk: seq<seq<Byte>>, first: nat, p: seq<nat>, size: nat)
    requires first <= |disk| && OnDisk(disk[first..], p) && size <= 512 * |p|
    ensures ReadsFrom(disk, first, p, Contents(disk[first..], p, size))
  {
    forall x: nat | x < size ensures ByteLies(disk, first, p, Contents(disk[first..], p, size), x) {
      assert x / 512 < |p|;
      assert disk[first..][Lba(p[x / 512])] == disk[first + p[x / 512] - 2];
    }
  }

  /** The clusters of `p` that `data` takes hold its bytes and then zeros; every other sector is as it was. */
  ghost predicate LaidOut(disk: seq<seq<Byte>>, disk': seq<seq<Byte>>, first: nat, p: seq<nat>, data: seq<Byte>) {
    && |disk'| == |disk| && (|data| + 511) / 512 <= |p|
    && (forall x: nat | x < 512 * ((|data| + 511) / 512) :: ByteLies(disk', first, p, data, x))
    && (forall s: nat | s < |disk| && Outside(first, p[..(|data| + 511) / 512], s) :: disk'[s] == disk[s])
  }

  /** The sector belongs to no cluster of `p`. */
  ghost predicate Outside(first: nat, p: seq<nat>, s: nat) {
    forall c <- p :: s != first + c - 2
  }

  lemma StoredLaidOut(disk: seq<seq<Byte>>, disk': seq<seq<Byte>>, first: nat, p: seq<nat>, data: seq<Byte>)
    requires first <= |disk| && OnDisk(disk[first..], p) && Distinct(p) && Secs(|data|) <= |p|
    requires |disk'| == |disk| && disk'[..first] == disk[..first] && disk'[first..] == Stored(disk[first..], p, data, Secs(|data|))
    ensures LaidOut(disk, disk', first, p, data)
  {
    hide Stored, ByteLies, OnDisk, Distinct, Outside;
    var n := Secs(|data|);
    assert n == (|data| + 511) / 512;
    forall x: nat | x < 512 * n ensures ByteLies(disk', first, p, data, x) {
      ByteStored(disk, disk', first, p, data, n, x);
    }
    forall s: nat | s < |disk| && Outside(first, p[..n], s) ensures disk'[s] == disk[s] {
      SectorSpared(disk, disk', first, p, data, n, s);
    }
  }

  lemma ByteStored(disk: seq<seq<Byte>>, disk': seq<seq<Byte>>, first: nat, p: seq<nat>, data: seq<Byte>, n: nat, x: nat)
    requires first <= |disk| && OnDisk(disk[first..], p) && Distinct(p) && n <= |p| && x < 512 * n
    requires |disk'| == |disk| && disk'[first..] == Stored(disk[first..], p, data, n)
    ensures ByteLies(disk', first, p, data, x)
  {
    hide Stored;
    StoredSector(disk[first..], p, data, n, x);
    assert disk'[first..][Lba(p[x / 512])] == disk'[first + p[x / 512] - 2];
  }

  lemma SectorSpared(disk: seq<seq<Byte>>, disk': seq<seq<Byte>>, first: nat, p: seq<nat>, data: seq<Byte>, n: nat, s: nat)
    requires first <= |disk| && OnDisk(disk[first..], p) && Distinct(p) && n <= |p|
    requires |disk'| == |disk| && disk'[..first] == disk[..first] && disk'[first..] == Stored(disk[first..], p, data, n)
    requires s < |disk| && Outside(first, p[..n], s)
    ensures disk'[s] == disk[s]
  {
    hide Stored, Sector;
    if s < first {
      assert disk'[s] == disk'[..first][s] && disk[s] == disk[..first][s];
    } else {
      forall j | 0 <= j < n ensures Lba(p[j]) != s - first {
        assert p[j] == p[..n][j] && p[..n][j] in p[..n];
      }
      StoredAt(disk[first..], p, data, n, s - first);
      assert disk'[s] == disk'[first..][s - first] && disk[s] == disk[first..][s - first];
    }
  }

  lemma StoredSector(disk: seq<seq<Byte>>, p: seq<nat>, data: seq<Byte>, n: nat, x: nat)
    requires OnDisk(disk, p) && Distinct(p) && n <= |p| && x < 512 * n
    ensures x / 512 < n && 0 <= Lba(p[x / 512]) < |disk|
    ensures var sec := Stored(disk, p, data, n)[Lba(p[x / 512])]; |sec| == 512 && sec[x % 512] == if x < |data| then data[x] else 0
  {
    hide Stored;
    assert x / 512 < n && 512 * (x / 512) + x % 512 == x;
    StoredAt(disk, p, data, n, Lba(p[x / 512]));
  }
}
