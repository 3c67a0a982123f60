/**
 Files of `kernel/fs.c` in one directory of a FAT12 volume: reading, writing, truncating, creating,
 linking and removing them in place.
 */
module Volumes {
  import opened Bytes
  import opened Fat12
  import opened Directories
  import opened Sectors
  import opened Listings
  import opened FileTables
  import LongNames = Names
  import Spellings

  class Volume {
    const fat: Fat
    const rsvd: nat
    const fatsz: nat
    const first: nat
    const cwd: nat
    var disk: seq<seq<Byte>>
    var dir: seq<Dirent>
    var files: seq<File>
    ghost var kept: set<nat>

    /** The data area of the disk. */
    ghost function Data(): seq<seq<Byte>>
      reads this
    {
      if first <= |disk| then disk[first..] else []
    }

    ghost function V(): Vol
      reads this, fat
    {
      Vol(fat.chains, Data(), dir, files, kept)
    }

    /** The first cluster of this directory past the fixed root sector; entry 1 of the table for the root. */
    ghost function Head(): nat
      reads this, fat.bytes
    {
      if cwd >= 2 then cwd else Ent(fat.bytes[..], 1)
    }

    ghost predicate DirOk()
      reads this, fat, fat.bytes
    {
      DirFits(V(), cwd, Head()) && InTable(fat.bytes[..], 1)
    }

    /** Two copies of the table in front of the data area. */
    ghost predicate Layout()
      reads this, fat
    {
      rsvd + 2 * fatsz <= first <= |disk| && fat.bytes.Length == 512 * fatsz
    }

    ghost predicate ValidRest()
      reads this, fat, fat.bytes
    {
      fat.Valid() && Layout() && DiskOk(Data(), fat.clusters) && DirOk()
    }

    ghost predicate Valid()
      reads this, fat, fat.bytes
    {
      ValidRest() && Ok(V())
    }

    /** Both copies on the disk are the table in memory. */
    ghost predicate Flushed()
      reads this, fat, fat.bytes
    {
      HoldsTable(disk, rsvd, fatsz, fat.bytes[..])
    }

    /** A mounted volume before its directory is scanned. */
    constructor (fat: Fat, rsvd: nat, fatsz: nat, first: nat, cwd: nat, disk: seq<seq<Byte>>, dir: seq<Dirent>, ghost kept: set<nat>)
      requires fat.Valid() && rsvd + 2 * fatsz <= first <= |disk| && fat.bytes.Length == 512 * fatsz
      requires DiskOk(disk[first..], fat.clusters) && Ok(Vol(fat.chains, disk[first..], dir, [], kept))
      requires var h := if cwd >= 2 then cwd else Ent(fat.bytes[..], 1);
        DirFits(Vol(fat.chains, disk[first..], dir, [], kept), cwd, h) && InTable(fat.bytes[..], 1)
      ensures Valid() && V() == Vol(fat.chains, disk[first..], dir, [], kept) && this.fat == fat && this.cwd == cwd
      ensures this.rsvd == rsvd && this.fatsz == fatsz && this.first == first && this.disk == disk
    {
      this.fat, this.rsvd, this.fatsz, this.first, this.cwd := fat, rsvd, fatsz, first, cwd;
      this.disk, this.dir, this.files, this.kept := disk, dir, [], kept;
    }

    /** One copy of the table, sector by sector. */
    method WriteCopy(lba: nat)
      requires lba + fatsz <= |disk| && fat.bytes.Length == 512 * fatsz
      modifies this`disk
      ensures OnlyBetween(old(disk), disk, lba, lba + fatsz) && ReadFrom(disk, lba, fatsz) == fat.bytes[..]
      ensures forall s | lba <= s < lba + fatsz :: |disk[s]| == SEC
    {
      var d, i := disk, 0;
      while i < fatsz
        invariant 0 <= i <= fatsz && OnlyBetween(old(disk), d, lba, lba + i) && ReadFrom(d, lba, i) == fat.bytes[..512 * i]
        invariant forall s | lba <= s < lba + i :: |d[s]| == SEC
      {
        var sec := fat.bytes[512 * i..512 * i + SEC];
        var d' := d[lba + i := sec];
        ReadSame(d, d', lba, i);
        assert fat.bytes[..512 * (i + 1)] == fat.bytes[..512 * i] + sec;
        d := d';
        i := i + 1;
      }
      assert fat.bytes[..512 * fatsz] == fat.bytes[..];
      disk := d;
    }

    /**
     `fat_flush`: what a mount reads back, from either copy, is the table in memory; no other sector changes,
     and so no file does.
     */
    method Flush()
      requires rsvd + 2 * fatsz <= |disk| && fat.bytes.Length == 512 * fatsz
      modifies this`disk
      ensures Flushed() && OnlyBetween(old(disk), disk, rsvd, rsvd + 2 * fatsz)
      ensures TableFrom(disk, rsvd, fat.bytes[..]) && TableFrom(disk, rsvd + fatsz, fat.bytes[..])
      ensures old(Layout()) ==> Layout() && V() == old(V())
    {
      hide ReadFrom, TableFrom;
      WriteCopy(rsvd);
      ghost var once := disk;
      WriteCopy(rsvd + fatsz);
      ReadSame(once, disk, rsvd, fatsz);
      ReadFromIs(disk, rsvd, fatsz);
      ReadFromIs(disk, rsvd + fatsz, fatsz);
      assert old(Layout()) ==> Data() == old(Data());
    }

    /** `store_chain`: it fails exactly when the chain is too short; only sectors of this chain change. */
    method StoreChain(start: nat, src: seq<Byte>) returns (rc: int)
      requires fat.Valid() && Layout() && DiskOk(Data(), fat.clusters) && (start in fat.chains || !Cluster(start))
      modifies this`disk
      ensures OnDisk(old(Data()), ChainOf(fat.chains, start)) && (rc == 0 || rc == -1)
      ensures rc == 0 <==> Secs(|src|) <= |ChainOf(fat.chains, start)|
      ensures Data() == Stored(old(Data()), ChainOf(fat.chains, start), src,
                               if rc == 0 then Secs(|src|) else |ChainOf(fat.chains, start)|)
      ensures |disk| == |old(disk)| && disk[..first] == old(disk[..first])
      ensures rc == 0 ==> LaidOut(old(disk), disk, first, ChainOf(fat.chains, start), src)
    {
      hide Forest, Ent, Stored, Sector, OnDisk, Chain, DiskOk, Secs, ChainOf, Distinct, InTable, Fat12.Off, Walk, Fat.Get, LaidOut;
      ghost var p := ChainOf(fat.chains, start);
      ghost var was, all := Data(), disk;
      WalkReady(fat.bytes[..], fat.clusters, fat.chains, start, was);
      StoredNone(was, p, src);
      var d := disk;
      var cl, off, hops := start, 0, 0;
      while off < |src|
        invariant 0 <= off <= |src| && hops <= |p| && (off < |src| ==> off == 512 * hops)
        invariant off == |src| ==> hops == Secs(|src|)
        invariant |d| == |all| && d[..first] == all[..first]
        invariant OnDisk(was, p) && d[first..] == Stored(was, p, src, hops)
        invariant off < |src| ==> 0 <= cl && At(p, hops, cl)
        decreases |src| - off
      {
        SecsPast(|src|, hops);
        var n := if |src| - off > SEC then SEC else |src| - off;
        if cl < 2 || cl >= EOF || hops >= CHAIN_MAX {
          disk := d;
          return -1;
        }
        StoredMore(was, p, src, hops);
        DataSet(d, first, cl - 2, Padded(src, off, n));
        d := d[first + (cl - 2) := Padded(src, off, n)];
        PaddedIs(src, off, n, hops);
        if off + n < |src| {
          NextAt(fat.bytes[..], fat.clusters, p, hops);
          cl := fat.Get(cl);
        }
        off := off + n;
        hops := hops + 1;
      }
      disk := d;
      StoredLaidOut(all, disk, first, p, src);
      rc := 0;
    }

    /** `load_file`: it fails exactly when the chain is too short. */
    method LoadFile(start: nat, size: nat) returns (rc: int, data: seq<Byte>)
      requires fat.Valid() && Layout() && DiskOk(Data(), fat.clusters) && (start in fat.chains || !Cluster(start))
      ensures OnDisk(Data(), ChainOf(fat.chains, start)) && (rc == 0 || rc == -1)
      ensures rc == 0 <==> size <= 512 * |ChainOf(fat.chains, start)|
      ensures |data| <= size && (rc == 0 ==> data == Contents(Data(), ChainOf(fat.chains, start), size))
      ensures rc == 0 ==> |data| == size && ReadsFrom(disk, first, ChainOf(fat.chains, start), data)
    {
      hide Forest, Ent, OnDisk, Chain, DiskOk, ChainOf, Contents, Distinct, InTable, Fat12.Off, Walk, Fat.Get, ReadsFrom;
      ghost var p := ChainOf(fat.chains, start);
      ghost var area := Data();
      WalkReady(fat.bytes[..], fat.clusters, fat.chains, start, area);
      var cl, left, hops := start, size, 0;
      data := [];
      assert data == Contents(area, p, 0);
      while left > 0
        invariant 0 <= left <= size && hops <= |p| && |data| == size - left <= 512 * hops && (left > 0 ==> |data| == 512 * hops)
        invariant OnDisk(area, p) && data == Contents(area, p, |data|)
        invariant 0 <= cl && (left > 0 ==> At(p, hops, cl))
        decreases left
      {
        if cl < 2 || cl >= EOF || hops >= CHAIN_MAX {
          return -1, data;
        }
        SectorSize(area, p, hops);
        var sec := disk[first + (cl - 2)];
        var n := if left < SEC then left else SEC;
        ContentsMore(area, p, hops, n);
        NextAt(fat.bytes[..], fat.clusters, p, hops);
        data := data + sec[..n];
        left := left - n;
        cl := fat.Get(cl);
        hops := hops + 1;
      }
      ContentsRead(disk, first, p, size);
      rc := 0;
    }

    /** `fs_lookup` of the file at entry `k`: the size in its slot, and that many bytes of its chain. */
    method Lookup(k: nat) returns (rc: int, data: seq<Byte>)
      requires Valid() && k < |files|
      modifies this`files
      ensures Valid() && (rc == 0 || rc == -1)
      ensures |files| == |old(files)| && forall j | 0 <= j < |files| && j != k :: files[j] == old(files[j])
      ensures files[k] == old(files[k]).(data := files[k].data, len := files[k].len)
      ensures rc == 0 ==> Cached(V(), files[k]) && data == files[k].data[..files[k].len]
      ensures rc == 0 <==> !files[k].isDir && Readable(V(), files[k])
      ensures Cached(old(V()), old(files[k])) && !old(files[k].isDir) ==> rc == 0 && data == CachedBytes(old(files[k]))
    {
      hide Forest, Ent, Ok, OnDisk, Live, DiskOk, HeadOk, FileOk, Chain, Contents;
      data := [];
      FileFacts(V(), k);
      var f := files[k];
      if f.isDir {
        return -1, data;
      }
      var size := dir[f.off].size;
      HeadIsCluster(fat.bytes[..], fat.clusters, V(), k);
      files := files[k := f.(len := size)];
      SetEntryOk(old(V()), k, f.(len := size));
      assert V() == old(V()).(files := files);
      if size > FILE_MAX {
        return -1, data;
      }
      rc, data := LoadFile(f.cluster, size);
      var page := data + f.data[|data|..];
      files := files[k := f.(len := size, data := page)];
      assert files == old(files)[k := f.(len := size, data := page)];
      SetEntryOk(old(V()), k, f.(len := size, data := page));
      assert V() == old(V()).(files := files);
      assert page[..|data|] == data;
    }

    ghost function FreeNow(): set<nat>
      reads fat.bytes
    {
      FreeSet(fat.bytes[..], fat.clusters)
    }

    /** `fat_resize(&files[k].cluster, need)`. */
    method ResizeFile(k: nat, need: nat) returns (rc: int)
      requires Valid() && k < |files| && !files[k].isDir && 0 < need <= CHAIN_MAX
      modifies this`files, fat, fat.bytes
      ensures Refitted(old(V()), V(), k, need, |old(FreeNow())|, rc)
      ensures Valid()
    {
      hide Forest, Ent, Ok, OnDisk, DiskOk, Chain, FreeSet, DirFits, Fitted, Exhausted, Refitted;
      HeadIsCluster(fat.bytes[..], fat.clusters, V(), k);
      ghost var v, was, head := V(), fat.Now(), Head();
      var r, st := fat.Resize(files[k].cluster, need);
      rc := r;
      files := files[k := files[k].(cluster := st)];
      assert V() == Refit(v, k, st, fat.chains);
      RefitAll(was, fat.Now(), fat.clusters, v, k, st, cwd, head, need, rc);
    }

    /** Stores `src` on the chain of file `k`, then brings the slot and the entry up to date. */
    method Commit(k: nat, src: seq<Byte>)
      requires Valid() && k < |files| && !files[k].isDir && |src| <= FILE_MAX && Secs(|src|) <= |Path(V(), k)|
      modifies this`disk, this`dir, this`files
      ensures Holds(old(V()), V(), k, src) && V().chains == old(V()).chains && files[k].cluster == old(files[k].cluster)
      ensures Valid() && (old(Flushed()) ==> Flushed())
    {
      hide Forest, Ent, Ok, OnDisk, Live, DiskOk, HeadOk, FileOk, Chain, Contents, InTable, Stored, Secs, Cached, DirFits, OthersKept, CachedBytes, HoldsTable, TableFrom, RestKept, SlotsKept;
      FileFacts(V(), k);
      HeadIsCluster(fat.bytes[..], fat.clusters, V(), k);
      ghost var v := V();
      var f := files[k];
      ghost var q := Path(v, k);
      ghost var head := Head();
      ghost var all := disk;
      var rc := StoreChain(f.cluster, src);
      if old(Flushed()) {
        TableUnder(all, disk, rsvd, fatsz, first, fat.bytes[..]);
      }
      dir := dir[f.off := dir[f.off].(size := |src|, cluster := f.cluster)];
      files := files[k := f.(data := src + f.data[|src|..], len := |src|)];
      assert V() == Committed(v, k, q, src);
      CommittedAll(v, k, q, src, fat.bytes[..], fat.clusters, cwd, head);
    }

    /**
     `fs_write` to the file at entry `k`.  It succeeds exactly when the clusters suffice, and then the file
     holds the new bytes; when it fails it holds the old ones.  No other file changes.
     */
    method Write(k: nat, src: seq<Byte>) returns (rc: int)
      requires Valid() && k < |files|
      modifies this`disk, this`dir, this`files, fat, fat.bytes
      ensures rc == 0 || rc == -1
      ensures rc == 0 <==> !old(files[k].isDir) && (src == [] || (|src| <= FILE_MAX && Enough(old(V()), k, |src|, |old(FreeNow())|)))
      ensures src == [] ==> V() == old(V())
      ensures rc == 0 && src != [] ==> Holds(old(V()), V(), k, src) && Flushed()
      ensures rc != 0 ==> HoldsStill(old(V()), V(), k)
      ensures Valid() && (old(NoOrphans(dir)) ==> NoOrphans(dir))
    {
      hide Forest, Ent, Ok, OnDisk, DiskOk, Chain, InTable, Secs, Cached, RefitOk, FreeSet, Holds, HoldsStill, DirFits, HoldsTable, TableFrom, NoOrphans;
      if files[k].isDir {
        StillSame(V(), k);
        return -1;
      }
      if |src| == 0 {
        return 0;
      }
      if |src| > FILE_MAX {
        StillSame(V(), k);
        return -1;
      }
      ghost var v, free := V(), |FreeNow()|;
      var need := (|src| + SEC - 1) / 512;
      SecsSmall(|src|);
      rc := ResizeFile(k, need);
      ghost var w := V();
      if rc != 0 {
        RefitStill(v, w, fat.clusters, fat.bytes[..], k, need, free, rc);
        StillNoOrphans(v, w, k);
        return;
      }
      Flush();
      Commit(k, src);
      RefitHolds(v, w, V(), fat.clusters, fat.bytes[..], k, need, free, rc, src);
      HeldNoOrphans(v, V(), k, src);
    }

    /** The branch of `fs_truncate` that frees the whole chain. */
    method TruncateAll(k: nat)
      requires Valid() && k < |files| && !files[k].isDir
      modifies this`dir, this`files, this`disk, fat, fat.bytes
      ensures Holds(old(V()), V(), k, []) && ValidRest() && Flushed()
      ensures old(files[k].off < |dir|) && V() == Emptied(old(V()), k)
      ensures Ok(V()) <==> !Shared(old(V()), k)
    {
      hide Forest, Ent, Ok, OnDisk, DiskOk, Chain, DirFits, Shared, Holds, HoldsTable, TableFrom;
      FileFacts(V(), k);
      HeadIsCluster(fat.bytes[..], fat.clusters, V(), k);
      ghost var v, head, n, was := V(), Head(), fat.clusters, fat.bytes[..];
      var f := files[k];
      fat.FreeChain(f.cluster);
      Flush();
      dir := dir[f.off := dir[f.off].(cluster := 0, size := 0)];
      files := files[k := f.(cluster := 0, len := 0)];
      assert V() == Emptied(v, k);
      EmptiedAll(was, fat.bytes[..], n, v, k, cwd, head);
    }

    /**
     `fs_truncate` of the file at entry `k`.  A file whose bytes are cached keeps its beginning, and what it
     gains is zero.  Cutting a file with another name to nothing breaks that name.
     */
    method Truncate(k: nat, len: nat) returns (rc: int)
      requires Valid() && k < |files|
      modifies this`disk, this`dir, this`files, fat, fat.bytes
      ensures rc == 0 || rc == -1
      ensures rc == 0 <==> (len <= FILE_MAX && !old(files[k].isDir) &&
                            (len == old(files[k].len) || len == 0 || Enough(old(V()), k, len, |old(FreeNow())|)))
      ensures rc == 0 ==> HoldsResized(old(V()), V(), k, len) && (len != old(files[k].len) ==> Flushed())
      ensures rc != 0 ==> HoldsStill(old(V()), V(), k)
      ensures ValidRest()
      ensures Ok(V()) <==> !(len == 0 && !old(files[k].isDir) && old(files[k].len) != 0 && Shared(old(V()), k))
      ensures old(NoOrphans(dir)) ==> NoOrphans(dir)
    {
      hide Forest, Ent, Ok, OnDisk, DiskOk, Chain, InTable, Secs, FreeSet, Shared, DirFits, HoldsStill, HoldsResized, Holds, HoldsTable, TableFrom, NoOrphans;
      FileFacts(V(), k);
      if len > FILE_MAX || files[k].isDir {
        StillSame(V(), k);
        return -1;
      }
      var old_ := files[k].len;
      if len == old_ {
        SameLength(V(), k);
        return 0;
      }
      if len == 0 {
        ghost var v := V();
        TruncateAll(k);
        EmptyResized(v, V(), k);
        ResizedNoOrphans(v, V(), k, len);
        return 0;
      }
      ghost var v := V();
      rc := TruncateSome(k, len);
      if rc == 0 {
        ResizedNoOrphans(v, V(), k, len);
      } else {
        StillNoOrphans(v, V(), k);
      }
    }

    /** The branch of `fs_truncate` that keeps some bytes, or adds some. */
    method TruncateSome(k: nat, len: nat) returns (rc: int)
      requires Valid() && k < |files| && !files[k].isDir && 0 < len <= FILE_MAX && len != files[k].len
      modifies this`disk, this`dir, this`files, fat, fat.bytes
      ensures rc == 0 || rc == -1
      ensures rc == 0 <==> Enough(old(V()), k, len, |old(FreeNow())|)
      ensures rc == 0 ==> HoldsResized(old(V()), V(), k, len) && Flushed()
      ensures rc != 0 ==> HoldsStill(old(V()), V(), k)
      ensures Valid()
    {
      hide Forest, Ent, Ok, OnDisk, DiskOk, Chain, InTable, Secs, FreeSet, RefitOk, DirFits, HoldsStill, HoldsResized, Holds, HoldsTable, TableFrom;
      FileFacts(V(), k);
      ghost var v, head, free := V(), Head(), |FreeNow()|;
      var was := files[k].len;
      SecsSmall(len);
      rc := ResizeFile(k, Secs(len));
      ghost var w := V();
      if rc != 0 {
        RefitStill(v, w, fat.clusters, fat.bytes[..], k, Secs(len), free, rc);
        return;
      }
      Flush();
      if len > was {
        var src := files[k].data[..was] + Zeros(len - was);
        Commit(k, src);
        RefitHolds(v, w, V(), fat.clusters, fat.bytes[..], k, Secs(len), free, rc, src);
        HoldsToResized(v, V(), k, len, src);
      } else {
        RefitCut(v, w, fat.clusters, fat.bytes[..], k, free, len, cwd, Head());
        dir := dir[files[k].off := dir[files[k].off].(cluster := files[k].cluster, size := len)];
        files := files[k := files[k].(len := len)];
        assert V() == Shortened(w, k, len);
      }
    }

    /**
     `fs_remove` of the file at entry `k`.  Its chain is freed exactly when no other name in the directory
     has it; every other name keeps its chain and its bytes.
     */
    method Remove(k: nat) returns (rc: int)
      requires Valid() && k < |files|
      modifies this`dir, this`files, this`disk, fat, fat.bytes
      ensures Valid() && (rc == 0 <==> !old(files[k].isDir)) && (rc == 0 || rc == -1)
      ensures rc != 0 ==> V() == old(V())
      ensures (old(Flushed()) ==> Flushed()) && (old(NoOrphans(dir)) ==> NoOrphans(dir))
      ensures rc == 0 ==> old(files[k].off < |dir|) && V() == Removed(old(V()), k)
      ensures rc == 0 ==> Wiped(old(dir), dir, old(files[k].off)) && |files| == |old(files)| - 1
                          && forall j | 0 <= j < |files| :: files[j] == old(files)[if j == k then |files| else j]
      ensures rc == 0 ==> FreeNow() == old(FreeNow()) + if Shared(old(V()), k) then {} else Elems(Path(old(V()), k))
    {
      hide Forest, Ent, Ok, DiskOk, Chain, DirFits, Shared, Names, FreeSet, Elems, HoldsTable, TableFrom, NoOrphans, Wiped;
      ghost var v, head, n, was := V(), Head(), fat.clusters, fat.bytes[..];
      FileFacts(v, k);
      HeadIsCluster(was, n, v, k);
      var f := files[k];
      if f.isDir {
        return -1;
      }
      assert EndOk(dir) by { OkEnd(v); }
      var links := OtherLinks(dir, f.cluster, f.off);
      SharedIff(was, n, v, k, links);
      if links == 0 {
        fat.FreeChain(f.cluster);
        Flush();
      }
      var d := Wipe(dir, f.off);
      if NoOrphans(dir) {
        RemovedNoOrphans(dir, f.off);
      }
      dir := d;
      files := Without(files, k);
      assert V() == Removed(v, k) by { DropNone(was, n, v, k); }
      RemovedAll(was, fat.bytes[..], n, v, k, cwd, head);
      ElemsNone();
      rc := 0;
    }

    /** `dir_grow`: one more cluster of zeroed slots, at most eight sectors in all. */
    method GrowDir() returns (ok: bool)
      requires Valid()
      modifies this`dir, this`kept, this`disk, fat, fat.bytes
      ensures Valid() && (ok <==> |old(dir)| + 16 <= 128 && old(FreeNow()) != {})
      ensures !ok ==> V() == old(V()) && Head() == old(Head())
      ensures ok ==> dir == old(dir) + seq(16, _ => BLANK) && Same(old(V()), V(), old(Head()))
      ensures (ok || old(Flushed()) ==> Flushed()) && (old(NoOrphans(dir)) ==> NoOrphans(dir))
    {
      hide Forest, Ent, Ok, DiskOk, Chain, FreeSet, Cluster, HoldsTable, TableFrom, RestKept, NoOrphans;
      ghost var v, n, was := V(), fat.clusters, fat.bytes[..];
      var head := if cwd >= 2 then cwd else fat.Get(1);
      if |dir| + 16 > 128 {
        return false;
      }
      HeadInChains(was, n, v, cwd, head);
      var cls := fat.Collect(head);
      var more, st, cls' := fat.Append(head, cls);
      if !more {
        return false;
      }
      ghost var mid := fat.bytes[..];
      if cwd < 2 && |cls| == 0 {
        fat.Set(1, st);
      }
      Flush();
      kept := kept + {st};
      GrownNoOrphans(dir, 16);
      dir := dir + seq(16, _ => BLANK);
      GrowAll(was, mid, fat.bytes[..], n, v, cwd, head, st, cls', fat.chains);
      ok := true;
    }

    /** `dir_slots`: a run of free slots, in a grown directory if need be. */
    method DirSlots(need: nat) returns (off: int)
      requires Valid() && 0 < need <= 16
      modifies this`dir, this`kept, this`disk, fat, fat.bytes
      ensures Valid() && Same(old(V()), V(), old(Head())) && (old(Flushed()) ==> Flushed()) && (old(NoOrphans(dir)) ==> NoOrphans(dir))
      ensures off == -1 <==> NoRoom(old(dir), need, old(FreeNow()))
      ensures HasRun(old(dir), need) ==> V() == old(V())
      ensures off != -1 ==> forall k | 0 <= k < off :: !FreeRun(dir, k, need)
      ensures off != -1 ==> FreeRun(dir, off, need) && (off == 0 || !Free(dir[off - 1]))
    {
      hide Forest, Ent, Ok, DiskOk, FreeRun, HoldsTable, TableFrom, RestKept, NoOrphans;
      assert Head() in fat.chains ==> Head() in kept by { HeadKept(fat.bytes[..], fat.clusters, V(), cwd, Head()); }
      SameItself(V(), Head());
      off := FindRun(dir, need);
      if off >= 0 {
        assert FreeRun(dir, off, need);
        return;
      }
      var ok := GrowDir();
      if !ok {
        return -1;
      }
      GrownHasRun(old(dir), need);
      off := FindRun(dir, need);
    }

    /** A cluster for a new file, on the disk at once. */
    method TakeCluster() returns (cl: nat)
      requires Valid()
      modifies this`disk, fat, fat.bytes
      ensures Valid() && Head() == old(Head()) && (cl == 0 <==> old(FreeNow()) == {})
      ensures cl == 0 ==> V() == old(V()) && (old(Flushed()) ==> Flushed())
      ensures cl != 0 ==> Flushed() && cl in old(FreeNow()) && FreeNow() == old(FreeNow()) - {cl}
      ensures cl != 0 ==> cl !in old(fat.chains) && V() == old(V()).(chains := old(fat.chains)[cl := [cl]]) && cl !in kept
      ensures cl != 0 ==> forall j | 0 <= j < |files| :: files[j].cluster != cl
      ensures cl != 0 ==> forall i | 0 <= i < |dir| && Live(dir[i]) :: dir[i].cluster != cl
    {
      hide Forest, Ent, Ok, DiskOk, Live, FreeSet, Chain, HoldsTable, TableFrom, EndOk;
      ghost var v, head := V(), Head();
      cl := fat.Begin();
      if cl == 0 {
        return;
      }
      Flush();
      BeginOk(v, V(), cl, fat.bytes[..], fat.clusters, cwd, head);
    }

    /**
     The part of `fs_create` past the name: a file of no bytes with a cluster of its own; -1 leaves every file as
     it was.  `page` is what the new page happens to hold.
     */
    method Enter(name: seq<Byte>, long: seq<Dirent>, n83: seq<Byte>, memory: bool, page: seq<Byte>) returns (k: int)
      requires Valid() && |page| == FILE_MAX && NameOk(n83) && |long| <= 2 && forall i | 0 <= i < |long| :: IsLong(long[i])
      modifies this`disk, this`dir, this`files, this`kept, fat, fat.bytes
      ensures Valid() && (k == -1 || k == |old(files)|) && (k != -1 || old(Flushed()) ==> Flushed())
      ensures k == -1 <==> |old(files)| >= FS_MAX || !memory || NoSpace(old(dir), |long| + 1, old(FreeNow()))
      ensures k == -1 ==> Same(old(V()), V(), old(Head()))
      ensures HasRun(old(dir), |long| + 1) ==> |dir| == |old(dir)|
      ensures k != -1 ==> Created(old(V()), V(), name, long, n83, old(FreeNow()), old(Head()))
      ensures old(NoOrphans(dir)) ==> NoOrphans(dir)
    {
      hide Forest, Ent, Ok, DiskOk, Live, Created, FreeSet, Chain, HoldsTable, TableFrom, Same, NoRoom, NoSpace, HasRun, IsLong, EndOk, NoOrphans;
      HeadKept(fat.bytes[..], fat.clusters, V(), cwd, Head());
      SameItself(V(), Head());
      if |files| >= FS_MAX || !memory {
        return -1;
      }
      ghost var v, free, head := V(), FreeNow(), Head();
      var cl := TakeCluster();
      NoSpaceFor(dir, |long| + 1, free, cl);
      if cl == 0 {
        return -1;
      }
      ghost var w := V();
      var off := DirSlots(|long| + 1);
      ghost var x := V();
      BeganStays(w, x, cl, head);
      if off < 0 {
        ghost var was := fat.bytes[..];
        ghost var now := Head();
        fat.Undo(cl);
        Flush();
        UndoneOk(v, w, x, V(), cl, was, fat.bytes[..], fat.clusters, cwd, now, head);
        return -1;
      }
      var ents := long + [Dirent(n83, 0x20, cl, 0)];
      dir := Placed(dir, off, ents);
      var f := File(name, page, 0, cl, off + |long|, false);
      files := files + [f];
      CreatedAll(v, w, x, V(), off, long, n83, f, fat.bytes[..], fat.clusters, cwd, Head(), free, head);
      CreatedNoOrphans(v, V(), name, long, n83, free, head);
      k := |files| - 1;
    }

    /**
     `fs_create`.  A name that fits 8.3 is kept in that form and known in lower case; any other goes into
     long-name slots with an unused alias.  A later scan lists the file under the name its entry has, and a lookup
     of the name given finds it exactly when it does not fit 8.3 or has no capitals.
     */
    method Create(name: seq<Byte>, memory: bool, page: seq<Byte>) returns (k: int)
      requires Valid() && |page| == FILE_MAX
      modifies this`disk, this`dir, this`files, this`kept, fat, fat.bytes
      ensures Valid() && (k == -1 || k == |old(files)|) && (k != -1 || old(Flushed()) ==> Flushed())
      ensures k == -1 ==> Same(old(V()), V(), old(Head()))
      ensures k == -1 <==>
                || |old(files)| >= FS_MAX || !memory || !Nameable(old(dir), name)
                || NoSpace(old(dir), NameSlots(name), old(FreeNow()))
      ensures HasRun(old(dir), NameSlots(name)) ==> |dir| == |old(dir)|
      ensures k != -1 ==> exists n83 :: CreatedAs(old(V()), V(), name, n83, old(FreeNow()), old(Head()))
      ensures k != -1 && (LongNames.Fits83(name) ==> NoOrphans(old(dir))) ==>
                files[k].off < |dir| && ListName(dir, files[k].off) == files[k].name && Spellings.Spelled(Raw(dir), files[k].off, files[k].name)
      ensures k != -1 ==> (files[k].name == name <==> !LongNames.Fits83(name) || LongNames.Lower(name) == name)
      ensures old(NoOrphans(dir)) ==> NoOrphans(dir)
    {
      hide Forest, Ent, Ok, DiskOk, FreeSet, Created, HoldsTable, TableFrom, Same, Nameable, NoSpace, ListName, LongSlots;
      hide LongNames.Fits83, LongNames.LongOk, LongNames.Short, LongNames.Lower, LongNames.Alias, NoOrphans, NameOk, DirFits, Spellings.Spelled;
      ghost var v, free, head := V(), FreeNow(), Head();
      HeadKept(fat.bytes[..], fat.clusters, v, cwd, head);
      SameItself(v, head);
      if |files| >= FS_MAX {
        return -1;
      }
      var fits, n83 := LongNames.To83(name);
      if !fits {
        var proper := LongNames.LfnOk(name);
        if !proper {
          NotNameable(dir, name);
          return -1;
        }
        OkEnd(v);
        var ok, alias := LongNames.MakeAlias(name, dir);
        AliasName(dir, name, ok, alias);
        if !ok {
          return -1;
        }
        n83 := alias;
      } else {
        ShortName(dir, name);
      }
      var long := LongSlots(name, n83, fits);
      SlotsOf(name, n83, fits);
      k := Enter(if fits then LongNames.FatName(n83) else name, long, n83, memory, page);
      if k != -1 {
        assert CreatedAs(v, V(), name, n83, free, head);
        CreatedKnown(v, V(), name, n83, free, head);
        if files[k].off < |dir| {
          ListNameSpelled(dir, files[k].off);
        }
      }
    }

    /** The entry of a listed slot; the page of a file has the bytes that could be loaded, then what it held. */
    method ScanSlot(i: nat, name: seq<Byte>, page: seq<Byte>) returns (f: File)
      requires Valid() && i < |dir| && Listed(dir[i]) && |page| == FILE_MAX && name == ListName(dir, i)
      ensures f.off == i && |f.data| == FILE_MAX && Scanned(V(), f)
    {
      hide Forest, Ent, Ok, DiskOk, DirFits, Chain, Contents, OnDisk, ListName, Spellings.Spelled;
      ListNameSpelled(dir, i);
      var e := dir[i];
      if IsSubdir(e) {
        return File(name, page, 0, e.cluster, i, true);
      }
      SlotIsCluster(fat.bytes[..], fat.clusters, V(), i);
      var rc, data := LoadFile(e.cluster, e.size);
      f := File(name, data + page[|data|..], e.size, e.cluster, i, false);
      assert f.data[..|data|] == data;
    }

    /**
     `scan_dir`: the entries are made anew from the slots, each under the name its slots spell.  With room and
     memory, every listed slot gets one, and every file whose chain is long enough is cached.
     */
    method Scan(page: nat -> seq<Byte>, memory: nat) returns (rc: int)
      requires Valid() && forall i: nat :: |page(i)| == FILE_MAX
      modifies this`files
      ensures Valid() && (rc == 0 || rc == -1)
      ensures rc == -1 ==> memory < |dir|
      ensures AllScanned(V()) && (rc == 0 ==> AllListed(V()))
    {
      hide Forest, Ent, Ok, DiskOk, Live, IsSubdir, Scanned, ListName, SlotBytes, LongNames.NameAt, LongNames.Track, LongNames.TrackStep, ScannedTo, Listed, InTable, AllScanned, AllListed, Raw, Free;
      NoFilesOk(V());
      files := [];
      ghost var v := V();
      ScannedNone(v);
      var raw, run := Raw(dir), (-1, 0);
      assert run == LongNames.Track(raw, 0) by { TrackNone(dir); }
      var i, used := 0, 0;
      while i < |dir| && |files| < FS_MAX
        invariant 0 <= used <= i <= |dir| && ValidRest() && ScannedTo(V(), i) && V() == v.(files := files)
        invariant i < |dir| && |files| < FS_MAX ==> run == LongNames.Track(raw, i)
      {
        if First(dir[i]) == 0 {
          ScannedEnd(V(), i);
          i := |dir|;
          break;
        }
        if Listed(dir[i]) {
          var name := LongNames.NameAt(raw, run, i);
          assert name == ListName(dir, i) by { NameIs(dir, i); }
          ScannedOk(V(), i);
          if !IsSubdir(dir[i]) {
            if used >= memory {
              ScannedAll(V(), i);
              rc := -1;
              return;
            }
            used := used + 1;
          }
          var f := ScanSlot(i, name, page(i));
          ScannedMore(V(), i, f);
          files := files + [f];
        } else {
          ScannedSkip(V(), i);
        }
        TrackNext(dir, i);
        run := LongNames.TrackStep(run, raw[i], i);
        i := i + 1;
      }
      ScannedAll(V(), i);
      rc := 0;
    }

    /** `find_file`: the first entry with this name, if any. */
    method Find(name: seq<Byte>) returns (k: int)
      ensures -1 <= k < |files|
      ensures k == -1 <==> name == [] || forall j | 0 <= j < |files| :: files[j].name != name
      ensures k != -1 ==> files[k].name == name && forall j | 0 <= j < k :: files[j].name != name
    {
      k := -1;
      if name == [] {
        return;
      }
      for i := 0 to |files|
        invariant forall j | 0 <= j < i :: files[j].name != name
      {
        if files[i].name == name {
          return i;
        }
      }
    }

    /**
     `fs_link` within the directory: a second name for the file at entry `k`, made from its slot.  The file's
     cluster has one name more, and no other cluster has a new one.  When the new name is written and the scan
     behind it runs out of memory, the call fails and the name stays.
     */
    method Link(k: nat, name: seq<Byte>, page: nat -> seq<Byte>, memory: nat) returns (rc: int)
      requires Valid() && k < |files| && forall i: nat :: |page(i)| == FILE_MAX
      modifies this`disk, this`dir, this`files, this`kept, fat, fat.bytes
      ensures Valid() && (rc == 0 || rc == -1) && (old(Flushed()) ==> Flushed()) && (old(NoOrphans(dir)) ==> NoOrphans(dir))
      ensures rc == 0 ==> Linked(old(V()), V(), k, LongNames.Short(name), old(Head())) && AllScanned(V()) && AllListed(V())
      ensures rc == 0 ==> Linkable(old(V()), k, name)
      ensures rc != 0 && !(Linkable(old(V()), k, name) && !NoRoom(old(dir), 1, old(FreeNow()))) ==> Same(old(V()), V(), old(Head()))
      ensures rc != 0 && Linkable(old(V()), k, name) && !NoRoom(old(dir), 1, old(FreeNow())) ==>
                Linked(old(V()), V(), k, LongNames.Short(name), old(Head())) && AllScanned(V()) && memory < |dir|
    {
      hide Forest, Ent, Ok, DiskOk, Scanned, Linked, HoldsTable, TableFrom, Same, RestKept, LongNames.Fits83, LongNames.Short, FreeSet, DirFits, AllScanned, AllListed, NoOrphans;
      ghost var v, head := V(), Head();
      FileFacts(v, k);
      HeadKept(fat.bytes[..], fat.clusters, v, cwd, head);
      SameItself(v, head);
      var at := Find(name);
      var fits, n83 := LongNames.To83(name);
      if files[k].isDir || at >= 0 || !fits || |files| >= FS_MAX {
        return -1;
      }
      ShortName(dir, name);
      var e := dir[files[k].off].(name := n83);
      var off := DirSlots(1);
      if off < 0 {
        return -1;
      }
      ghost var x := V();
      LinkAll(v, x, k, off, n83, head, cwd, Head());
      LinkedNoOrphans(v, x.(dir := Placed(dir, off, [e]), files := []), k, n83, head);
      dir := Placed(dir, off, [e]);
      files := [];
      ghost var y := V();
      rc := Scan(page, memory);
      LinkedScan(v, y, V(), k, n83, head);
    }
  }
}
