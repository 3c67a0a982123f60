/**
 The file table of `kernel/fs.c` for one directory, as a value.  `Ok` is what every call keeps: a name's
 first cluster always heads a chain that is allocated, however many names share it.
 */
module FileTables {
  import opened Bytes
  import opened Fat12
  import opened Directories
  import opened Sectors
  import opened Listings
  import LongNames = Names
  import Spellings

  const FILE_MAX: nat := 0x1000
  const FS_MAX: nat := 48

  /** An entry of `files[]`: a name, the page that caches its bytes, and where its slot is. */
  datatype File = File(name: seq<Byte>, data: seq<Byte>, len: nat, cluster: nat, off: nat, isDir: bool)

  /**
   The volume as this directory sees it: the chains, the sectors of the data area, the slots and the entries.
   `kept` are the chains that are no file of this directory.
   */
  datatype Vol = Vol(chains: map<nat, seq<nat>>, disk: seq<seq<Byte>>, dir: seq<Dirent>, files: seq<File>, kept: set<nat>)

  function ChainOf(chains: map<nat, seq<nat>>, cl: nat): seq<nat> {
    if cl in chains then chains[cl] else []
  }

  predicate IsSubdir(e: Dirent) {
    !Free(e) && First(e) != DOT && e.attr != ATTR_LONG && (e.attr as int / 8) % 2 == 0 && (e.attr as int / 16) % 2 == 1
  }

  // ----- what every call keeps -----

  /** A name's first cluster heads an allocated chain, unless the file has none. */
  ghost predicate HeadOk(v: Vol, i: nat)
    requires i < |v.dir|
  {
    && (Live(v.dir[i]) ==> v.dir[i].cluster == 0 || (v.dir[i].cluster in v.chains && v.dir[i].cluster !in v.kept))
    && (IsSubdir(v.dir[i]) ==> v.dir[i].cluster in v.kept)
  }

  /** A chain begun by a write that ran out of space: the entry knows it, the slot does not. */
  ghost predicate Orphan(v: Vol, k: nat)
    requires k < |v.files| && v.files[k].off < |v.dir|
  {
    var f := v.files[k];
    && v.dir[f.off].cluster == 0 && f.cluster in v.chains && f.cluster !in v.kept && f.cluster != 0
    && (forall i | 0 <= i < |v.dir| && Live(v.dir[i]) :: v.dir[i].cluster != f.cluster)
    && (forall j | 0 <= j < |v.files| && j != k :: v.files[j].cluster != f.cluster)
  }

  ghost predicate FileOk(v: Vol, k: nat)
    requires k < |v.files|
  {
    var f := v.files[k];
    && f.off < |v.dir| && |f.data| == FILE_MAX
    && if f.isDir then IsSubdir(v.dir[f.off]) && f.cluster in v.kept
       else Live(v.dir[f.off]) && (f.cluster == v.dir[f.off].cluster || Orphan(v, k))
  }

  ghost predicate Ok(v: Vol) {
    && EndOk(v.dir) && v.kept <= v.chains.Keys && 0 !in v.chains
    && (forall i {:trigger HeadOk(v, i)} | 0 <= i < |v.dir| :: HeadOk(v, i))
    && (forall k {:trigger FileOk(v, k)} | 0 <= k < |v.files| :: FileOk(v, k))
    && (forall j, k | 0 <= j < k < |v.files| :: v.files[j].off != v.files[k].off)
  }

  /** The cached length and bytes of a file are those on the disk. */
  ghost predicate Cached(v: Vol, f: File) {
    var p := ChainOf(v.chains, f.cluster);
    && f.off < |v.dir| && f.len == v.dir[f.off].size && f.len <= |f.data| && OnDisk(v.disk, p) && f.len <= 512 * |p|
    && f.data[..f.len] == Contents(v.disk, p, f.len)
  }

  /** Another file's bytes stay cached when its slot, its chain and its sectors stay as they are. */
  lemma CachedKept(v: Vol, v': Vol, f: File)
    requires Cached(v, f) && f.off < |v'.dir| && v'.dir[f.off] == v.dir[f.off]
    requires var p, p' := ChainOf(v.chains, f.cluster), ChainOf(v'.chains, f.cluster);
      && OnDisk(v'.disk, p')
      && (p' == p || f.len == 0)
      && forall i | 0 <= i < |p| :: Lba(p[i]) < |v'.disk| && v'.disk[Lba(p[i])] == v.disk[Lba(p[i])]
    ensures Cached(v', f)
  {
    var p, p' := ChainOf(v.chains, f.cluster), ChainOf(v'.chains, f.cluster);
    if f.len > 0 {
      forall i | 0 <= i < f.len ensures ByteAt(v'.disk, p', i) == ByteAt(v.disk, p, i) {
        assert i / 512 < |p|;
      }
    } else {
      assert f.data[..0] == Contents(v'.disk, p', 0);
    }
  }

  ghost function CachedBytes(f: File): seq<Byte> {
    if f.len <= |f.data| then f.data[..f.len] else f.data
  }

  lemma CachedLength(v: Vol, f: File)
    requires Cached(v, f)
    ensures |CachedBytes(f)| == f.len && f.off < |v.dir| && f.len == v.dir[f.off].size
  {
  }

  /** The slot's size is one a page holds, and the chain is long enough for it. */
  ghost predicate Readable(v: Vol, f: File) {
    f.off < |v.dir| && v.dir[f.off].size <= FILE_MAX && v.dir[f.off].size <= 512 * |ChainOf(v.chains, f.cluster)|
  }

  /** Every other file that was cached is cached still. */
  ghost predicate OthersKept(v: Vol, v': Vol, off: nat, cl: nat) {
    forall f: File | Cached(v, f) && f.off != off && (f.cluster != cl || f.len == 0) :: Cached(v', f)
  }

  /** The chain from `h` on has its clusters still, and every one of them its sector. */
  ghost predicate SameChain(v: Vol, v': Vol, h: nat) {
    && h in v.chains && h in v'.chains && v'.chains[h] == v.chains[h]
    && forall c <- v.chains[h] :: SectorOf(v'.disk, c) == SectorOf(v.disk, c)
  }

  /** Every chain of the volume but the one from `cl` on is as it was, whoever it belongs to. */
  ghost predicate RestKept(v: Vol, v': Vol, cl: nat) {
    |v'.disk| == |v.disk| && forall h {:trigger SameChain(v, v', h)} | h in v.chains && h != cl :: SameChain(v, v', h)
  }

  /** No slot but `off` changed, and that one only in its cluster and size. */
  ghost predicate SlotsKept(dir: seq<Dirent>, dir': seq<Dirent>, off: nat) {
    && |dir'| == |dir| && (forall i | 0 <= i < |dir| && i != off :: dir'[i] == dir[i])
    && (off < |dir| ==> dir'[off] == dir[off].(cluster := dir'[off].cluster, size := dir'[off].size))
  }

  lemma KeptNoOrphans(dir: seq<Dirent>, dir': seq<Dirent>, off: nat)
    requires SlotsKept(dir, dir', off) && NoOrphans(dir)
    ensures NoOrphans(dir')
  {
    forall i | 0 <= i < |dir'| && IsLong(dir'[i]) ensures i + 1 < |dir'| && !Free(dir'[i + 1]) {
      assert IsLong(dir[i]);
    }
  }

  /** Only chains changed, and only the one from `cl` on or one that is new. */
  lemma RestSame(v: Vol, v': Vol, cl: nat)
    requires v'.disk == v.disk && forall h | h in v.chains && h != cl :: h in v'.chains && v'.chains[h] == v.chains[h]
    ensures RestKept(v, v', cl)
  {
    forall h | h in v.chains && h != cl ensures SameChain(v, v', h) {
    }
  }

  lemma RestTwice(v: Vol, w: Vol, v': Vol, cl: nat, st: nat)
    requires RestKept(v, w, cl) && RestKept(w, v', st) && (st == cl || st !in v.chains)
    ensures RestKept(v, v', cl)
  {
    forall h | h in v.chains && h != cl ensures SameChain(v, v', h) {
      assert SameChain(v, w, h) && SameChain(w, v', h);
    }
  }

  lemma ChainsGrow(v: Vol, chains': map<nat, seq<nat>>)
    requires Ok(v) && v.chains.Keys <= chains'.Keys && 0 !in chains'
    ensures Ok(v.(chains := chains'))
  {
    var v' := v.(chains := chains');
    forall i | 0 <= i < |v.dir| ensures HeadOk(v', i) {
      assert HeadOk(v, i);
    }
    forall k | 0 <= k < |v.files| ensures FileOk(v', k) {
      assert FileOk(v, k);
    }
  }

  lemma DiskChanges(v: Vol, disk': seq<seq<Byte>>)
    requires Ok(v)
    ensures Ok(v.(disk := disk'))
  {
    var v' := v.(disk := disk');
    forall i | 0 <= i < |v.dir| ensures HeadOk(v', i) {
      assert HeadOk(v, i);
    }
    forall k | 0 <= k < |v.files| ensures FileOk(v', k) {
      assert FileOk(v, k);
    }
  }

  /** The slot and the entry of file `k` learn a new first cluster and size. */
  function SetFile(v: Vol, k: nat, st: nat, size: nat, f: File): Vol
    requires k < |v.files| && v.files[k].off < |v.dir|
  {
    var off := v.files[k].off;
    v.(dir := v.dir[off := v.dir[off].(cluster := st, size := size)], files := v.files[k := f])
  }

  lemma SetFileOk(v: Vol, k: nat, st: nat, size: nat, f: File)
    requires Ok(v) && k < |v.files| && !v.files[k].isDir && v.files[k].off < |v.dir|
    requires f.off == v.files[k].off && f.cluster == st && !f.isDir && |f.data| == FILE_MAX
    requires st == 0 || (st in v.chains && st !in v.kept)
    requires forall j | 0 <= j < |v.files| && j != k && v.files[j].off < |v.dir| && Orphan(v, j) :: v.files[j].cluster != st
    ensures Ok(SetFile(v, k, st, size, f))
  {
    var v' := SetFile(v, k, st, size, f);
    assert FileOk(v, k);
    forall i | 0 <= i < |v'.dir| ensures HeadOk(v', i) {
      assert HeadOk(v, i);
    }
    forall j | 0 <= j < |v'.files| ensures FileOk(v', j) {
      assert FileOk(v, j);
    }
    assert EndOk(v'.dir);
  }

  /** A file entry alone changes: the cache, or the first cluster of a chain nobody else knows. */
  lemma SetEntryOk(v: Vol, k: nat, f: File)
    requires Ok(v) && k < |v.files| && !v.files[k].isDir
    requires f.off == v.files[k].off && !f.isDir && |f.data| == FILE_MAX
    requires f.cluster == v.files[k].cluster ||
      (f.off < |v.dir| && v.dir[f.off].cluster == 0 && Orphan(v.(files := v.files[k := f]), k)
       && forall j | 0 <= j < |v.files| && j != k :: v.files[j].cluster != f.cluster)
    ensures Ok(v.(files := v.files[k := f]))
  {
    var v' := v.(files := v.files[k := f]);
    assert FileOk(v, k);
    forall i | 0 <= i < |v.dir| ensures HeadOk(v', i) {
      assert HeadOk(v, i);
    }
    forall j | 0 <= j < |v.files| ensures FileOk(v', j) {
      assert FileOk(v, j);
    }
  }

  /** A cluster that was free belongs to nobody. */
  lemma NewHeadIsNobodys(v: Vol, cl: nat)
    requires Ok(v) && cl !in v.chains && cl != 0
    ensures forall i | 0 <= i < |v.dir| && Live(v.dir[i]) :: v.dir[i].cluster != cl
    ensures forall j | 0 <= j < |v.files| :: v.files[j].cluster != cl
  {
    forall i | 0 <= i < |v.dir| && Live(v.dir[i]) ensures v.dir[i].cluster != cl {
      assert HeadOk(v, i);
    }
    forall j | 0 <= j < |v.files| ensures v.files[j].cluster != cl {
      assert FileOk(v, j);
      assert v.files[j].off < |v.dir|;
      assert HeadOk(v, v.files[j].off);
    }
  }

  /** The volume after `fat_resize` on the chain of file `k`, which now begins at `st`. */
  function Refit(v: Vol, k: nat, st: nat, chains': map<nat, seq<nat>>): Vol
    requires k < |v.files|
  {
    v.(chains := chains', files := v.files[k := v.files[k].(cluster := st)])
  }

  /** `st` is the chain of file `k`, or a new chain if it had none; no other chain changed. */
  ghost predicate RefitOk(v: Vol, k: nat, st: nat, chains': map<nat, seq<nat>>)
    requires k < |v.files|
  {
    var cl := v.files[k].cluster;
    && 0 !in chains' && (cl in v.chains ==> st == cl)
    && (if st in chains' then chains' == v.chains[st := chains'[st]] && (cl !in v.chains ==> st !in v.chains) else st == cl && chains' == v.chains)
  }

  lemma RefitKeepsOk(v: Vol, k: nat, st: nat, chains': map<nat, seq<nat>>)
    requires Ok(v) && k < |v.files| && !v.files[k].isDir && RefitOk(v, k, st, chains')
    ensures Ok(Refit(v, k, st, chains')) && (st == 0 || (st in chains' && st !in v.kept))
    ensures forall j | 0 <= j < |v.files| && j != k && v.files[j].off < |v.dir| && Orphan(Refit(v, k, st, chains'), j) ::
              v.files[j].cluster != st
  {
    FileFacts(v, k);
    var f := v.files[k];
    ChainsGrow(v, chains');
    var w := v.(chains := chains');
    if st != f.cluster {
      NewHeadIsNobodys(v, st);
      assert Orphan(w.(files := w.files[k := f.(cluster := st)]), k);
    }
    SetEntryOk(w, k, f.(cluster := st));
  }

  lemma RefitKeepsOthers(v: Vol, n: nat, fat': seq<Byte>, k: nat, st: nat, chains': map<nat, seq<nat>>)
    requires k < |v.files| && RefitOk(v, k, st, chains') && Forest(fat', n, chains') && DiskOk(v.disk, n)
    ensures OthersKept(v, Refit(v, k, st, chains'), v.files[k].off, v.files[k].cluster)
  {
    hide Contents, Chain;
    var v' := Refit(v, k, st, chains');
    forall f: File | Cached(v, f) && f.off != v.files[k].off && (f.cluster != v.files[k].cluster || f.len == 0)
      ensures Cached(v', f)
    {
      if f.cluster in chains' {
        ChainOnDisk(fat', n, chains'[f.cluster], v.disk);
      }
      assert ChainOf(chains', f.cluster) == ChainOf(v.chains, f.cluster) || f.len == 0;
      CachedKept(v, v', f);
    }
  }

  /** File `k` after `src` went to its chain `q` and its slot and entry were brought up to date. */
  ghost function Committed(v: Vol, k: nat, q: seq<nat>, src: seq<Byte>): Vol
    requires k < |v.files| && v.files[k].off < |v.dir| && OnDisk(v.disk, q) && Secs(|src|) <= |q| && |src| <= |v.files[k].data|
  {
    var f := v.files[k];
    SetFile(v.(disk := Stored(v.disk, q, src, Secs(|src|))), k, f.cluster, |src|,
            f.(data := src + f.data[|src|..], len := |src|))
  }

  lemma CommittedOk(v: Vol, k: nat, q: seq<nat>, src: seq<Byte>)
    requires Ok(v) && k < |v.files| && !v.files[k].isDir && v.files[k].off < |v.dir| && |v.files[k].data| == FILE_MAX
    requires OnDisk(v.disk, q) && Secs(|src|) <= |q| && |src| <= FILE_MAX
    ensures Ok(Committed(v, k, q, src))
  {
    hide Stored;
    var f := v.files[k];
    var w := v.(disk := Stored(v.disk, q, src, Secs(|src|)));
    DiskChanges(v, w.disk);
    FileFacts(v, k);
    forall j | 0 <= j < |w.files| && j != k && w.files[j].off < |w.dir| && Orphan(w, j) ensures w.files[j].cluster != f.cluster {
    }
    SetFileOk(w, k, f.cluster, |src|, f.(data := src + f.data[|src|..], len := |src|));
  }

  lemma CommittedCached(v: Vol, k: nat, q: seq<nat>, src: seq<Byte>)
    requires k < |v.files| && v.files[k].off < |v.dir| && |v.files[k].data| == FILE_MAX && q == ChainOf(v.chains, v.files[k].cluster)
    requires OnDisk(v.disk, q) && Distinct(q) && Secs(|src|) <= |q| && |src| <= FILE_MAX
    ensures Cached(Committed(v, k, q, src), Committed(v, k, q, src).files[k])
    ensures CachedBytes(Committed(v, k, q, src).files[k]) == src
  {
    StoredContents(v.disk, q, src);
  }

  lemma CommittedOthers(v: Vol, k: nat, q: seq<nat>, src: seq<Byte>, fat: seq<Byte>, n: nat)
    requires k < |v.files| && v.files[k].off < |v.dir| && |v.files[k].data| == FILE_MAX && q == ChainOf(v.chains, v.files[k].cluster)
    requires OnDisk(v.disk, q) && Distinct(q) && Secs(|src|) <= |q| && |src| <= FILE_MAX && Forest(fat, n, v.chains)
    ensures OthersKept(v, Committed(v, k, q, src), v.files[k].off, v.files[k].cluster)
  {
    hide Forest, Stored, Contents, Secs;
    var v' := Committed(v, k, q, src);
    var m := Secs(|src|);
    forall f: File | Cached(v, f) && f.off != v.files[k].off && (f.cluster != v.files[k].cluster || f.len == 0)
      ensures Cached(v', f)
    {
      var p := ChainOf(v.chains, f.cluster);
      if f.cluster != v.files[k].cluster {
        ApartChains(fat, n, v.chains, f.cluster, v.files[k].cluster);
        StoredApart(v.disk, q, src, m, p, f.len);
      } else {
        assert OnDisk(v'.disk, p);
        assert f.data[..0] == Contents(v'.disk, p, 0);
      }
    }
  }

  lemma CommittedRest(v: Vol, k: nat, q: seq<nat>, src: seq<Byte>, fat: seq<Byte>, n: nat)
    requires k < |v.files| && v.files[k].off < |v.dir| && |v.files[k].data| == FILE_MAX && q == ChainOf(v.chains, v.files[k].cluster)
    requires OnDisk(v.disk, q) && Distinct(q) && Secs(|src|) <= |q| && |src| <= FILE_MAX && Forest(fat, n, v.chains)
    ensures RestKept(v, Committed(v, k, q, src), v.files[k].cluster)
    ensures SlotsKept(v.dir, Committed(v, k, q, src).dir, v.files[k].off)
  {
    hide Forest, Stored, Secs, OnDisk, SectorOf;
    var v' := Committed(v, k, q, src);
    forall h | h in v.chains && h != v.files[k].cluster ensures SameChain(v, v', h) {
      ApartChains(fat, n, v.chains, h, v.files[k].cluster);
      forall c <- v.chains[h] ensures SectorOf(v'.disk, c) == SectorOf(v.disk, c) {
        StoredElsewhere(v.disk, q, src, Secs(|src|), c);
      }
    }
  }

  lemma CommittedAll(v: Vol, k: nat, q: seq<nat>, src: seq<Byte>, fat: seq<Byte>, n: nat, cwd: nat, head: nat)
    requires Ok(v) && k < |v.files| && !v.files[k].isDir && v.files[k].off < |v.dir| && |v.files[k].data| == FILE_MAX
    requires q == ChainOf(v.chains, v.files[k].cluster) && (v.files[k].cluster in v.chains || !Cluster(v.files[k].cluster))
    requires OnDisk(v.disk, q) && Secs(|src|) <= |q| && |src| <= FILE_MAX
    requires Forest(fat, n, v.chains) && DiskOk(v.disk, n) && DirFits(v, cwd, head)
    ensures var v' := Committed(v, k, q, src);
      && Ok(v') && DiskOk(v'.disk, n) && DirFits(v', cwd, head)
      && Cached(v', v'.files[k]) && CachedBytes(v'.files[k]) == src
      && OthersKept(v, v', v.files[k].off, v.files[k].cluster)
      && RestKept(v, v', v.files[k].cluster) && SlotsKept(v.dir, v'.dir, v.files[k].off)
  {
    hide Forest, Ok, OnDisk, DiskOk, Cached, OthersKept, Stored, Secs, CachedBytes, RestKept, SlotsKept;
    WalkReady(fat, n, v.chains, v.files[k].cluster, v.disk);
    StoredOk(v.disk, q, src, Secs(|src|), n);
    CommittedOk(v, k, q, src);
    CommittedCached(v, k, q, src);
    CommittedOthers(v, k, q, src, fat, n);
    CommittedRest(v, k, q, src, fat, n);
  }

  lemma ApartChains(fat: seq<Byte>, n: nat, chains: map<nat, seq<nat>>, h: nat, k: nat)
    requires Forest(fat, n, chains) && h != k
    ensures Apart(ChainOf(chains, h), ChainOf(chains, k))
  {
  }

  /** Two calls in a row, the first of which may have begun the chain. */
  lemma OthersKeptTwice(v: Vol, w: Vol, v': Vol, off: nat, cl: nat, st: nat)
    requires OthersKept(v, w, off, cl) && OthersKept(w, v', off, st)
    requires st == cl || st !in v.chains
    ensures OthersKept(v, v', off, cl)
  {
    hide Contents;
    forall f: File | Cached(v, f) && f.off != off && (f.cluster != cl || f.len == 0) ensures Cached(v', f) {
      assert Cached(w, f);
    }
  }

  /** A longer chain with the same beginning still holds the file. */
  lemma RefitCached(v: Vol, n: nat, fat': seq<Byte>, k: nat, st: nat, chains': map<nat, seq<nat>>, len: nat)
    requires k < |v.files| && Cached(v, v.files[k]) && Forest(fat', n, chains') && DiskOk(v.disk, n)
    requires var p, q := ChainOf(v.chains, v.files[k].cluster), ChainOf(chains', st);
      len <= v.files[k].len && len <= 512 * |q| && forall i | 0 <= i < |q| && i < |p| :: q[i] == p[i]
    ensures var q := ChainOf(chains', st); OnDisk(v.disk, q) && CachedBytes(v.files[k])[..len] == Contents(v.disk, q, len)
  {
    hide Contents, Forest, Chain;
    var q := ChainOf(chains', st);
    if st in chains' {
      StartIsCluster(fat', n, chains', st);
      ChainOnDisk(fat', n, q, v.disk);
    }
    SharedContents(v.disk, ChainOf(v.chains, v.files[k].cluster), q, len, v.files[k].len);
  }

  /** File `k` cut to nothing: its chain is free and its slot has no cluster. */
  function Emptied(v: Vol, k: nat): Vol
    requires k < |v.files| && v.files[k].off < |v.dir|
  {
    var f := v.files[k];
    SetFile(v.(chains := v.chains - {f.cluster}), k, 0, 0, f.(cluster := 0, len := 0))
  }

  /** Another name in this directory has the same first cluster. */
  ghost predicate Shared(v: Vol, k: nat)
    requires k < |v.files|
  {
    v.files[k].cluster != 0 && Names(v.dir, v.files[k].cluster) - {v.files[k].off} != {}
  }

  /** Cutting to nothing is safe exactly when no other name shares the chain: the source does not look. */
  lemma EmptiedOk(v: Vol, k: nat)
    requires Ok(v) && k < |v.files| && !v.files[k].isDir && v.files[k].off < |v.dir|
    ensures Ok(Emptied(v, k)) <==> !Shared(v, k)
  {
    var f := v.files[k];
    var v' := Emptied(v, k);
    FileFacts(v, k);
    if Shared(v, k) {
      var i :| i in Names(v.dir, f.cluster) - {f.off};
      assert HeadOk(v, i) && Live(v'.dir[i]) && v'.dir[i].cluster == f.cluster;
      assert !HeadOk(v', i);
    } else {
      EmptiedFiles(v, k);
      assert f.cluster != 0 ==> forall x :: x !in Names(v.dir, f.cluster) - {f.off};
      forall i | 0 <= i < |v'.dir| ensures HeadOk(v', i) {
        assert HeadOk(v, i);
        assert i in Names(v.dir, f.cluster) <==> Live(v.dir[i]) && v.dir[i].cluster == f.cluster;
        assert i in Names(v.dir, f.cluster) - {f.off} <==> i in Names(v.dir, f.cluster) && i != f.off;
      }
      assert EndOk(v'.dir);
    }
  }

  lemma EmptiedFiles(v: Vol, k: nat)
    requires Ok(v) && k < |v.files| && !v.files[k].isDir && v.files[k].off < |v.dir| && !Shared(v, k)
    ensures forall j | 0 <= j < |v.files| :: FileOk(Emptied(v, k), j)
    ensures Emptied(v, k).kept <= Emptied(v, k).chains.Keys
  {
    var f := v.files[k];
    var v' := Emptied(v, k);
    FileFacts(v, k);
    forall j | 0 <= j < |v.files| ensures FileOk(v', j) {
      FileFacts(v, j);
      var g := v.files[j];
      assert j != k ==> g.off != f.off;
      assert g.off in Names(v.dir, f.cluster) <==> Live(v.dir[g.off]) && v.dir[g.off].cluster == f.cluster;
      assert g.off in Names(v.dir, f.cluster) - {f.off} <==> g.off in Names(v.dir, f.cluster) && g.off != f.off;
    }
  }

  /** A chain that is freed takes nobody else's bytes with it. */
  lemma EmptiedOthers(v: Vol, n: nat, fat: seq<Byte>, k: nat)
    requires k < |v.files| && v.files[k].off < |v.dir| && Forest(fat, n, v.chains)
    ensures OthersKept(v, Emptied(v, k), v.files[k].off, v.files[k].cluster)
  {
    hide Contents, Forest;
    var v' := Emptied(v, k);
    forall f: File | Cached(v, f) && f.off != v.files[k].off && (f.cluster != v.files[k].cluster || f.len == 0)
      ensures Cached(v', f)
    {
      if f.cluster == v.files[k].cluster {
        assert f.data[..0] == Contents(v'.disk, [], 0);
      } else {
        CachedKept(v, v', f);
      }
    }
  }

  /** File `k` cut to `len` bytes on the chain it was refitted to. */
  function Shortened(v: Vol, k: nat, len: nat): Vol
    requires k < |v.files| && v.files[k].off < |v.dir|
  {
    SetFile(v, k, v.files[k].cluster, len, v.files[k].(len := len))
  }

  lemma ShortenedOk(v: Vol, k: nat, len: nat)
    requires Ok(v) && k < |v.files| && !v.files[k].isDir && v.files[k].off < |v.dir|
    ensures Ok(Shortened(v, k, len))
  {
    FileFacts(v, k);
    var f := v.files[k];
    forall j | 0 <= j < |v.files| && j != k && v.files[j].off < |v.dir| && Orphan(v, j) ensures v.files[j].cluster != f.cluster {
    }
    SetFileOk(v, k, f.cluster, len, f.(len := len));
  }

  lemma ShortenedOthers(v: Vol, k: nat, len: nat)
    requires k < |v.files| && v.files[k].off < |v.dir|
    ensures OthersKept(v, Shortened(v, k, len), v.files[k].off, v.files[k].cluster)
  {
    hide Contents;
  }

  function Zeros(n: nat): (r: seq<Byte>)
    ensures |r| == n && forall i | 0 <= i < n :: r[i] == 0
  {
    seq(n, _ => 0)
  }

  /** A file's bytes cut or padded to `len`. */
  function Resized0(b: seq<Byte>, len: nat): (r: seq<Byte>)
    ensures |r| == len && forall i | 0 <= i < len :: r[i] == if i < |b| then b[i] else 0
  {
    if len <= |b| then b[..len] else b + Zeros(len - |b|)
  }

  // ----- what the calls promise -----

  /** The clusters of file `k`. */
  ghost function Path(v: Vol, k: nat): seq<nat> {
    if k < |v.files| then ChainOf(v.chains, v.files[k].cluster) else []
  }

  /** With this many clusters free, file `k` can have `len` bytes. */
  ghost predicate Enough(v: Vol, k: nat, len: nat, free: nat) {
    |Path(v, k)| + free >= Secs(len)
  }

  /** Resizing the chain of file `k` to `need` clusters: it shares its beginning with the old one. */
  ghost predicate Refitted(v: Vol, v': Vol, k: nat, need: nat, free: nat, rc: int) {
    && k < |v.files| == |v'.files| && RefitOk(v, k, v'.files[k].cluster, v'.chains)
    && v' == Refit(v, k, v'.files[k].cluster, v'.chains)
    && (forall i | 0 <= i < |Path(v', k)| && i < |Path(v, k)| :: Path(v', k)[i] == Path(v, k)[i])
    && (rc == 0 || rc == -1) && (rc == 0 <==> |Path(v, k)| + free >= need)
    && (rc == 0 ==> |Path(v', k)| == need) && (rc != 0 ==> |Path(v', k)| >= |Path(v, k)|)
  }

  /** Only file `k` changed: no other slot, entry or cached file, and no other chain of the volume. */
  ghost predicate OnlyFile(v: Vol, v': Vol, k: nat) {
    && k < |v.files| == |v'.files| && v'.files == v.files[k := v'.files[k]] && v'.kept == v.kept
    && v'.files[k].off == v.files[k].off && v'.files[k].isDir == v.files[k].isDir && v'.files[k].name == v.files[k].name
    && OthersKept(v, v', v.files[k].off, v.files[k].cluster)
    && RestKept(v, v', v.files[k].cluster) && SlotsKept(v.dir, v'.dir, v.files[k].off)
  }

  /** The slot of file `k` names its chain and its length. */
  ghost predicate SlotKnows(v: Vol, k: nat) {
    && k < |v.files| && v.files[k].off < |v.dir|
    && v.dir[v.files[k].off].cluster == v.files[k].cluster && v.dir[v.files[k].off].size == v.files[k].len
  }

  /** File `k` now holds exactly `src`, on the disk and in its page, and no other file changed. */
  ghost predicate Holds(v: Vol, v': Vol, k: nat, src: seq<Byte>) {
    OnlyFile(v, v', k) && SlotKnows(v', k) && Cached(v', v'.files[k]) && CachedBytes(v'.files[k]) == src
  }

  /** If the bytes of file `k` were cached, they are the same and cached still. */
  ghost predicate HoldsStill(v: Vol, v': Vol, k: nat) {
    && OnlyFile(v, v', k)
    && (Cached(v, v.files[k]) ==> Cached(v', v'.files[k]) && CachedBytes(v'.files[k]) == CachedBytes(v.files[k]))
  }

  /** File `k` is `len` bytes long; if its bytes were cached, it now holds them cut or padded with zeros. */
  ghost predicate HoldsResized(v: Vol, v': Vol, k: nat, len: nat) {
    && OnlyFile(v, v', k) && v'.files[k].len == len && (len != v.files[k].len ==> SlotKnows(v', k))
    && (Cached(v, v.files[k]) ==>
          Cached(v', v'.files[k]) && CachedBytes(v'.files[k]) == Resized0(CachedBytes(v.files[k]), len))
  }

  /** The directory fills its clusters; the root has one sector of its own before them. */
  ghost predicate DirFits(v: Vol, cwd: nat, head: nat) {
    && (head in v.kept || (cwd < 2 && !Cluster(head)))
    && |v.dir| == 16 * (|ChainOf(v.chains, head)| + if cwd < 2 then 1 else 0)
  }

  lemma SecsSmall(len: nat)
    requires 0 < len <= FILE_MAX
    ensures 0 < Secs(len) <= CHAIN_MAX && Secs(len) == (len + SEC - 1) / 512
  {
  }

  lemma RefitHead(v: Vol, k: nat, st: nat, chains': map<nat, seq<nat>>)
    requires k < |v.files| && RefitOk(v, k, st, chains')
    ensures st == v.files[k].cluster || st !in v.chains
  {
  }

  lemma RefitRest(v: Vol, k: nat, st: nat, chains': map<nat, seq<nat>>)
    requires k < |v.files| && RefitOk(v, k, st, chains')
    ensures RestKept(v, Refit(v, k, st, chains'), v.files[k].cluster)
  {
    RefitHead(v, k, st, chains');
    RestSame(v, Refit(v, k, st, chains'), v.files[k].cluster);
  }

  lemma EmptiedDir(fat: seq<Byte>, fat': seq<Byte>, n: nat, v: Vol, k: nat, cwd: nat, head: nat)
    requires Forest(fat, n, v.chains) && Ok(v) && k < |v.files| && !v.files[k].isDir && v.files[k].off < |v.dir| && DirFits(v, cwd, head)
    requires forall c: nat :: Ent(fat', c) == if v.files[k].cluster in v.chains && c in v.chains[v.files[k].cluster] then 0 else Ent(fat, c)
    ensures Ent(fat', 1) == Ent(fat, 1) && DirFits(Emptied(v, k), cwd, head)
  {
    hide Ent;
    FileFacts(v, k);
    OneIsNoCluster(fat, n, v.chains, v.files[k].cluster);
    StartIsCluster(fat, n, v.chains, head);
  }

  lemma EmptiedAll(fat: seq<Byte>, fat': seq<Byte>, n: nat, v: Vol, k: nat, cwd: nat, head: nat)
    requires Forest(fat, n, v.chains) && Ok(v) && k < |v.files| && !v.files[k].isDir && v.files[k].off < |v.dir| && DirFits(v, cwd, head)
    requires forall c: nat :: Ent(fat', c) == if v.files[k].cluster in v.chains && c in v.chains[v.files[k].cluster] then 0 else Ent(fat, c)
    requires Forest(fat', n, v.chains - {v.files[k].cluster})
    ensures Ent(fat', 1) == Ent(fat, 1) && DirFits(Emptied(v, k), cwd, head)
    ensures Holds(v, Emptied(v, k), k, []) && (Ok(Emptied(v, k)) <==> !Shared(v, k))
  {
    hide Ok, Forest, Ent, OthersKept, Shared, DirFits, RestKept, Contents;
    EmptiedDir(fat, fat', n, v, k, cwd, head);
    EmptiedOk(v, k);
    EmptiedOthers(v, n, fat, k);
    RestSame(v, Emptied(v, k), v.files[k].cluster);
    StartIsCluster(fat', n, v.chains - {v.files[k].cluster}, 0);
    var v' := Emptied(v, k);
    assert v'.files == v.files[k := v'.files[k]];
    assert CachedBytes(v'.files[k]) == [] && Contents(v'.disk, [], 0) == [];
  }

  lemma StillSame(v: Vol, k: nat)
    requires k < |v.files|
    ensures HoldsStill(v, v, k)
  {
    hide Cached;
    assert v.files == v.files[k := v.files[k]];
    RestSame(v, v, v.files[k].cluster);
  }

  lemma SameLength(v: Vol, k: nat)
    requires k < |v.files|
    ensures HoldsResized(v, v, k, v.files[k].len)
  {
    StillSame(v, k);
    hide OthersKept, Contents;
  }

  lemma EmptyResized(v: Vol, v': Vol, k: nat)
    requires Holds(v, v', k, [])
    ensures HoldsResized(v, v', k, 0)
  {
    hide OthersKept, Contents;
  }

  lemma HoldsToResized(v: Vol, v': Vol, k: nat, len: nat, src: seq<Byte>)
    requires Holds(v, v', k, src) && v.files[k].len < len && v.files[k].len <= |v.files[k].data|
    requires src == v.files[k].data[..v.files[k].len] + Zeros(len - v.files[k].len)
    ensures HoldsResized(v, v', k, len)
  {
    hide OthersKept, Cached;
    CachedLength(v', v'.files[k]);
    GrownBytes(v, k, len, src);
  }

  /** What a longer file is written from is its old bytes and zeros. */
  lemma GrownBytes(v: Vol, k: nat, len: nat, src: seq<Byte>)
    requires k < |v.files| && v.files[k].len < len && v.files[k].len <= |v.files[k].data|
    requires src == v.files[k].data[..v.files[k].len] + Zeros(len - v.files[k].len)
    ensures src == Resized0(CachedBytes(v.files[k]), len)
  {
  }

  /** A shorter file keeps its beginning, on the part of its chain that is left. */
  lemma CutCached(v: Vol, n: nat, fat': seq<Byte>, k: nat, st: nat, chains': map<nat, seq<nat>>, len: nat)
    requires k < |v.files| && v.files[k].off < |v.dir| && Forest(fat', n, chains') && DiskOk(v.disk, n) && len <= v.files[k].len
    requires var p, q := ChainOf(v.chains, v.files[k].cluster), ChainOf(chains', st);
      Secs(len) <= |q| && forall i | 0 <= i < |q| && i < |p| :: q[i] == p[i]
    ensures var v' := Shortened(Refit(v, k, st, chains'), k, len);
      Cached(v, v.files[k]) ==>
        Cached(v', v'.files[k]) && CachedBytes(v'.files[k]) == Resized0(CachedBytes(v.files[k]), len)
  {
    hide Contents, Forest, DiskOk;
    if Cached(v, v.files[k]) {
      assert len <= 512 * |ChainOf(chains', st)|;
      RefitCached(v, n, fat', k, st, chains', len);
    }
  }

  lemma ResizeOutcome(was: Table, now: Table, n: nat, p: seq<nat>, start: nat, st: nat, need: nat, rc: int)
    requires rc == 0 ==> st in now.chains && Fitted(was, now, n, p, now.chains[st], need)
    requires rc != 0 ==> Exhausted(was, now, n, p, st, need) && (st !in now.chains ==> st == start)
    ensures || (st in now.chains && Resized(was, now, n, p, now.chains[st]))
            || (st !in now.chains && now == was && st == start)
    ensures rc == 0 ==> |ChainOf(now.chains, st)| == need
    ensures rc != 0 ==> |ChainOf(now.chains, st)| >= |p| || now == was
  {
    hide Resized, FreeSet, Elems;
  }

  /** Everything a resize keeps, in one place. */
  lemma RefitAll(was: Table, now: Table, n: nat, v: Vol, k: nat, st: nat, cwd: nat, head: nat, need: nat, rc: int)
    requires Forest(was.fat, n, was.chains) && Forest(now.fat, n, now.chains) && v.chains == was.chains && k < |v.files|
    requires Ok(v) && !v.files[k].isDir && DirFits(v, cwd, head)
    requires v.files[k].cluster in was.chains || !Cluster(v.files[k].cluster)
    requires v.files[k].cluster in was.chains ==> st == v.files[k].cluster
    requires rc == 0 || rc == -1
    requires var p := if v.files[k].cluster in was.chains then was.chains[v.files[k].cluster] else [];
      && (rc == 0 <==> |p| + |FreeSet(was.fat, n)| >= need)
      && (rc == 0 ==> st in now.chains && Fitted(was, now, n, p, now.chains[st], need))
      && (rc != 0 ==> Exhausted(was, now, n, p, st, need) && (st !in now.chains ==> st == v.files[k].cluster))
    ensures var w := Refit(v, k, st, now.chains);
      Refitted(v, w, k, need, |FreeSet(was.fat, n)|, rc) && Ok(w) && DirFits(w, cwd, head)
    ensures Ent(now.fat, 1) == Ent(was.fat, 1)
  {
    hide Forest, Ok, Ent, Resized, RefitOk, Fitted, Exhausted, FreeSet;
    var p := ChainOf(was.chains, v.files[k].cluster);
    ResizeOutcome(was, now, n, p, v.files[k].cluster, st, need, rc);
    RefitFromResize(was, now, n, v, k, st);
    RefitKeepsOk(v, k, st, now.chains);
    DirSame(was.fat, now.fat, n, v, k, st, now.chains, p);
  }

  /** Refitting and then filling a file: no other file changed on the way. */
  lemma RefitHolds(v: Vol, w: Vol, v': Vol, n: nat, fat': seq<Byte>, k: nat, need: nat, free: nat, rc: int, src: seq<Byte>)
    requires Refitted(v, w, k, need, free, rc) && Forest(fat', n, w.chains) && DiskOk(w.disk, n)
    requires Holds(w, v', k, src)
    ensures Holds(v, v', k, src)
  {
    hide Cached, RefitOk, Forest, DiskOk, OthersKept, RestKept;
    RefitRest(v, k, w.files[k].cluster, w.chains);
    RefitKeepsOthers(v, n, fat', k, w.files[k].cluster, w.chains);
    RefitHead(v, k, w.files[k].cluster, w.chains);
    OthersKeptTwice(v, w, v', v.files[k].off, v.files[k].cluster, w.files[k].cluster);
    RestTwice(v, w, v', v.files[k].cluster, w.files[k].cluster);
  }

  /** A resize that failed left every file's bytes. */
  lemma RefitStill(v: Vol, w: Vol, n: nat, fat': seq<Byte>, k: nat, need: nat, free: nat, rc: int)
    requires Refitted(v, w, k, need, free, rc) && rc != 0 && Forest(fat', n, w.chains) && DiskOk(w.disk, n)
    ensures HoldsStill(v, w, k)
  {
    hide Cached, RefitOk, Forest, DiskOk, OthersKept, RestKept;
    RefitRest(v, k, w.files[k].cluster, w.chains);
    RefitKeepsOthers(v, n, fat', k, w.files[k].cluster, w.chains);
    ResizeFailed(v, n, fat', k, w.files[k].cluster, w.chains);
  }

  /** Refitting and then cutting a file. */
  lemma RefitCut(v: Vol, w: Vol, n: nat, fat': seq<Byte>, k: nat, free: nat, len: nat, cwd: nat, head: nat)
    requires Refitted(v, w, k, Secs(len), free, 0) && Forest(fat', n, w.chains) && DiskOk(w.disk, n)
    requires Ok(v) && Ok(w) && !v.files[k].isDir && len <= v.files[k].len && DirFits(w, cwd, head)
    ensures w.files[k].off < |w.dir|
    ensures var v' := Shortened(w, k, len); HoldsResized(v, v', k, len) && Ok(v') && DirFits(v', cwd, head)
  {
    hide Cached, RefitOk, Forest, DiskOk, OthersKept, Ok, Secs, RestKept;
    RefitRest(v, k, w.files[k].cluster, w.chains);
    FileFacts(v, k);
    FileFacts(w, k);
    RefitKeepsOthers(v, n, fat', k, w.files[k].cluster, w.chains);
    RefitHead(v, k, w.files[k].cluster, w.chains);
    ShortenedOk(w, k, len);
    ShortenedOthers(w, k, len);
    CutCached(v, n, fat', k, w.files[k].cluster, w.chains, len);
    OthersKeptTwice(v, w, Shortened(w, k, len), v.files[k].off, v.files[k].cluster, w.files[k].cluster);
    RestSame(w, Shortened(w, k, len), w.files[k].cluster);
    RestTwice(v, w, Shortened(w, k, len), v.files[k].cluster, w.files[k].cluster);
  }

  /** A write that ran out of space left the file's bytes as they were. */
  lemma ResizeFailed(v: Vol, n: nat, fat': seq<Byte>, k: nat, st: nat, chains': map<nat, seq<nat>>)
    requires k < |v.files| && Forest(fat', n, chains') && DiskOk(v.disk, n)
    requires var p, q := ChainOf(v.chains, v.files[k].cluster), ChainOf(chains', st);
      |p| <= |q| && forall i | 0 <= i < |q| && i < |p| :: q[i] == p[i]
    ensures Cached(v, v.files[k]) ==> Cached(Refit(v, k, st, chains'), Refit(v, k, st, chains').files[k])
  {
    hide Contents, Forest, DiskOk;
    if Cached(v, v.files[k]) {
      RefitCached(v, n, fat', k, st, chains', v.files[k].len);
    }
  }

  lemma RefitFromResize(was: Table, now: Table, n: nat, v: Vol, k: nat, st: nat)
    requires Forest(was.fat, n, was.chains) && Forest(now.fat, n, now.chains) && v.chains == was.chains && k < |v.files|
    requires v.files[k].cluster in was.chains || !Cluster(v.files[k].cluster)
    requires v.files[k].cluster in was.chains ==> st == v.files[k].cluster
    requires var p := ChainOf(was.chains, v.files[k].cluster);
      || (st in now.chains && Resized(was, now, n, p, now.chains[st]))
      || (st !in now.chains && now == was && st == v.files[k].cluster)
    ensures RefitOk(v, k, st, now.chains)
    ensures var p, q := ChainOf(was.chains, v.files[k].cluster), ChainOf(now.chains, st);
      && (forall i | 0 <= i < |q| && i < |p| :: q[i] == p[i])
      && (forall x: nat | x !in p && x !in q :: Ent(now.fat, x) == Ent(was.fat, x))
  {
    hide Ent;
    StartIsCluster(now.fat, n, now.chains, 0);
    StartIsCluster(now.fat, n, now.chains, st);
    if v.files[k].cluster !in was.chains && st in now.chains {
      FreeIsNoHead(was.fat, n, was.chains, st);
    }
  }

  /** No resize of a file touches entry 1 or the chain of the directory. */
  lemma DirSame(fat: seq<Byte>, fat': seq<Byte>, n: nat, v: Vol, k: nat, st: nat, chains': map<nat, seq<nat>>, p: seq<nat>)
    requires Forest(fat, n, v.chains) && Forest(fat', n, chains') && Ok(v) && k < |v.files| && !v.files[k].isDir && RefitOk(v, k, st, chains')
    requires p == ChainOf(v.chains, v.files[k].cluster)
    requires forall x: nat | x !in p && x !in ChainOf(chains', st) :: Ent(fat', x) == Ent(fat, x)
    ensures Ent(fat', 1) == Ent(fat, 1)
    ensures forall h | h in v.kept || !Cluster(h) :: ChainOf(chains', h) == ChainOf(v.chains, h)
  {
    RefitKeepsOk(v, k, st, chains');
    OneIsNoCluster(fat, n, v.chains, v.files[k].cluster);
    OneIsNoCluster(fat', n, chains', st);
    forall h | h in v.kept || !Cluster(h) ensures ChainOf(chains', h) == ChainOf(v.chains, h) {
      StartIsCluster(fat, n, v.chains, h);
      StartIsCluster(fat', n, chains', h);
      assert Ok(v) && (h in v.kept ==> h in v.chains);
    }
  }

  lemma OneIsNoCluster(fat: seq<Byte>, n: nat, chains: map<nat, seq<nat>>, h: nat)
    requires Forest(fat, n, chains)
    ensures 1 !in ChainOf(chains, h)
  {
    if h in chains {
      forall i | 0 <= i < |chains[h]| ensures chains[h][i] != 1 {
        assert Good(fat, n, chains[h][i]);
      }
    }
  }

  lemma FreeIsNoHead(fat: seq<Byte>, n: nat, chains: map<nat, seq<nat>>, c: nat)
    requires Forest(fat, n, chains) && c in FreeSet(fat, n)
    ensures c !in chains
  {
    forall h | h in chains ensures h != c {
      FreeIsOutside(fat, n, chains[h], c);
      assert chains[h][0] == h;
    }
  }

  /** A walk along `p` has come to place `k`. */
  ghost predicate At(p: seq<nat>, k: nat, cl: nat) {
    if k < |p| then cl == p[k] && Cluster(cl) && k < CHAIN_MAX else !Cluster(cl) || k >= CHAIN_MAX
  }

  lemma NextAt(fat: seq<Byte>, n: nat, p: seq<nat>, k: nat)
    requires Chain(fat, n, p) && k < |p| && n <= 4084
    ensures At(p, k + 1, Ent(fat, p[k]))
  {
    hide Ent;
    ChainAt(fat, n, p, k);
  }

  lemma WalkReady(fat: seq<Byte>, n: nat, chains: map<nat, seq<nat>>, start: nat, disk: seq<seq<Byte>>)
    requires Forest(fat, n, chains) && DiskOk(disk, n) && (start in chains || !Cluster(start))
    ensures n <= 4084 && OnDisk(disk, ChainOf(chains, start)) && At(ChainOf(chains, start), 0, start)
    ensures Distinct(ChainOf(chains, start)) && (ChainOf(chains, start) != [] ==> Chain(fat, n, ChainOf(chains, start)))
  {
    StartIsCluster(fat, n, chains, start);
    if start in chains {
      ChainOnDisk(fat, n, chains[start], disk);
    }
  }

  lemma SectorSize(disk: seq<seq<Byte>>, p: seq<nat>, k: nat)
    requires OnDisk(disk, p) && k < |p|
    ensures 0 <= Lba(p[k]) < |disk| && |disk[Lba(p[k])]| == SEC
  {
  }

  lemma FileFacts(v: Vol, k: nat)
    requires Ok(v) && k < |v.files|
    ensures v.files[k].off < |v.dir| && |v.files[k].data| == FILE_MAX && FileOk(v, k) && HeadOk(v, v.files[k].off)
  {
    assert FileOk(v, k);
    assert HeadOk(v, v.files[k].off);
  }

  /** The cluster an entry knows heads a chain, or the file has none. */
  lemma HeadIsCluster(fat: seq<Byte>, n: nat, v: Vol, k: nat)
    requires Forest(fat, n, v.chains) && Ok(v) && k < |v.files|
    ensures v.files[k].cluster in v.chains || !Cluster(v.files[k].cluster)
    ensures !v.files[k].isDir ==> v.files[k].cluster == 0 || (v.files[k].cluster in v.chains && v.files[k].cluster !in v.kept)
  {
    FileFacts(v, k);
  }

  lemma SecsPast(len: nat, k: nat)
    requires 512 * k < len
    ensures k < Secs(len) && (len <= 512 * k + SEC ==> Secs(len) == k + 1)
  {
  }

  lemma StoredNone(disk: seq<seq<Byte>>, p: seq<nat>, src: seq<Byte>)
    requires OnDisk(disk, p)
    ensures Stored(disk, p, src, 0) == disk && (src == [] ==> Secs(|src|) == 0)
  {
  }

  /** The sector buffer: zeroed, then `n` bytes of the source. */
  function Padded(src: seq<Byte>, off: nat, n: nat): (sec: seq<Byte>)
    requires off + n <= |src| && n <= SEC
  {
    src[off..off + n] + seq(SEC - n, _ => 0)
  }

  lemma PaddedIs(src: seq<Byte>, off: nat, n: nat, k: nat)
    requires off == 512 * k < |src| && n == if |src| - off > SEC then SEC else |src| - off
    ensures Padded(src, off, n) == Sector(src, k)
  {
  }

  lemma StoredMore(disk: seq<seq<Byte>>, p: seq<nat>, src: seq<Byte>, k: nat)
    requires OnDisk(disk, p) && k < |p|
    ensures 0 <= Lba(p[k]) < |disk|
    ensures Stored(disk, p, src, k + 1) == Stored(disk, p, src, k)[Lba(p[k]) := Sector(src, k)]
  {
  }

  // ----- long names keep their files -----

  lemma HeldNoOrphans(v: Vol, v': Vol, k: nat, src: seq<Byte>)
    requires Holds(v, v', k, src)
    ensures NoOrphans(v.dir) ==> NoOrphans(v'.dir)
  {
    hide OthersKept, RestKept, Cached, NoOrphans, SlotsKept;
    if NoOrphans(v.dir) {
      KeptNoOrphans(v.dir, v'.dir, v.files[k].off);
    }
  }

  lemma StillNoOrphans(v: Vol, v': Vol, k: nat)
    requires HoldsStill(v, v', k)
    ensures NoOrphans(v.dir) ==> NoOrphans(v'.dir)
  {
    hide OthersKept, RestKept, Cached, NoOrphans, SlotsKept;
    if NoOrphans(v.dir) {
      KeptNoOrphans(v.dir, v'.dir, v.files[k].off);
    }
  }

  lemma ResizedNoOrphans(v: Vol, v': Vol, k: nat, len: nat)
    requires HoldsResized(v, v', k, len)
    ensures NoOrphans(v.dir) ==> NoOrphans(v'.dir)
  {
    hide OthersKept, RestKept, Cached, NoOrphans, SlotsKept;
    if NoOrphans(v.dir) {
      KeptNoOrphans(v.dir, v'.dir, v.files[k].off);
    }
  }

  // ----- removing a name -----

  /** The entries without entry `k`, whose place the last one takes. */
  function Without(files: seq<File>, k: nat): seq<File>
    requires k < |files|
  {
    files[k := files[|files| - 1]][..|files| - 1]
  }

  /** `fs_remove`: the chain goes with its last name; the slot and its long name are erased. */
  ghost function Removed(v: Vol, k: nat): Vol
    requires k < |v.files| && v.files[k].off < |v.dir|
  {
    var f := v.files[k];
    v.(chains := if Shared(v, k) then v.chains else v.chains - {f.cluster},
       dir := WipeLong(v.dir[f.off := Erased(v.dir[f.off])], f.off),
       files := Without(v.files, k))
  }

  lemma RemovedOk(v: Vol, k: nat)
    requires Ok(v) && k < |v.files| && !v.files[k].isDir && v.files[k].off < |v.dir|
    ensures Ok(Removed(v, k))
  {
    hide Names, Live, WipeLong, EndOk, IsSubdir;
    var f := v.files[k];
    var v' := Removed(v, k);
    FileFacts(v, k);
    WipeNames(v.dir, f.off, f.cluster);
    forall i | 0 <= i < |v'.dir| ensures HeadOk(v', i) {
      RemovedHead(v, k, i);
    }
    forall j | 0 <= j < |v'.files| ensures FileOk(v', j) {
      RemovedFile(v, k, j);
    }
  }

  lemma RemovedHead(v: Vol, k: nat, i: nat)
    requires Ok(v) && k < |v.files| && !v.files[k].isDir && v.files[k].off < |v.dir| && i < |v.dir|
    ensures |Removed(v, k).dir| == |v.dir| && HeadOk(Removed(v, k), i)
  {
    hide WipeLong, EndOk, FileOk;
    var f := v.files[k];
    var v' := Removed(v, k);
    FileFacts(v, k);
    assert FileOk(v, k) && Live(v.dir[f.off]) by { assert FileOk(v, k); LiveFile(v, k); }
    WipeNames(v.dir, f.off, f.cluster);
    assert HeadOk(v, i);
    if Live(v'.dir[i]) && f.cluster != 0 && !Shared(v, k) {
      assert v'.dir[i] == v.dir[i] && i != f.off;
      assert v.dir[i].cluster == f.cluster ==> i in Names(v.dir, f.cluster) - {f.off};
    }
  }

  lemma LiveFile(v: Vol, k: nat)
    requires k < |v.files| && FileOk(v, k) && !v.files[k].isDir
    ensures v.files[k].off < |v.dir| && Live(v.dir[v.files[k].off])
  {
  }

  lemma RemovedFile(v: Vol, k: nat, j: nat)
    requires Ok(v) && k < |v.files| && !v.files[k].isDir && v.files[k].off < |v.dir| && j < |v.files| - 1
    ensures FileOk(Removed(v, k), j)
  {
    hide WipeLong, EndOk;
    var f := v.files[k];
    var v' := Removed(v, k);
    var m := if j == k then |v.files| - 1 else j;
    assert v'.files[j] == v.files[m];
    FileFacts(v, k);
    FileFacts(v, m);
    WipeNames(v.dir, f.off, f.cluster);
    var g := v.files[m];
    assert g.off != f.off;
    assert v'.dir[g.off] == v.dir[g.off];
    if !g.isDir {
      assert g.cluster == f.cluster && f.cluster != 0 && !Orphan(v, m) ==> g.off in Names(v.dir, f.cluster) - {f.off};
      if Orphan(v, m) {
        assert g.cluster != f.cluster;
        RemovedOrphan(v, k, j, m);
      }
    }
  }

  lemma RemovedOrphan(v: Vol, k: nat, j: nat, m: nat)
    requires Ok(v) && k < |v.files| && !v.files[k].isDir && v.files[k].off < |v.dir| && j < |v.files| - 1
    requires m == (if j == k then |v.files| - 1 else j) && v.files[m].off < |v.dir| && Orphan(v, m) && Live(v.dir[v.files[m].off])
    requires v.files[m].off != v.files[k].off
    ensures v.files[m].off < |Removed(v, k).dir| && Orphan(Removed(v, k), j)
  {
    hide WipeLong, EndOk, Ok;
    var f := v.files[k];
    var v' := Removed(v, k);
    FileFacts(v, k);
    assert EndOk(v.dir) by { OkEnd(v); }
    WipeNames(v.dir, f.off, f.cluster);
    assert v'.dir[v.files[m].off] == v.dir[v.files[m].off];
    forall i | 0 <= i < |v'.dir| && Live(v'.dir[i]) ensures v'.dir[i].cluster != v.files[m].cluster {
      assert v'.dir[i] == v.dir[i];
    }
    forall x | 0 <= x < |v'.files| && x != j ensures v'.files[x].cluster != v'.files[j].cluster {
      var y := if x == k then |v.files| - 1 else x;
      assert v'.files[x] == v.files[y] && y != m;
    }
  }

  lemma OkEnd(v: Vol)
    requires Ok(v)
    ensures EndOk(v.dir)
  {
  }

  lemma RemovedOthers(v: Vol, n: nat, fat: seq<Byte>, k: nat)
    requires Ok(v) && k < |v.files| && !v.files[k].isDir && v.files[k].off < |v.dir| && Forest(fat, n, v.chains)
    ensures forall f: File | Cached(v, f) && f.off < |v.dir| && f.off != v.files[k].off && !IsLong(v.dir[f.off]) &&
              (f.cluster != v.files[k].cluster || Shared(v, k) || f.len == 0) :: Cached(Removed(v, k), f)
  {
    hide Contents, WipeLong, EndOk, Names, Forest, Ok;
    var v' := Removed(v, k);
    FileFacts(v, k);
    LiveFile(v, k);
    assert EndOk(v.dir) by { OkEnd(v); }
    WipeNames(v.dir, v.files[k].off, v.files[k].cluster);
    forall f: File | Cached(v, f) && f.off != v.files[k].off && !IsLong(v.dir[f.off]) &&
      (f.cluster != v.files[k].cluster || Shared(v, k) || f.len == 0) ensures Cached(v', f)
    {
      if f.len == 0 && f.cluster == v.files[k].cluster {
        assert v'.dir[f.off] == v.dir[f.off];
        assert f.data[..0] == Contents(v'.disk, ChainOf(v'.chains, f.cluster), 0);
      } else {
        CachedKept(v, v', f);
      }
    }
  }

  // ----- adding names -----

  /** A new entry for a slot that names a file or a directory. */
  lemma AddFileOk(v: Vol, f: File)
    requires Ok(v) && f.off < |v.dir| && |f.data| == FILE_MAX && f.cluster == v.dir[f.off].cluster
    requires if f.isDir then IsSubdir(v.dir[f.off]) else Live(v.dir[f.off])
    requires forall k | 0 <= k < |v.files| :: v.files[k].off != f.off
    ensures Ok(v.(files := v.files + [f]))
  {
    var v' := v.(files := v.files + [f]);
    assert HeadOk(v, f.off);
    forall i | 0 <= i < |v.dir| ensures HeadOk(v', i) {
      assert HeadOk(v, i);
    }
    forall j | 0 <= j < |v'.files| ensures FileOk(v', j) {
      if j < |v.files| {
        FileFacts(v, j);
        assert v'.files[j] == v.files[j];
      }
    }
  }

  lemma NoFilesOk(v: Vol)
    requires Ok(v)
    ensures Ok(v.(files := []))
  {
    var v' := v.(files := []);
    forall i | 0 <= i < |v.dir| ensures HeadOk(v', i) {
      assert HeadOk(v, i);
    }
  }

  /** Slots written into a free run: parts of a long name, and one name of a file. */
  ghost predicate Run(v: Vol, off: nat, ents: seq<Dirent>) {
    && ents != [] && FreeRun(v.dir, off, |ents|) && (off == 0 || !Free(v.dir[off - 1]))
    && (forall i | 0 <= i < |ents| - 1 :: IsLong(ents[i])) && Live(ents[|ents| - 1])
  }

  lemma PlacedOk(v: Vol, off: nat, ents: seq<Dirent>)
    requires Ok(v) && Run(v, off, ents)
    requires var cl := ents[|ents| - 1].cluster;
      && (cl == 0 || (cl in v.chains && cl !in v.kept))
      && forall k | 0 <= k < |v.files| && v.files[k].off < |v.dir| && Orphan(v, k) :: v.files[k].cluster != cl
    ensures Ok(v.(dir := Placed(v.dir, off, ents)))
  {
    hide EndOk;
    var v' := v.(dir := Placed(v.dir, off, ents));
    OkEnd(v);
    PlacedEnd(v.dir, off, ents);
    forall i | 0 <= i < |v'.dir| ensures HeadOk(v', i) {
      assert HeadOk(v, i);
    }
    forall k | 0 <= k < |v'.files| ensures FileOk(v', k) {
      FileFacts(v, k);
      PlacedFile(v, off, ents, k);
    }
  }

  lemma PlacedFile(v: Vol, off: nat, ents: seq<Dirent>, k: nat)
    requires Run(v, off, ents) && k < |v.files| && FileOk(v, k)
    requires v.files[k].off < |v.dir| && Orphan(v, k) ==> v.files[k].cluster != ents[|ents| - 1].cluster
    ensures FileOk(v.(dir := Placed(v.dir, off, ents)), k)
  {
    var v' := v.(dir := Placed(v.dir, off, ents));
    var f := v.files[k];
    if !f.isDir {
      assert !(off <= f.off < off + |ents|);
      assert v'.dir[f.off] == v.dir[f.off];
      if Orphan(v, k) {
        forall i | 0 <= i < |v'.dir| && Live(v'.dir[i]) ensures v'.dir[i].cluster != f.cluster {
        }
      }
    }
  }

  /** The new name is one more name of its cluster, and no other cluster has a new name. */
  lemma PlacedNames(v: Vol, off: nat, ents: seq<Dirent>, cl: nat)
    requires Run(v, off, ents)
    ensures Names(Placed(v.dir, off, ents), cl)
         == if ents[|ents| - 1].cluster == cl then Names(v.dir, cl) + {off + |ents| - 1} else Names(v.dir, cl)
  {
    var r := Placed(v.dir, off, ents);
    forall i | 0 <= i < |r| ensures Live(r[i]) && r[i].cluster == cl <==>
      (Live(v.dir[i]) && v.dir[i].cluster == cl) || (i == off + |ents| - 1 && ents[|ents| - 1].cluster == cl) {
    }
  }

  /** A directory that grew by a cluster of zeroed slots. */
  lemma GrownOk(v: Vol, chains': map<nat, seq<nat>>, kept': set<nat>)
    requires Ok(v) && v.chains.Keys <= chains'.Keys && 0 !in chains' && v.kept <= kept' <= chains'.Keys
    requires forall h | h in kept' && h !in v.kept :: h !in v.chains && h != 0
    ensures Ok(Vol(chains', v.disk, v.dir + seq(16, _ => BLANK), v.files, kept'))
  {
    hide EndOk;
    var v' := Vol(chains', v.disk, v.dir + seq(16, _ => BLANK), v.files, kept');
    OkEnd(v);
    GrownEnd(v.dir, 16);
    forall i | 0 <= i < |v'.dir| ensures HeadOk(v', i) {
      if i < |v.dir| {
        assert HeadOk(v, i);
      }
    }
    forall k | 0 <= k < |v.files| ensures FileOk(v', k) {
      FileFacts(v, k);
    }
  }

  lemma SharedIff(fat: seq<Byte>, n: nat, v: Vol, k: nat, links: nat)
    requires Forest(fat, n, v.chains) && Ok(v) && k < |v.files| && !v.files[k].isDir
    requires links == if v.files[k].cluster < 2 then 0 else |Names(v.dir, v.files[k].cluster) - {v.files[k].off}|
    ensures links == 0 <==> !Shared(v, k)
  {
    hide Forest, Ok, Names;
    HeadIsCluster(fat, n, v, k);
    StartIsCluster(fat, n, v.chains, v.files[k].cluster);
  }

  lemma DropNone(fat: seq<Byte>, n: nat, v: Vol, k: nat)
    requires Forest(fat, n, v.chains) && k < |v.files| && v.files[k].off < |v.dir|
    ensures v.files[k].cluster !in v.chains ==> v.chains - {v.files[k].cluster} == v.chains
  {
  }

  lemma RemovedAll(fat: seq<Byte>, fat': seq<Byte>, n: nat, v: Vol, k: nat, cwd: nat, head: nat)
    requires Forest(fat, n, v.chains) && Ok(v) && k < |v.files| && !v.files[k].isDir && v.files[k].off < |v.dir| && DirFits(v, cwd, head)
    requires Shared(v, k) ==> fat' == fat
    requires !Shared(v, k) ==>
      forall c: nat :: Ent(fat', c) == if v.files[k].cluster in v.chains && c in v.chains[v.files[k].cluster] then 0 else Ent(fat, c)
    ensures Ok(Removed(v, k)) && Ent(fat', 1) == Ent(fat, 1) && DirFits(Removed(v, k), cwd, head)
  {
    hide Ent, Shared, WipeLong;
    RemovedOk(v, k);
    FileFacts(v, k);
    OneIsNoCluster(fat, n, v.chains, v.files[k].cluster);
    StartIsCluster(fat, n, v.chains, head);
  }

  ghost predicate HasRun(dir: seq<Dirent>, need: nat) {
    exists k :: FreeRun(dir, k, need)
  }

  /** No run of free slots is long enough, and the directory cannot grow. */
  ghost predicate NoRoom(dir: seq<Dirent>, need: nat, free: set<nat>) {
    !HasRun(dir, need) && (|dir| + 16 > 128 || free == {})
  }

  /** No cluster for the file, or no room for its name once it has one. */
  ghost predicate NoSpace(dir: seq<Dirent>, need: nat, free: set<nat>) {
    free == {} || (!HasRun(dir, need) && (|dir| + 16 > 128 || |free| == 1))
  }

  lemma NoSpaceFor(dir: seq<Dirent>, need: nat, free: set<nat>, cl: nat)
    ensures free == {} ==> NoSpace(dir, need, free)
    ensures cl in free ==> (NoSpace(dir, need, free) <==> NoRoom(dir, need, free - {cl}))
  {
    hide HasRun;
    if cl in free {
      assert |free - {cl}| == |free| - 1;
      assert free - {cl} == {} <==> |free - {cl}| == 0;
    }
  }

  lemma GrownHasRun(dir: seq<Dirent>, need: nat)
    requires need <= 16
    ensures FreeRun(dir + seq(16, _ => BLANK), |dir|, need)
  {
  }

  /** At most the directory and its own chain, which begins at `head`, grew by a sector. */
  ghost predicate Same(v: Vol, v': Vol, head: nat) {
    && v'.files == v.files && v'.disk == v.disk && v.kept <= v'.kept
    && (|v'.dir| == |v.dir| || |v'.dir| == |v.dir| + 16) && v'.dir[..|v.dir|] == v.dir
    && (forall i | |v.dir| <= i < |v'.dir| :: Free(v'.dir[i]))
    && (forall h | h in v'.kept && h !in v.kept :: h !in v.chains)
    && (head in v.chains ==> head in v.kept) && RestKept(v, v', head)
  }

  lemma SameItself(v: Vol, head: nat)
    requires head in v.chains ==> head in v.kept
    ensures Same(v, v, head)
  {
    RestSame(v, v, head);
  }

  lemma HeadInChains(fat: seq<Byte>, n: nat, v: Vol, cwd: nat, head: nat)
    requires Forest(fat, n, v.chains) && Ok(v) && DirFits(v, cwd, head) && |v.dir| + 16 <= 128
    ensures head in v.chains || !Cluster(head)
    ensures head in v.chains ==> head in v.kept
    ensures |ChainOf(v.chains, head)| < CHAIN_MAX
    ensures head !in v.chains ==> cwd < 2
  {
    StartIsCluster(fat, n, v.chains, head);
  }

  /** The directory's chain after `dir_grow`; the root's first cluster is entered in entry 1. */
  lemma GrowAll(fat: seq<Byte>, mid: seq<Byte>, fat': seq<Byte>, n: nat, v: Vol, cwd: nat, head: nat, st: nat, q: seq<nat>, chains': map<nat, seq<nat>>)
    requires Forest(fat, n, v.chains) && Forest(mid, n, chains') && Ok(v) && DirFits(v, cwd, head)
    requires head == (if cwd >= 2 then cwd else Ent(fat, 1)) && InTable(fat, 1) && |mid| == |fat|
    requires var p := ChainOf(v.chains, head);
      && |q| == |p| + 1 && q[..|p|] == p && q[0] == st && (p != [] ==> st == head)
      && chains' == v.chains[st := q] && q[|p|] in FreeSet(fat, n)
      && (forall x: nat | x !in q :: Ent(mid, x) == Ent(fat, x))
      && fat' == if cwd < 2 && p == [] then Put(mid, 1, st) else mid
    ensures Forest(fat', n, chains') && InTable(fat', 1)
    ensures var v' := Vol(chains', v.disk, v.dir + seq(16, _ => BLANK), v.files, v.kept + {st});
      Ok(v') && Same(v, v', head) && DirFits(v', cwd, if cwd >= 2 then cwd else Ent(fat', 1))
  {
    hide Ent, Put, FreeSet, Ok, Chain;
    var p := ChainOf(v.chains, head);
    StartIsCluster(mid, n, chains', st);
    StartIsCluster(mid, n, chains', 0);
    OneIsNoCluster(mid, n, chains', st);
    StartIsCluster(fat, n, v.chains, head);
    OkKept(v);
    if p == [] {
      FreeIsNoHead(fat, n, v.chains, st);
      forall x: nat ensures Ent(Put(mid, 1, st), x) == if x == 1 then st else Ent(mid, x) {
        PutSmall(mid, 1, st, x);
      }
      ForestSame(mid, Put(mid, 1, st), n, chains');
    }
    GrownOk(v, chains', v.kept + {st});
    RestSame(v, Vol(chains', v.disk, v.dir + seq(16, _ => BLANK), v.files, v.kept + {st}), head);
  }

  lemma OkKept(v: Vol)
    requires Ok(v)
    ensures v.kept <= v.chains.Keys && 0 !in v.chains
  {
  }

  /** Entry 1 is in no chain. */
  lemma ForestSame(fat: seq<Byte>, fat': seq<Byte>, n: nat, chains: map<nat, seq<nat>>)
    requires Forest(fat, n, chains) && |fat'| == |fat| && forall x: nat | x != 1 :: Ent(fat', x) == Ent(fat, x)
    ensures Forest(fat', n, chains)
  {
    hide Ent;
    forall h | h in chains ensures Chain(fat', n, chains[h]) {
      OneIsNoCluster(fat, n, chains, h);
      ChainKept(fat, fat', n, chains[h]);
    }
  }

  // ----- creating a file -----

  /**
   A file that did not exist: no bytes, one name in slots that were free, one cluster that was free.  No other
   file's bytes, slot or chain changed, but for the chain of the directory itself.
   */
  ghost predicate Created(v: Vol, v': Vol, name: seq<Byte>, long: seq<Dirent>, n83: seq<Byte>, free: set<nat>, head: nat) {
    && |v'.files| == |v.files| + 1 && v'.files[..|v.files|] == v.files
    && var f := v'.files[|v.files|];
    && f.name == name && !f.isDir && f.cluster in free && f.cluster !in v.chains
    && f.cluster in v'.chains && v'.chains[f.cluster] == [f.cluster]
    && Names(v'.dir, f.cluster) == {f.off} && Cached(v', f) && CachedBytes(f) == []
    && |long| <= f.off && SlotsAdded(v.dir, v'.dir, f.off - |long|, long + [Dirent(n83, 0x20, f.cluster, 0)])
    && (f.off == |long| || !Free(v'.dir[f.off - |long| - 1]))
    && RestKept(v, v', head) && v'.disk == v.disk
    && forall g: File | Cached(v, g) && !Free(v.dir[g.off]) && g.cluster !in v'.kept :: Cached(v', g)
  }

  lemma BeginOk(v: Vol, w: Vol, cl: nat, fat: seq<Byte>, n: nat, cwd: nat, head: nat)
    requires Ok(v) && cl !in v.chains && cl != 0 && w == v.(chains := v.chains[cl := [cl]]) && Forest(fat, n, w.chains)
    requires DirFits(v, cwd, head)
    ensures Ok(w) && DirFits(w, cwd, head) && cl !in w.kept && cl >= 2
    ensures forall j | 0 <= j < |v.files| :: v.files[j].cluster != cl
    ensures forall i | 0 <= i < |v.dir| && Live(v.dir[i]) :: v.dir[i].cluster != cl
  {
    hide Live, Names;
    StartIsCluster(fat, n, w.chains, cl);
    NewHeadIsNobodys(v, cl);
    OkKept(v);
    ChainsGrow(v, w.chains);
  }

  lemma BeganStays(w: Vol, x: Vol, cl: nat, head: nat)
    requires cl in w.chains && cl !in w.kept && Same(w, x, head)
    ensures cl in x.chains && x.chains[cl] == w.chains[cl] && cl !in x.kept && cl != head
  {
    assert SameChain(w, x, cl);
  }

  /** The directory as `fs_create` found it, past a cluster that was taken and given back. */
  lemma UndoneSame(v: Vol, w: Vol, x: Vol, cl: nat, head: nat)
    requires cl !in v.chains && w == v.(chains := v.chains[cl := [cl]]) && Same(w, x, head) && cl != head
    ensures Same(v, x.(chains := x.chains - {cl}), head)
  {
    var v' := x.(chains := x.chains - {cl});
    forall h | h in v.chains && h != head ensures h in v'.chains && v'.chains[h] == v.chains[h] {
      assert SameChain(w, x, h);
    }
    RestSame(v, v', head);
  }

  lemma UndoneOk(v: Vol, w: Vol, x: Vol, v': Vol, cl: nat, fat: seq<Byte>, fat': seq<Byte>, n: nat, cwd: nat, head: nat, was: nat)
    requires cl !in v.chains && w == v.(chains := v.chains[cl := [cl]]) && Same(w, x, was) && Ok(x) && cl !in x.kept && cl != was
    requires v' == x.(chains := x.chains - {cl}) && Forest(fat, n, x.chains) && DirFits(x, cwd, head)
    requires forall j | 0 <= j < |v.files| :: v.files[j].cluster != cl
    requires forall i | 0 <= i < |v.dir| && Live(v.dir[i]) :: v.dir[i].cluster != cl
    requires cl in x.chains && forall c: nat :: Ent(fat', c) == if c == cl then 0 else Ent(fat, c)
    ensures Same(v, v', was) && Ok(v') && DirFits(v', cwd, head) && Ent(fat', 1) == Ent(fat, 1)
  {
    hide Live, Ent, EndOk, RestKept;
    UndoneSame(v, w, x, cl, was);
    StartIsCluster(fat, n, x.chains, cl);
    forall i | 0 <= i < |x.dir| ensures HeadOk(v', i) {
      assert HeadOk(x, i);
      assert i < |v.dir| ==> x.dir[i] == v.dir[i];
      assert i >= |v.dir| ==> !Live(x.dir[i]) by { FreeNotLive(x.dir[i]); }
    }
    forall j | 0 <= j < |x.files| ensures FileOk(v', j) {
      FileFacts(x, j);
      assert x.files[j] == v.files[j];
    }
  }

  lemma FreeNotLive(e: Dirent)
    ensures Free(e) ==> !Live(e) && !IsSubdir(e)
  {
  }

  /** An 8.3 name begins with a letter or a digit. */
  predicate NameOk(n83: seq<Byte>) {
    n83 != [] && n83[0] != 0 && n83[0] != ERASED && n83[0] != DOT
  }

  /** The last step of `fs_create`. */
  ghost predicate Named(x: Vol, v': Vol, off: nat, long: seq<Dirent>, n83: seq<Byte>, f: File) {
    var ents := long + [Dirent(n83, 0x20, f.cluster, 0)];
    && off + |ents| <= |x.dir| && f.off == off + |long| && f.len == 0 && !f.isDir && |f.data| == FILE_MAX
    && NameOk(n83) && (forall i | 0 <= i < |long| :: IsLong(long[i]))
    && FreeRun(x.dir, off, |ents|) && (off == 0 || !Free(x.dir[off - 1]))
    && v' == x.(dir := Placed(x.dir, off, ents), files := x.files + [f])
  }

  lemma NamedOk(x: Vol, v': Vol, off: nat, long: seq<Dirent>, n83: seq<Byte>, f: File)
    requires Ok(x) && Named(x, v', off, long, n83, f) && f.cluster in x.chains && f.cluster !in x.kept
    requires forall j | 0 <= j < |x.files| :: x.files[j].cluster != f.cluster
    ensures Ok(v')
    ensures forall cl: nat :: Names(v'.dir, cl) == if cl == f.cluster then Names(x.dir, cl) + {f.off} else Names(x.dir, cl)
  {
    hide Ok, EndOk, Names;
    var ents := long + [Dirent(n83, 0x20, f.cluster, 0)];
    assert Run(x, off, ents);
    PlacedOk(x, off, ents);
    var y := x.(dir := Placed(x.dir, off, ents));
    forall k | 0 <= k < |x.files| ensures y.files[k].off != f.off {
      FileFacts(x, k);
      InUse(x, k);
    }
    AddFileOk(y, f);
    forall cl: nat ensures Names(v'.dir, cl) == if cl == f.cluster then Names(x.dir, cl) + {f.off} else Names(x.dir, cl) {
      PlacedNames(x, off, ents, cl);
    }
  }

  /** The slot of an entry is in use. */
  lemma InUse(v: Vol, k: nat)
    requires Ok(v) && k < |v.files|
    ensures v.files[k].off < |v.dir| && !Free(v.dir[v.files[k].off])
  {
    FileFacts(v, k);
  }

  lemma CreatedRest(v: Vol, w: Vol, x: Vol, v': Vol, cl: nat, head: nat)
    requires cl !in v.chains && w == v.(chains := v.chains[cl := [cl]]) && Same(w, x, head) && v'.chains == x.chains && v'.disk == x.disk
    ensures RestKept(v, v', head)
  {
    forall h | h in v.chains && h != head ensures h in v'.chains && v'.chains[h] == v.chains[h] {
      assert SameChain(w, x, h);
    }
    RestSame(v, v', head);
  }

  lemma CreatedChain(v: Vol, w: Vol, x: Vol, cl: nat, head: nat, g: File)
    requires cl !in v.chains && w == v.(chains := v.chains[cl := [cl]]) && Same(w, x, head) && Cached(v, g) && g.cluster !in x.kept
    ensures ChainOf(x.chains, g.cluster) == ChainOf(v.chains, g.cluster) || g.len == 0
  {
    hide Contents;
    if g.cluster in v.chains {
      assert SameChain(w, x, g.cluster);
    }
  }

  /** Slots placed in a free run of the directory or of what it grew by. */
  lemma AddedIs(dir: seq<Dirent>, grown: seq<Dirent>, off: nat, ents: seq<Dirent>)
    requires |dir| <= |grown| <= |dir| + 16 && grown[..|dir|] == dir && (forall i | |dir| <= i < |grown| :: Free(grown[i]))
    requires FreeRun(grown, off, |ents|)
    ensures SlotsAdded(dir, Placed(grown, off, ents), off, ents)
  {
    assert forall i | 0 <= i < |dir| :: grown[i] == grown[..|dir|][i];
  }

  lemma CreatedAll(v: Vol, w: Vol, x: Vol, v': Vol, off: nat, long: seq<Dirent>, n83: seq<Byte>, f: File,
                   fat: seq<Byte>, n: nat, cwd: nat, head: nat, free: set<nat>, was: nat)
    requires Ok(v) && Ok(x) && f.cluster !in v.chains && f.cluster in free && w == v.(chains := v.chains[f.cluster := [f.cluster]])
    requires Same(w, x, was)
    requires Named(x, v', off, long, n83, f) && f.cluster in x.chains && x.chains[f.cluster] == [f.cluster] && f.cluster !in x.kept
    requires forall j | 0 <= j < |v.files| :: v.files[j].cluster != f.cluster
    requires forall i | 0 <= i < |v.dir| && Live(v.dir[i]) :: v.dir[i].cluster != f.cluster
    requires Forest(fat, n, x.chains) && DiskOk(x.disk, n) && DirFits(x, cwd, head)
    ensures Ok(v') && DirFits(v', cwd, head) && Created(v, v', f.name, long, n83, free, was)
  {
    hide Ok, Forest, DiskOk, Live, EndOk, Contents, Chain, RestKept;
    assert RestKept(v, v', was) by { CreatedRest(v, w, x, v', f.cluster, was); }
    AddedIs(v.dir, x.dir, off, long + [Dirent(n83, 0x20, f.cluster, 0)]);
    NamedOk(x, v', off, long, n83, f);
    StartIsCluster(fat, n, x.chains, f.cluster);
    ChainOnDisk(fat, n, [f.cluster], x.disk);
    assert Names(x.dir, f.cluster) == {} by {
      forall i | 0 <= i < |x.dir| ensures !(Live(x.dir[i]) && x.dir[i].cluster == f.cluster) {
        assert i < |v.dir| ==> x.dir[i] == v.dir[i];
        FreeNotLive(x.dir[i]);
      }
    }
    assert CachedBytes(f) == Contents(v'.disk, [f.cluster], 0);
    forall g: File | Cached(v, g) && !Free(v.dir[g.off]) && g.cluster !in v'.kept ensures Cached(v', g) {
      assert x.dir[g.off] == v.dir[g.off] == v'.dir[g.off];
      CreatedChain(v, w, x, f.cluster, was, g);
      if g.cluster in x.chains {
        StartIsCluster(fat, n, x.chains, g.cluster);
        ChainOnDisk(fat, n, x.chains[g.cluster], x.disk);
      }
      CachedKept(v, v', g);
    }
  }

  lemma CreatedNoOrphans(v: Vol, v': Vol, name: seq<Byte>, long: seq<Dirent>, n83: seq<Byte>, free: set<nat>, head: nat)
    requires Created(v, v', name, long, n83, free, head) && NameOk(n83) && forall i | 0 <= i < |long| :: IsLong(long[i])
    ensures NoOrphans(v.dir) ==> NoOrphans(v'.dir)
  {
    hide RestKept, Cached, NoOrphans, SlotsAdded, Names;
    if NoOrphans(v.dir) {
      var f := v'.files[|v.files|];
      AddedNoOrphans(v.dir, v'.dir, f.off - |long|, long + [Dirent(n83, 0x20, f.cluster, 0)]);
    }
  }

  /** A name `fs_create` can use: it fits 8.3, or it is a proper long name and one of its nine aliases is unused. */
  ghost predicate Nameable(dir: seq<Dirent>, name: seq<Byte>) {
    || LongNames.Fits83(name)
    || (LongNames.LongOk(name) && LongNames.Letters(name[..LongNames.LastDot(name)], 8) != [] &&
        exists gen :: 1 <= gen <= 9 && !LongNames.Used(dir, LongNames.Alias(name, gen)))
  }

  /** How many slots the name takes. */
  ghost function NameSlots(name: seq<Byte>): nat {
    if LongNames.Fits83(name) then 1 else LongNames.Count(name) + 1
  }

  /** The name the new entry is known by. */
  ghost function KnownAs(name: seq<Byte>): seq<Byte> {
    if LongNames.Fits83(name) then LongNames.Lower(name) else name
  }

  /** A file created under `name`: its own 8.3 form, or long-name slots and an alias that nobody has. */
  ghost predicate CreatedAs(v: Vol, v': Vol, name: seq<Byte>, n83: seq<Byte>, free: set<nat>, head: nat) {
    && |n83| == 11 && NameOk(n83)
    && (if LongNames.Fits83(name) then n83 == LongNames.Short(name) else LongNames.LongOk(name) && !LongNames.Used(v.dir, n83))
    && Created(v, v', KnownAs(name), LongSlots(name, n83, LongNames.Fits83(name)), n83, free, head)
  }

  lemma CreatedFacts(v: Vol, v': Vol, name: seq<Byte>, n83: seq<Byte>, free: set<nat>, head: nat)
    requires CreatedAs(v, v', name, n83, free, head)
    ensures |n83| == 11 && (if LongNames.Fits83(name) then n83 == LongNames.Short(name) else LongNames.LongOk(name))
    ensures |v'.files| == |v.files| + 1
    ensures var f, long := v'.files[|v.files|], LongSlots(name, n83, LongNames.Fits83(name));
      && f.name == KnownAs(name) && |long| <= f.off < |v'.dir| && (f.off == |long| || !Free(v'.dir[f.off - |long| - 1]))
      && SlotsAdded(v.dir, v'.dir, f.off - |long|, long + [Dirent(n83, 0x20, f.cluster, 0)])
  {
    hide LongNames.Fits83, LongNames.LongOk, LongNames.Short, Cached, RestKept, Names, LongSlots, KnownAs;
  }

  /** A scan lists the new file under the name its entry has. */
  lemma CreatedListed(v: Vol, v': Vol, name: seq<Byte>, n83: seq<Byte>, free: set<nat>, head: nat)
    requires CreatedAs(v, v', name, n83, free, head) && (LongNames.Fits83(name) ==> NoOrphans(v.dir))
    ensures var f := v'.files[|v.files|]; f.name == KnownAs(name) && f.off < |v'.dir| && ListName(v'.dir, f.off) == f.name
  {
    hide LongNames.Fits83, LongNames.LongOk, LongNames.Short, LongSlots, SlotsAdded, NoOrphans, CreatedAs, ListName, LongNames.Lower;
    CreatedFacts(v, v', name, n83, free, head);
    var f := v'.files[|v.files|];
    var e := Dirent(n83, 0x20, f.cluster, 0);
    if LongNames.Fits83(name) {
      assert LongSlots(name, n83, true) + [e] == [e] by { ShortSlots(name, n83); }
      AddedShort(v.dir, v'.dir, f.off, name, e);
    } else {
      AddedLong(v.dir, v'.dir, f.off - |LongSlots(name, n83, false)|, name, e);
    }
  }

  lemma HeadKept(fat: seq<Byte>, n: nat, v: Vol, cwd: nat, head: nat)
    requires Forest(fat, n, v.chains) && DirFits(v, cwd, head)
    ensures head in v.chains ==> head in v.kept
  {
    StartIsCluster(fat, n, v.chains, head);
  }

  lemma NotNameable(dir: seq<Dirent>, name: seq<Byte>)
    requires !LongNames.Fits83(name) && !LongNames.LongOk(name)
    ensures !Nameable(dir, name)
  {
  }

  lemma AliasName(dir: seq<Dirent>, name: seq<Byte>, ok: bool, alias: seq<Byte>)
    requires !LongNames.Fits83(name) && LongNames.LongOk(name)
    requires ok <==> LongNames.Letters(name[..LongNames.LastDot(name)], 8) != [] &&
                     exists gen :: 1 <= gen <= 9 && !LongNames.Used(dir, LongNames.Alias(name, gen))
    requires ok ==> exists gen :: 1 <= gen <= 9 && alias == LongNames.Alias(name, gen)
    ensures ok <==> Nameable(dir, name)
    ensures ok ==> |alias| == 11 && NameOk(alias)
  {
    hide LongNames.Fits83, LongNames.LongOk, LongNames.Alias, LongNames.Used;
    if ok {
      var gen :| 1 <= gen <= 9 && alias == LongNames.Alias(name, gen);
      LongNames.AliasShape(name, gen, gen);
    }
  }

  lemma ShortName(dir: seq<Dirent>, name: seq<Byte>)
    requires LongNames.Fits83(name)
    ensures name != [] && Nameable(dir, name) && NameOk(LongNames.Short(name)) && |LongNames.Short(name)| == 11
    ensures LongNames.FatName(LongNames.Short(name)) == LongNames.Lower(name)
  {
    LongNames.ShortRoundTrip(name);
    LongNames.GoodIsVisible(LongNames.Base(name)[0]);
  }

  lemma SlotsOf(name: seq<Byte>, n83: seq<Byte>, fits: bool)
    requires fits == LongNames.Fits83(name) && (!fits ==> LongNames.LongOk(name))
    ensures |LongSlots(name, n83, fits)| + 1 == NameSlots(name)
  {
  }

  /** What the new entry and the slots say of the name. */
  lemma CreatedKnown(v: Vol, v': Vol, name: seq<Byte>, n83: seq<Byte>, free: set<nat>, head: nat)
    requires CreatedAs(v, v', name, n83, free, head)
    ensures |v'.files| == |v.files| + 1
    ensures var f := v'.files[|v.files|];
      && ((LongNames.Fits83(name) ==> NoOrphans(v.dir)) ==> f.off < |v'.dir| && ListName(v'.dir, f.off) == f.name)
      && (f.name == name <==> !LongNames.Fits83(name) || LongNames.Lower(name) == name)
  {
    hide LongNames.Fits83, CreatedAs, NoOrphans, ListName, LongNames.Lower;
    CreatedFacts(v, v', name, n83, free, head);
    if LongNames.Fits83(name) ==> NoOrphans(v.dir) {
      CreatedListed(v, v', name, n83, free, head);
    }
  }

  // ----- scanning and linking -----

  /** What `scan_dir` lists: files that fit a page, and directories. */
  predicate Listed(e: Dirent) {
    First(e) != 0x05 && (IsSubdir(e) || (Live(e) && e.size <= FILE_MAX))
  }

  /** What is listed: a directory, or a file of at most 4096 bytes; not a dot entry, a label, or the mark 0x05. */
  lemma ListedIff(e: Dirent)
    ensures Listed(e) <==> First(e) !in {0, 0xE5, 0x05, 0x2E} && e.attr != 0x0F && Lacks(e.attr, 8) && (Lacks(e.attr, 16) ==> e.size <= 0x1000)
    ensures IsSubdir(e) <==> First(e) !in {0, 0xE5, 0x2E} && e.attr != 0x0F && Lacks(e.attr, 8) && !Lacks(e.attr, 16)
  {
    hide Lacks;
    LacksIs(e.attr);
  }

  /** An entry as the scan makes it: the name its slots spell; its bytes are cached whenever the chain is long enough. */
  ghost predicate Scanned(v: Vol, f: File) {
    && f.off < |v.dir| && Listed(v.dir[f.off]) && f.cluster == v.dir[f.off].cluster && f.isDir == IsSubdir(v.dir[f.off])
    && f.name == ListName(v.dir, f.off) && Spellings.Spelled(Raw(v.dir), f.off, f.name)
    && (!f.isDir ==> f.len == v.dir[f.off].size && (Readable(v, f) ==> Cached(v, f)))
  }

  /** The entries made from the first `i` slots. */
  ghost predicate ScannedTo(v: Vol, i: nat) {
    && Ok(v) && (forall k | 0 <= k < |v.files| :: k <= v.files[k].off < i && Scanned(v, v.files[k]))
    && (forall x | 0 <= x < i && x < |v.dir| && Listed(v.dir[x]) :: exists k :: 0 <= k < |v.files| && v.files[k].off == x)
  }

  /** With entries left over, every listed slot has one. */
  ghost predicate AllListed(v: Vol) {
    |v.files| < FS_MAX ==> forall x | 0 <= x < |v.dir| && Listed(v.dir[x]) :: exists k :: 0 <= k < |v.files| && v.files[k].off == x
  }

  /** Every entry is as the scan makes it; there are no more of them than slots. */
  ghost predicate AllScanned(v: Vol) {
    |v.files| <= |v.dir| && forall k | 0 <= k < |v.files| :: Scanned(v, v.files[k])
  }

  lemma ScannedAll(v: Vol, i: nat)
    requires ScannedTo(v, i) && i <= |v.dir|
    ensures Ok(v) && AllScanned(v) && (i == |v.dir| || |v.files| >= FS_MAX ==> AllListed(v))
  {
    hide Ok, Scanned;
    assert |v.files| > 0 ==> |v.files| - 1 <= v.files[|v.files| - 1].off < i;
  }

  lemma ScannedNone(v: Vol)
    requires Ok(v) && v.files == []
    ensures ScannedTo(v, 0)
  {
  }

  lemma ScannedOk(v: Vol, i: nat)
    requires ScannedTo(v, i)
    ensures Ok(v)
  {
  }

  lemma ScannedSkip(v: Vol, i: nat)
    requires ScannedTo(v, i) && i < |v.dir| && !Listed(v.dir[i])
    ensures ScannedTo(v, i + 1)
  {
    hide Ok, Listed, Scanned;
  }

  lemma ScannedMore(v: Vol, i: nat, f: File)
    requires ScannedTo(v, i) && i < |v.dir| && f.off == i && |f.data| == FILE_MAX && Scanned(v, f)
    ensures ScannedTo(v.(files := v.files + [f]), i + 1)
  {
    hide Ok, Scanned;
    var v' := v.(files := v.files + [f]);
    ScannedIs(v, f);
    AddFileOk(v, f);
    assert |v.files| <= i by {
      assert |v.files| > 0 ==> |v.files| - 1 <= v.files[|v.files| - 1].off < i;
    }
    assert forall g: File :: Scanned(v', g) == Scanned(v, g) by {
      forall g: File ensures Scanned(v', g) == Scanned(v, g) {
        ScannedSame(v, v', g);
      }
    }
    forall x | 0 <= x < i + 1 && x < |v.dir| && Listed(v.dir[x]) ensures exists k :: 0 <= k < |v'.files| && v'.files[k].off == x {
      if x == i {
        assert v'.files[|v.files|].off == x;
      } else {
        var k :| 0 <= k < |v.files| && v.files[k].off == x;
        assert v'.files[k].off == x;
      }
    }
  }

  lemma ScannedIs(v: Vol, f: File)
    requires Scanned(v, f)
    ensures f.off < |v.dir| && f.cluster == v.dir[f.off].cluster && if f.isDir then IsSubdir(v.dir[f.off]) else Live(v.dir[f.off])
  {
  }

  lemma ScannedSame(v: Vol, v': Vol, g: File)
    requires v' == v.(files := v'.files)
    ensures Scanned(v', g) == Scanned(v, g)
  {
  }

  lemma ScannedEnd(v: Vol, i: nat)
    requires ScannedTo(v, i) && i < |v.dir| && First(v.dir[i]) == 0
    ensures ScannedTo(v, |v.dir|)
  {
    hide Scanned;
    OkEnd(v);
    assert forall x | i <= x < |v.dir| :: Free(v.dir[x]);
  }

  /** A new name for the file of slot `e`: one more name of its cluster, so the chain outlives the old name. */
  lemma LinkedOk(v: Vol, off: nat, e: Dirent)
    requires Ok(v) && Run(v, off, [e]) && v.files == []
    requires e.cluster == 0 || (e.cluster in v.chains && e.cluster !in v.kept)
    ensures Ok(v.(dir := Placed(v.dir, off, [e])))
    ensures forall cl: nat ::
              Names(Placed(v.dir, off, [e]), cl) == if e.cluster == cl then Names(v.dir, cl) + {off as int} else Names(v.dir, cl)
  {
    hide Ok, Names;
    PlacedOk(v, off, [e]);
    forall cl: nat ensures
      Names(Placed(v.dir, off, [e]), cl) == if e.cluster == cl then Names(v.dir, cl) + {off as int} else Names(v.dir, cl) {
      PlacedNames(v, off, [e], cl);
    }
  }

  lemma SlotIsCluster(fat: seq<Byte>, n: nat, v: Vol, i: nat)
    requires Forest(fat, n, v.chains) && Ok(v) && i < |v.dir| && Live(v.dir[i])
    ensures v.dir[i].cluster in v.chains || !Cluster(v.dir[i].cluster)
  {
    assert HeadOk(v, i);
  }

  /**
   The file at entry `k` has one name more, in a slot that was free: a copy of its slot under the new name.
   Other clusters have the names they had, and no chain but the directory's own changed.
   */
  ghost predicate Linked(v: Vol, v': Vol, k: nat, n83: seq<Byte>, head: nat) {
    && k < |v.files| && v.files[k].off < |v.dir| && v'.disk == v.disk && RestKept(v, v', head)
    && exists off :: NewName(v.dir, v'.dir, v.dir[v.files[k].off].(name := n83), off)
  }

  ghost predicate NewName(dir: seq<Dirent>, dir': seq<Dirent>, e: Dirent, off: nat) {
    && SlotsAdded(dir, dir', off, [e])
    && forall c: nat :: Names(dir', c) == if c == e.cluster then Names(dir, c) + {off as int} else Names(dir, c)
  }

  /** What `fs_link` asks for: a file, a new name that fits 8.3, and an entry to spare. */
  ghost predicate Linkable(v: Vol, k: nat, name: seq<Byte>)
    requires k < |v.files|
  {
    !v.files[k].isDir && |v.files| < FS_MAX && LongNames.Fits83(name) && forall j | 0 <= j < |v.files| :: v.files[j].name != name
  }

  lemma LinkedScan(v: Vol, y: Vol, v': Vol, k: nat, n83: seq<Byte>, head: nat)
    requires Linked(v, y, k, n83, head) && v' == y.(files := v'.files)
    ensures Linked(v, v', k, n83, head)
  {
    hide NewName;
    RestMoved(v, y, v', head);
  }

  lemma LinkedNoOrphans(v: Vol, v': Vol, k: nat, n83: seq<Byte>, head: nat)
    requires Ok(v) && Linked(v, v', k, n83, head) && !v.files[k].isDir && NameOk(n83)
    ensures NoOrphans(v.dir) ==> NoOrphans(v'.dir)
  {
    hide RestKept, NoOrphans, SlotsAdded, Names, Ok;
    if NoOrphans(v.dir) {
      LinkSource(v, k);
      var e := v.dir[v.files[k].off].(name := n83);
      var off :| NewName(v.dir, v'.dir, e, off);
      AddedNoOrphans(v.dir, v'.dir, off, [e]);
    }
  }

  lemma LinkSource(v: Vol, k: nat)
    requires Ok(v) && k < |v.files| && !v.files[k].isDir
    ensures v.files[k].off < |v.dir| && Live(v.dir[v.files[k].off])
    ensures var cl := v.dir[v.files[k].off].cluster; cl == 0 || (cl in v.chains && cl !in v.kept)
  {
    FileFacts(v, k);
  }

  lemma SameNames(v: Vol, x: Vol, cl: nat, head: nat)
    requires Same(v, x, head)
    ensures Names(x.dir, cl) == Names(v.dir, cl)
  {
    forall i | 0 <= i < |x.dir| ensures i in Names(x.dir, cl) <==> i in Names(v.dir, cl) {
      assert i < |v.dir| ==> x.dir[i] == v.dir[i];
    }
  }

  lemma LinkAll(v: Vol, x: Vol, k: nat, off: nat, n83: seq<Byte>, head: nat, cwd: nat, now: nat)
    requires Ok(v) && Ok(x) && Same(v, x, head) && k < |v.files| && !v.files[k].isDir && v.files[k].off < |v.dir| && NameOk(n83)
    requires FreeRun(x.dir, off, 1) && (off == 0 || !Free(x.dir[off - 1])) && DirFits(x, cwd, now)
    ensures var v' := x.(dir := Placed(x.dir, off, [v.dir[v.files[k].off].(name := n83)]), files := []);
      Ok(v') && Linked(v, v', k, n83, head) && DirFits(v', cwd, now)
  {
    hide Ok, Names, EndOk, RestKept;
    var e := v.dir[v.files[k].off].(name := n83);
    var cl0 := e.cluster;
    LinkSource(v, k);
    NoFilesOk(x);
    var y := x.(files := []);
    assert Run(y, off, [e]);
    assert cl0 == 0 || (cl0 in x.chains && cl0 !in x.kept) by { StillMine(v, x, cl0, head); }
    LinkedOk(y, off, e);
    forall cl: nat ensures Names(Placed(x.dir, off, [e]), cl) == if cl == cl0 then Names(v.dir, cl) + {off as int} else Names(v.dir, cl) {
      SameNames(v, x, cl, head);
    }
    AddedIs(v.dir, x.dir, off, [e]);
    assert NewName(v.dir, Placed(x.dir, off, [e]), e, off);
    var v' := x.(dir := Placed(x.dir, off, [e]), files := []);
    assert RestKept(v, v', head) by { RestMoved(v, x, v', head); }
  }

  lemma RestMoved(v: Vol, x: Vol, v': Vol, cl: nat)
    requires RestKept(v, x, cl) && v'.chains == x.chains && v'.disk == x.disk
    ensures RestKept(v, v', cl)
  {
    forall h | h in v.chains && h != cl ensures SameChain(v, v', h) {
      assert SameChain(v, x, h);
    }
  }

  lemma StillMine(v: Vol, x: Vol, cl: nat, head: nat)
    requires Same(v, x, head) && (cl == 0 || (cl in v.chains && cl !in v.kept))
    ensures cl == 0 || (cl in x.chains && cl !in x.kept)
  {
    if cl != 0 {
      assert SameChain(v, x, cl);
    }
  }

  /** Hard links survive: while a directory is `Ok`, no name's first cluster is free. */
  lemma LiveIsAllocated(fat: seq<Byte>, n: nat, v: Vol, i: nat)
    requires Forest(fat, n, v.chains) && Ok(v) && i < |v.dir| && Live(v.dir[i]) && v.dir[i].cluster != 0
    ensures v.dir[i].cluster !in FreeSet(fat, n)
  {
    assert HeadOk(v, i);
    if v.dir[i].cluster in FreeSet(fat, n) {
      FreeIsNoHead(fat, n, v.chains, v.dir[i].cluster);
    }
  }
}
