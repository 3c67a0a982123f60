/**
 Volumes of `kernel/fs.c` on which a call does what nobody asked for.
 */
module VolumeFailures {
  import opened Bytes
  import opened Fat12
  import opened Directories
  import opened Sectors
  import opened Listings
  import opened FileTables
  import opened Volumes
  import LongNames = Names

  const A: seq<Byte> := [0x61]
  const B: seq<Byte> := [0x62]
  const CAPITAL: seq<Byte> := [0x41]

  lemma ShortNames()
    ensures LongNames.Fits83(A) && LongNames.Fits83(B) && LongNames.Short(A)[0] == 0x41 && LongNames.Lower(A) == A
  {
    assert LongNames.Dot(A, 0) == 1 && LongNames.Dot(B, 0) == 1;
  }

  /** An empty table of one sector, for a hundred clusters. */
  lemma EmptyTable(table: seq<Byte>)
    requires table == seq(512, _ => 0)
    ensures Forest(table, 100, map[]) && Ent(table, 1) == 0 && InTable(table, 1) && 2 in FreeSet(table, 100)
  {
  }

  lemma EmptyDirectory(dir: seq<Dirent>, free: set<nat>)
    requires dir == seq(16, _ => BLANK) && free != {}
    ensures HasRun(dir, 1) && !NoSpace(dir, 1, free) && EndOk(dir)
    ensures forall disk, chains :: 0 !in chains ==> Ok(Vol(chains, disk, dir, [], {}))
  {
    assert FreeRun(dir, 0, 1);
    forall disk, chains: map<nat, seq<nat>> | 0 !in chains ensures Ok(Vol(chains, disk, dir, [], {})) {
      assert forall i | 0 <= i < 16 :: HeadOk(Vol(chains, disk, dir, [], {}), i);
    }
  }

  /** The only file of the directory is `a`, of `len` bytes. */
  ghost predicate OneFile(v: Vol, len: nat) {
    && |v.files| == 1 && |v.dir| == 16 && SlotKnows(v, 0) && Ok(v)
    && v.files[0].name == A && !v.files[0].isDir && v.files[0].len == len && v.files[0].cluster in v.chains
    && Live(v.dir[v.files[0].off]) && First(v.dir[v.files[0].off]) == 0x41
    && forall i | 0 <= i < 16 && i != v.files[0].off :: Free(v.dir[i])
  }

  lemma AfterCreate(v: Vol, v': Vol, n83: seq<Byte>, free: set<nat>, head: nat)
    requires v.files == [] && v.dir == seq(16, _ => BLANK) && |v'.dir| == 16 && Ok(v')
    requires CreatedAs(v, v', A, n83, free, head)
    ensures OneFile(v', 0) && |v'.files| == 1 && !v'.files[0].isDir && Enough(v', 0, 1, 0)
  {
    hide LongNames.Fits83, LongNames.Short, LongNames.Lower, RestKept, Ok, Names;
    ShortNames();
    ShortSlots(A, n83);
    var f := v'.files[0];
    var e := Dirent(n83, 0x20, f.cluster, 0);
    assert [] + [e] == [e];
    assert v'.dir[f.off] == v'.dir[f.off..f.off + 1][0] == e;
    CachedLength(v', f);
  }

  lemma AfterWrite(v: Vol, v': Vol)
    requires OneFile(v, 0) && Holds(v, v', 0, [1]) && Ok(v')
    ensures OneFile(v', 1) && |v'.files| == 1
  {
    hide RestKept, OthersKept, Ok;
    CachedLength(v', v'.files[0]);
    FileFacts(v', 0);
  }

  lemma CanLink(v: Vol, free: set<nat>)
    requires OneFile(v, 1)
    ensures |v.files| == 1 && Linkable(v, 0, B) && !NoRoom(v.dir, 1, free)
  {
    ShortNames();
    var j := if v.files[0].off == 0 then 1 else 0;
    assert FreeRun(v.dir, j, 1);
  }

  /** After the link, every entry is one of the two names, and shares its chain with the other. */
  lemma AfterLink(v: Vol, v': Vol, n83: seq<Byte>, head: nat)
    requires OneFile(v, 1) && Linked(v, v', 0, n83, head) && AllScanned(v') && AllListed(v') && Ok(v')
    ensures |v'.files| > 0 && !v'.files[0].isDir && v'.files[0].len == 1 && Shared(v', 0)
  {
    hide RestKept, Ok, ListName, Names, Cached;
    var x, cl := v.files[0].off, v.files[0].cluster;
    var e := v.dir[x].(name := n83);
    var off: nat :| NewName(v.dir, v'.dir, e, off);
    TwoSlots(v, v'.dir, e, off);
    assert Listed(v'.dir[x]);
    var k :| 0 <= k < |v'.files| && v'.files[k].off == x;
    assert Scanned(v', v'.files[0]) && !Free(v'.dir[v'.files[0].off]);
    assert cl != 0 by { OkKept(v); }
    var other := if v'.files[0].off == x then off else x;
    assert other in Names(v'.dir, cl) - {v'.files[0].off};
  }

  /** The two slots in use name the same cluster. */
  lemma TwoSlots(v: Vol, dir': seq<Dirent>, e: Dirent, off: nat)
    requires OneFile(v, 1) && NewName(v.dir, dir', e, off) && e == v.dir[v.files[0].off].(name := e.name)
    ensures var x := v.files[0].off;
      && x != off && x < |dir'| <= 32 && off < |dir'| && dir'[x] == v.dir[x] && dir'[off] == e
      && (forall i | 0 <= i < |dir'| && !Free(dir'[i]) :: i == x || i == off)
      && {off as int, x as int} <= Names(dir', v.files[0].cluster)
  {
    hide Ok;
    var x := v.files[0].off;
    assert dir'[off] == dir'[off..off + 1][0] == e;
    assert x in Names(v.dir, v.files[0].cluster);
  }

  /** A freshly formatted volume. */
  method Blank() returns (vol: Volume)
    ensures fresh(vol) && fresh(vol.fat) && fresh(vol.fat.bytes) && vol.Valid()
    ensures vol.files == [] && vol.dir == seq(16, _ => BLANK) && vol.FreeNow() != {}
  {
    hide Forest, Ent, Ok, NoSpace, HasRun, FreeSet, HoldsTable, EndOk;
    var table: seq<Byte>, blank: seq<Byte> := seq(512, _ => 0), seq(512, _ => 0);
    EmptyTable(table);
    var fat := new Fat(table, 100, map[]);
    var disk, dir := seq(104, _ => blank), seq(16, _ => BLANK);
    EmptyDirectory(dir, FreeSet(table, 100));
    vol := new Volume(fat, 1, 1, 4, 0, disk, dir, {});
  }

  method MakeFile(vol: Volume)
    requires vol.Valid() && vol.files == [] && vol.dir == seq(16, _ => BLANK) && vol.FreeNow() != {}
    modifies vol, vol.fat, vol.fat.bytes
    ensures vol.Valid() && OneFile(vol.V(), 1)
  {
    hide Forest, Ent, Ok, CreatedAs, Nameable, NoSpace, HasRun, FreeSet, Holds, HoldsStill, HoldsTable, Same, DirFits, DiskOk, InTable;
    hide OneFile, LongNames.Fits83, LongNames.Short, LongNames.Lower, NoOrphans, ListName;
    ghost var v0, free, head := vol.V(), vol.FreeNow(), vol.Head();
    var page: seq<Byte> := seq(FILE_MAX, _ => 0);
    ShortNames();
    ShortName(vol.dir, A);
    EmptyDirectory(vol.dir, free);
    var k := vol.Create(A, true, page);
    ghost var n83 :| CreatedAs(v0, vol.V(), A, n83, free, head);
    AfterCreate(v0, vol.V(), n83, free, head);
    ghost var v1 := vol.V();
    EnoughMore(v1, 0, 1, |vol.FreeNow()|);
    var rc := vol.Write(0, [1]);
    AfterWrite(v1, vol.V());
  }

  lemma EnoughMore(v: Vol, k: nat, len: nat, free: nat)
    requires Enough(v, k, len, 0)
    ensures Enough(v, k, len, free)
  {
  }

  /** Made, written, linked and cut to nothing: no call fails, and the other name is left with a chain that is free. */
  method CutUnderTwin() returns (vol: Volume, linked: int, cut: int)
    ensures linked == 0 && cut == 0 && vol.ValidRest() && !Ok(vol.V())
  {
    hide Forest, Ent, Ok, NoRoom, FreeSet, HoldsResized, HoldsStill, HoldsTable, DirFits, DiskOk, InTable;
    hide Linked, AllScanned, AllListed, Linkable, OneFile, LongNames.Fits83, LongNames.Short, Same, Shared;
    vol := Blank();
    MakeFile(vol);
    ghost var v, head := vol.V(), vol.Head();
    CanLink(v, vol.FreeNow());
    linked := vol.Link(0, B, i => seq(FILE_MAX, _ => 0), 64);
    LinkedSmall(v, vol.V(), LongNames.Short(B), head);
    AfterLink(v, vol.V(), LongNames.Short(B), head);
    cut := vol.Truncate(0, 0);
  }

  lemma LinkedSmall(v: Vol, v': Vol, n83: seq<Byte>, head: nat)
    requires OneFile(v, 1) && Linked(v, v', 0, n83, head)
    ensures |v'.dir| <= 32
  {
    hide RestKept, Ok, Names;
  }

  // ----- one copy of the table -----

  /** A volume with one copy of the table and a root directory of one sector that is not blank. */
  method OneCopy() returns (vol: Volume)
    ensures fresh(vol) && fresh(vol.fat) && fresh(vol.fat.bytes) && vol.Valid() && vol.rsvd == vol.fatsz == 1 && vol.first == 3
    ensures |vol.disk| == 103 && vol.disk[2] == seq(512, _ => 1) && vol.fat.bytes[..] == seq(512, _ => 0)
  {
    hide Forest, Ent, Ok, FreeSet, EndOk, NoSpace;
    var table: seq<Byte>, full: seq<Byte> := seq(512, _ => 0), seq(512, _ => 1);
    EmptyTable(table);
    var fat := new Fat(table, 100, map[]);
    var dir := seq(16, _ => BLANK);
    EmptyDirectory(dir, FreeSet(table, 100));
    vol := new Volume(fat, 1, 1, 3, 0, seq(103, _ => full), dir, {});
  }

  /** With one copy of the table the second one goes over the root directory, which begins where it would be. */
  method FlushOverRoot() returns (vol: Volume, was: seq<seq<Byte>>)
    ensures vol.Valid() && vol.first == vol.rsvd + vol.fatsz + 1
    ensures |was| == |vol.disk| > vol.rsvd + vol.fatsz && vol.disk[vol.rsvd + vol.fatsz] != was[vol.rsvd + vol.fatsz]
  {
    hide Forest, Ent, Ok, DirFits, DiskOk, InTable, TableFrom;
    vol := OneCopy();
    was := vol.disk;
    vol.Flush();
    OneSector(vol.disk, 2);
    ghost var table := vol.fat.bytes[..];
    RootSparedIff(was, vol.disk, 1, 1, 1, table);
    assert was[2][0] != table[..512][0];
  }

  lemma OneSector(disk: seq<seq<Byte>>, lba: nat)
    requires lba < |disk|
    ensures ReadFrom(disk, lba, 1) == disk[lba]
  {
    assert ReadFrom(disk, lba, 0) == [];
  }

  // ----- capitals -----

  lemma CapitalName()
    ensures LongNames.Fits83(CAPITAL) && LongNames.Lower(CAPITAL) == A
  {
    assert LongNames.Dot(CAPITAL, 0) == 1;
  }

  /** A file created as `A` is not found as `A`. */
  method CapitalsLost() returns (vol: Volume, made: int, found: int)
    ensures vol.Valid() && made == 0 && |vol.files| == 1 && found == -1
  {
    hide Forest, Ent, Ok, CreatedAs, Nameable, NoSpace, HasRun, FreeSet, HoldsTable, Same, DirFits, DiskOk, InTable;
    hide LongNames.Fits83, LongNames.Short, LongNames.Lower, NoOrphans, ListName;
    vol := Blank();
    ghost var v0, free, head := vol.V(), vol.FreeNow(), vol.Head();
    var page: seq<Byte> := seq(FILE_MAX, _ => 0);
    CapitalName();
    ShortName(vol.dir, CAPITAL);
    EmptyDirectory(vol.dir, free);
    made := vol.Create(CAPITAL, true, page);
    ghost var n83 :| CreatedAs(v0, vol.V(), CAPITAL, n83, free, head);
    CreatedFacts(v0, vol.V(), CAPITAL, n83, free, head);
    found := vol.Find(CAPITAL);
  }
}
