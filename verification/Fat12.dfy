/**
 The allocation table of `kernel/fs.c`: packed 12-bit entries, chains of clusters, and the calls that
 allocate, resize and free them.
 */
module Fat12 {
  import opened Bytes

  const EOF: nat := 0xFF8
  const CHAIN_MAX: nat := 8

  // ----- packed entries -----

  function Off(cl: nat): nat {
    cl + cl / 2
  }

  predicate InTable(fat: seq<Byte>, cl: nat) {
    Off(cl) + 1 < |fat|
  }

  /** `fat12_ent`: twelve bits out of two bytes; outside the table every chain ends. */
  function Ent(fat: seq<Byte>, cl: nat): (v: nat)
    ensures v < 0x1000
  {
    if !InTable(fat, cl) then EOF
    else
      var v := fat[Off(cl)] as nat + fat[Off(cl) + 1] as nat * 256;
      if cl % 2 != 0 then v / 16 else v % 0x1000
  }

  /** `fat12_set`: the twelve bits of one entry, beside four bits that belong to a neighbour. */
  function Put(fat: seq<Byte>, cl: nat, val: nat): (r: seq<Byte>)
    ensures |r| == |fat|
  {
    var v := val % 0x1000;
    var off := Off(cl);
    if !InTable(fat, cl) then fat
    else if cl % 2 != 0 then
      fat[off := ((fat[off] as nat % 16) + (v % 16) * 16) as Byte][off + 1 := (v / 16) as Byte]
    else
      fat[off := (v % 256) as Byte][off + 1 := ((fat[off + 1] as nat / 16) * 16 + v / 256) as Byte]
  }

  /** Three bytes hold two entries: the middle byte has the high digit of the first and the low digit of the second. */
  lemma EntBytes(fat: seq<Byte>, k: nat)
    ensures 3 * k + 1 < |fat| ==> Ent(fat, 2 * k) == fat[3 * k] as nat + 0x100 * (fat[3 * k + 1] as nat % 0x10)
    ensures 3 * k + 2 < |fat| ==> Ent(fat, 2 * k + 1) == fat[3 * k + 1] as nat / 0x10 + 0x10 * fat[3 * k + 2] as nat
    ensures (3 * k + 1 >= |fat| ==> Ent(fat, 2 * k) == 0xFF8) && (3 * k + 2 >= |fat| ==> Ent(fat, 2 * k + 1) == 0xFF8)
  {
    assert Off(2 * k) == 3 * k && Off(2 * k + 1) == 3 * k + 1;
    if 3 * k + 1 < |fat| {
      LowTwelve(fat[3 * k] as nat, fat[3 * k + 1] as nat);
    }
  }

  lemma LowTwelve(a: nat, b: nat)
    requires a < 0x100 && b < 0x100
    ensures (a + b * 256) % 0x1000 == a + 0x100 * (b % 0x10)
  {
    assert a + b * 256 == (a + (b % 16) * 256) + 0x1000 * (b / 16);
    ModAdds(a + (b % 16) * 256, b / 16);
  }

  /** A write changes its own entry and no other, although neighbours share a byte. */
  lemma PutEnt(fat: seq<Byte>, cl: nat, val: nat, c: nat)
    ensures Ent(Put(fat, cl, val), c) == if c == cl && InTable(fat, cl) then val % 0x1000 else Ent(fat, c)
  {
    if c == cl {
      PutOwn(fat, cl, val);
    } else if InTable(fat, cl) && InTable(fat, c) {
      if Off(c) == Off(cl) + 1 {
        PutAfter(fat, cl, val);
      } else if Off(cl) == Off(c) + 1 {
        PutBefore(fat, cl, val);
      }
    }
  }

  lemma PutSmall(fat: seq<Byte>, cl: nat, val: nat, c: nat)
    requires val < 0x1000
    ensures Ent(Put(fat, cl, val), c) == if c == cl && InTable(fat, cl) then val else Ent(fat, c)
  {
    hide Put, Ent;
    PutEnt(fat, cl, val, c);
  }

  lemma PutOwn(fat: seq<Byte>, cl: nat, val: nat)
    ensures Ent(Put(fat, cl, val), cl) == if InTable(fat, cl) then val % 0x1000 else Ent(fat, cl)
  {
    var v := val % 0x1000;
    if InTable(fat, cl) {
      var a, b := fat[Off(cl)] as nat, fat[Off(cl) + 1] as nat;
      if cl % 2 != 0 {
        assert ((a % 16) + (v % 16) * 16 + (v / 16) * 256) / 16 == v;
      } else {
        assert v % 256 + ((b / 16) * 16 + v / 256) * 256 == v + 0x1000 * (b / 16);
        ModAdds(v, b / 16);
      }
    }
  }

  lemma ModAdds(v: nat, k: nat)
    requires v < 0x1000
    ensures (v + 0x1000 * k) % 0x1000 == v
  {
  }

  /** An even entry's write leaves the upper half of the byte it shares with the next entry. */
  lemma PutAfter(fat: seq<Byte>, cl: nat, val: nat)
    requires cl % 2 == 0 && InTable(fat, cl) && InTable(fat, cl + 1)
    ensures Ent(Put(fat, cl, val), cl + 1) == Ent(fat, cl + 1)
  {
    var v := val % 0x1000;
    var b, c := fat[Off(cl) + 1] as nat, fat[Off(cl) + 2] as nat;
    assert Off(cl + 1) == Off(cl) + 1;
    assert ((b / 16) * 16 + v / 256 + c * 256) / 16 == b / 16 + c * 16;
  }

  /** An odd entry's write leaves the lower half of the byte it shares with the entry before. */
  lemma PutBefore(fat: seq<Byte>, cl: nat, val: nat)
    requires cl % 2 != 0 && InTable(fat, cl)
    ensures Ent(Put(fat, cl, val), cl - 1) == Ent(fat, cl - 1)
  {
    var v := val % 0x1000;
    var a, b := fat[Off(cl) - 1] as nat, fat[Off(cl)] as nat;
    assert Off(cl - 1) == Off(cl) - 1;
    var b' := (b % 16) + (v % 16) * 16;
    assert a + b' * 256 == (a + (b % 16) * 256) + 0x1000 * (v % 16);
    ModAdds(a + (b % 16) * 256, v % 16);
    assert a + b * 256 == (a + (b % 16) * 256) + 0x1000 * (b / 16);
    ModAdds(a + (b % 16) * 256, b / 16);
  }

  // ----- chains -----

  /** The values a walk goes on from. */
  predicate Cluster(c: nat) {
    2 <= c < EOF
  }

  /** A cluster of a volume with `n` clusters whose entry is in the table. */
  predicate Good(fat: seq<Byte>, n: nat, c: nat) {
    2 <= c <= n + 1 && InTable(fat, c)
  }

  ghost predicate Distinct(p: seq<nat>) {
    forall i, j | 0 <= i < j < |p| :: p[i] != p[j]
  }

  /** A chain: distinct clusters of the volume, each entry naming the next, the last an end mark. */
  ghost predicate Chain(fat: seq<Byte>, n: nat, p: seq<nat>) {
    && 0 < |p| <= CHAIN_MAX && Distinct(p)
    && (forall i | 0 <= i < |p| :: Good(fat, n, p[i]))
    && (forall i | 0 <= i < |p| :: Ent(fat, p[i]) == if i + 1 < |p| then p[i + 1] else Ent(fat, p[|p| - 1]))
    && Ent(fat, p[|p| - 1]) >= EOF
  }

  ghost predicate Apart(p: seq<nat>, q: seq<nat>) {
    forall c <- p :: c !in q
  }

  /** The chains of a volume by their first cluster: disjoint, and none of them free. */
  ghost predicate Forest(fat: seq<Byte>, n: nat, chains: map<nat, seq<nat>>) {
    && n <= 4084
    && (forall h {:trigger chains[h]} | h in chains :: Chain(fat, n, chains[h]) && chains[h][0] == h)
    && (forall h, k | h in chains && k in chains && h != k :: Apart(chains[h], chains[k]))
  }

  /** What the loops over a chain visit. */
  function Walk(fat: seq<Byte>, cl: nat, hops: nat): (p: seq<nat>)
    requires hops <= CHAIN_MAX
    ensures |p| <= CHAIN_MAX - hops
    decreases CHAIN_MAX - hops
  {
    if Cluster(cl) && hops < CHAIN_MAX then [cl] + Walk(fat, Ent(fat, cl), hops + 1) else []
  }

  lemma {:induction false} WalkIsChain(fat: seq<Byte>, n: nat, p: seq<nat>, k: nat)
    requires Chain(fat, n, p) && k < |p| && n <= 4084
    ensures Walk(fat, p[k], k) == p[k..]
    decreases |p| - k
  {
    assert Good(fat, n, p[k]);
    if k + 1 < |p| {
      WalkIsChain(fat, n, p, k + 1);
    } else {
      assert p[k..] == [p[k]];
    }
  }

  lemma WalkStep(fat: seq<Byte>, cl: nat, cls: seq<nat>)
    requires Cluster(cl) && |cls| < CHAIN_MAX
    ensures cls + Walk(fat, cl, |cls|) == (cls + [cl]) + Walk(fat, Ent(fat, cl), |cls| + 1)
  {
  }

  lemma WalkAll(fat: seq<Byte>, n: nat, chains: map<nat, seq<nat>>, start: nat)
    requires Forest(fat, n, chains) && (start in chains || !Cluster(start))
    ensures Walk(fat, start, 0) == if start in chains then chains[start] else []
  {
    if start in chains {
      WalkIsChain(fat, n, chains[start], 0);
    }
  }

  lemma WalkEnds(fat: seq<Byte>, cl: nat, hops: nat)
    requires hops <= CHAIN_MAX
    ensures !Cluster(cl) || hops == CHAIN_MAX ==> Walk(fat, cl, hops) == []
  {
  }

  function Elems(p: seq<nat>): set<nat> {
    set c | c in p
  }

  lemma ElemsAdd(p: seq<nat>, c: nat)
    ensures Elems(p + [c]) == Elems(p) + {c}
  {
  }

  lemma ElemsNone()
    ensures Elems([]) == {}
  {
  }

  /** The part of a chain past its first `k` clusters. */
  function Tail(p: seq<nat>, k: nat): seq<nat> {
    if k < |p| then p[k..] else []
  }

  /** The clusters of the volume that are free. */
  function FreeSet(fat: seq<Byte>, n: nat): set<nat> {
    set c: nat | 2 <= c <= n + 1 && Ent(fat, c) == 0
  }

  /** A free cluster is in no chain. */
  lemma FreeIsOutside(fat: seq<Byte>, n: nat, p: seq<nat>, c: nat)
    requires Chain(fat, n, p) && Ent(fat, c) == 0
    ensures c !in p
  {
    forall i | 0 <= i < |p| ensures p[i] != c {
      assert i + 1 < |p| ==> Good(fat, n, p[i + 1]);
    }
  }

  /** A chain none of whose entries changed is still a chain. */
  lemma ChainKept(fat: seq<Byte>, fat': seq<Byte>, n: nat, p: seq<nat>)
    requires Chain(fat, n, p) && |fat'| == |fat| && forall c <- p :: Ent(fat', c) == Ent(fat, c)
    ensures Chain(fat', n, p)
  {
    forall i | 0 <= i < |p| ensures Good(fat', n, p[i]) && Ent(fat', p[i]) == Ent(fat, p[i]) {
      assert Good(fat, n, p[i]) && p[i] in p;
    }
  }

  /** Replacing one chain: the others did not change, the new one is a chain and keeps to itself. */
  lemma ForestUpdate(fat: seq<Byte>, fat': seq<Byte>, n: nat, chains: map<nat, seq<nat>>, p: seq<nat>)
    requires Forest(fat, n, chains) && |fat'| == |fat| && Chain(fat', n, p)
    requires forall h | h in chains && h != p[0] :: Apart(chains[h], p)
    requires forall h, c | h in chains && h != p[0] && c in chains[h] :: Ent(fat', c) == Ent(fat, c)
    ensures Forest(fat', n, chains[p[0] := p])
  {
    var m := chains[p[0] := p];
    forall h | h in m ensures Chain(fat', n, m[h]) && m[h][0] == h {
      if h != p[0] {
        ChainKept(fat, fat', n, chains[h]);
      }
    }
    forall h, k | h in m && k in m && h != k ensures Apart(m[h], m[k]) {
      assert h == p[0] ==> Apart(chains[k], p);
      assert k == p[0] ==> Apart(chains[h], p);
    }
  }

  lemma ForestDrop(fat: seq<Byte>, fat': seq<Byte>, n: nat, chains: map<nat, seq<nat>>, h: nat)
    requires Forest(fat, n, chains) && |fat'| == |fat|
    requires forall k, c | k in chains && k != h && c in chains[k] :: Ent(fat', c) == Ent(fat, c)
    ensures Forest(fat', n, chains - {h})
  {
    forall k | k in chains - {h} ensures Chain(fat', n, (chains - {h})[k]) {
      ChainKept(fat, fat', n, chains[k]);
    }
  }

  lemma FreeInTable(fat: seq<Byte>, c: nat)
    requires Ent(fat, c) == 0
    ensures InTable(fat, c)
  {
  }

  lemma FreeMember(fat: seq<Byte>, n: nat, c: nat)
    requires 2 <= c <= n + 1 && Ent(fat, c) == 0
    ensures c in FreeSet(fat, n)
  {
  }

  lemma FreedSet(fat: seq<Byte>, fat': seq<Byte>, n: nat, p: seq<nat>)
    requires p == [] || Chain(fat, n, p)
    requires forall c: nat :: Ent(fat', c) == if c in p then 0 else Ent(fat, c)
    ensures FreeSet(fat', n) == FreeSet(fat, n) + Elems(p)
  {
    hide Ent;
    forall c <- p ensures 2 <= c <= n + 1 {
      var i :| 0 <= i < |p| && p[i] == c;
      assert Good(fat, n, p[i]);
    }
  }

  /** A free cluster becomes a chain of its own. */
  lemma NewChain(fat: seq<Byte>, n: nat, chains: map<nat, seq<nat>>, c: nat)
    requires Forest(fat, n, chains) && 2 <= c <= n + 1 && Ent(fat, c) == 0
    ensures c !in chains && Forest(Put(fat, c, EOF), n, chains[c := [c]])
    ensures FreeSet(Put(fat, c, EOF), n) == FreeSet(fat, n) - {c}
  {
    var fat' := Put(fat, c, EOF);
    forall x: nat ensures Ent(fat', x) == if x == c then EOF else Ent(fat, x) {
      PutEnt(fat, c, EOF, x);
    }
    forall h | h in chains ensures Apart(chains[h], [c]) && h != c && c !in chains[h] {
      FreeIsOutside(fat, n, chains[h], c);
      assert chains[h][0] == h;
    }
    assert Chain(fat', n, [c]);
    ForestUpdate(fat, fat', n, chains, [c]);
  }

  /** A free cluster joins the end of a chain. */
  lemma ExtendChain(fat: seq<Byte>, n: nat, chains: map<nat, seq<nat>>, h: nat, c: nat)
    requires Forest(fat, n, chains) && h in chains && |chains[h]| < CHAIN_MAX && 2 <= c <= n + 1 && Ent(fat, c) == 0
    ensures var fat' := Put(Put(fat, c, EOF), chains[h][|chains[h]| - 1], c);
      && Forest(fat', n, chains[h := chains[h] + [c]])
      && FreeSet(fat', n) == FreeSet(fat, n) - {c}
      && forall x: nat | x != c && x != chains[h][|chains[h]| - 1] :: Ent(fat', x) == Ent(fat, x)
  {
    hide Put, Ent, FreeSet;
    var p := chains[h];
    var last := p[|p| - 1];
    var fat' := Put(Put(fat, c, EOF), last, c);
    FreeIsOutside(fat, n, p, c);
    assert Good(fat, n, last) && last in p;
    forall x: nat ensures Ent(fat', x) == if x == last then c else if x == c then EOF else Ent(fat, x) {
      LinkEnt(fat, c, last, x);
    }
    ExtendedIsChain(fat, fat', n, p, c);
    forall k | k in chains && k != h ensures Apart(chains[k], p + [c]) && forall x <- chains[k] :: Ent(fat', x) == Ent(fat, x) {
      FreeIsOutside(fat, n, chains[k], c);
      assert Apart(chains[k], p);
    }
    assert (p + [c])[0] == h;
    ForestUpdate(fat, fat', n, chains, p + [c]);
    TakenFromFree(fat, fat', n, c, last);
  }

  lemma ChainNotEmpty(fat: seq<Byte>, n: nat, chains: map<nat, seq<nat>>, h: nat)
    requires Forest(fat, n, chains) && h in chains
    ensures 0 < |chains[h]|
  {
  }

  /** A free cluster goes to the end of the chain at `start`, or begins one. */
  lemma Appended(fat: seq<Byte>, n: nat, chains: map<nat, seq<nat>>, start: nat, cls: seq<nat>, c: nat)
    requires Forest(fat, n, chains) && |cls| < CHAIN_MAX && 2 <= c <= n + 1 && Ent(fat, c) == 0
    requires if start in chains then cls == chains[start] else cls == [] && !Cluster(start)
    ensures cls != [] <==> start in chains
    ensures c in FreeSet(fat, n) && (cls != [] ==> cls[0] == start)
    ensures var q := cls + [c];
      var fat' := if cls == [] then Put(fat, c, EOF) else Put(Put(fat, c, EOF), cls[|cls| - 1], c);
      && Forest(fat', n, chains[q[0] := q]) && FreeSet(fat', n) == FreeSet(fat, n) - {c}
      && forall x: nat | x !in q :: Ent(fat', x) == Ent(fat, x)
  {
    hide Forest, Ent, Put, FreeSet, Chain, Off;
    StartIsCluster(fat, n, chains, start);
    if start in chains {
      ChainNotEmpty(fat, n, chains, start);
    }
    FreeMember(fat, n, c);
    var q := cls + [c];
    assert q[|cls|] == c;
    if cls != [] {
      ExtendChain(fat, n, chains, start, c);
      assert q[|cls| - 1] == cls[|cls| - 1] && q[0] == start;
    } else {
      NewChain(fat, n, chains, c);
      forall x: nat | x != c ensures Ent(Put(fat, c, EOF), x) == Ent(fat, x) {
        PutEnt(fat, c, EOF, x);
      }
      assert q == [c];
    }
  }

  lemma LinkEnt(fat: seq<Byte>, c: nat, last: nat, x: nat)
    requires Ent(fat, c) == 0 && InTable(fat, last) && c < 0x1000
    ensures Ent(Put(Put(fat, c, EOF), last, c), x) == if x == last then c else if x == c then EOF else Ent(fat, x)
  {
    FreeInTable(fat, c);
    hide Put, Ent, Off;
    PutSmall(fat, c, EOF, x);
    PutSmall(Put(fat, c, EOF), last, c, x);
  }

  lemma TakenFromFree(fat: seq<Byte>, fat': seq<Byte>, n: nat, c: nat, last: nat)
    requires Ent(fat, last) != 0 && c >= 2
    requires forall x: nat :: Ent(fat', x) == if x == last then c else if x == c then EOF else Ent(fat, x)
    ensures FreeSet(fat', n) == FreeSet(fat, n) - {c}
  {
    hide Ent;
  }

  lemma ExtendedIsChain(fat: seq<Byte>, fat': seq<Byte>, n: nat, p: seq<nat>, c: nat)
    requires Chain(fat, n, p) && |p| < CHAIN_MAX && |fat'| == |fat| && 2 <= c <= n + 1 && Ent(fat, c) == 0 && c !in p
    requires forall x: nat :: Ent(fat', x) == if x == p[|p| - 1] then c else if x == c then EOF else Ent(fat, x)
    ensures Chain(fat', n, p + [c])
  {
    var q := p + [c];
    forall i | 0 <= i < |q| ensures Good(fat', n, q[i]) && Ent(fat', q[i]) == if i + 1 < |q| then q[i + 1] else EOF {
      if i < |p| {
        assert Good(fat, n, p[i]) && p[i] in p;
      }
    }
  }

  /** The entries of a chain past the first `k` set to free, last one first. */
  function Cut(fat: seq<Byte>, p: seq<nat>, k: nat): (r: seq<Byte>)
    requires k <= |p|
    ensures |r| == |fat|
    decreases |p| - k
  {
    if k == |p| then fat else Put(Cut(fat, p, k + 1), p[k], 0)
  }

  lemma {:induction false} CutEnt(fat: seq<Byte>, n: nat, p: seq<nat>, k: nat, c: nat)
    requires k <= |p| && forall i | 0 <= i < |p| :: Good(fat, n, p[i])
    ensures Ent(Cut(fat, p, k), c) == if c in p[k..] then 0 else Ent(fat, c)
    decreases |p| - k
  {
    if k < |p| {
      CutEnt(fat, n, p, k + 1, c);
      PutEnt(Cut(fat, p, k + 1), p[k], 0, c);
      assert p[k..] == [p[k]] + p[k + 1..];
      assert Good(fat, n, p[k]);
    }
  }

  /** A chain cut to its first `k` clusters: the tail is free, nothing else changed. */
  lemma CutChain(fat: seq<Byte>, n: nat, chains: map<nat, seq<nat>>, h: nat, k: nat)
    requires Forest(fat, n, chains) && h in chains && 0 < k <= |chains[h]|
    ensures var fat' := Put(Cut(fat, chains[h], k), chains[h][k - 1], EOF);
      && Forest(fat', n, chains[h := chains[h][..k]])
      && (forall x: nat | x !in chains[h] :: Ent(fat', x) == Ent(fat, x))
      && (forall x: nat :: Ent(fat', x) == 0 <==> Ent(fat, x) == 0 || x in chains[h][k..])
  {
    hide Put, Ent, Cut;
    var p := chains[h];
    var fat' := Put(Cut(fat, p, k), p[k - 1], EOF);
    assert p == p[..k] + p[k..];
    forall x: nat ensures Ent(fat', x) == if x in p[k..] then 0 else if x == p[k - 1] then EOF else Ent(fat, x) {
      CutEnt(fat, n, p, k, x);
      PutEnt(Cut(fat, p, k), p[k - 1], EOF, x);
      assert Good(fat, n, p[k - 1]);
    }
    CutIsChain(fat, fat', n, p, k);
    forall g | g in chains && g != h ensures Apart(chains[g], p[..k]) && forall x <- chains[g] :: Ent(fat', x) == Ent(fat, x) {
      assert Apart(chains[g], p);
    }
    assert p[..k][0] == h;
    ForestUpdate(fat, fat', n, chains, p[..k]);
    forall x: nat ensures Ent(fat', x) == 0 <==> Ent(fat, x) == 0 || x in p[k..] {
      if Ent(fat, x) == 0 {
        FreeIsOutside(fat, n, p, x);
      }
    }
  }

  lemma CutIsChain(fat: seq<Byte>, fat': seq<Byte>, n: nat, p: seq<nat>, k: nat)
    requires Chain(fat, n, p) && 0 < k <= |p| && |fat'| == |fat|
    requires forall x: nat :: Ent(fat', x) == if x in p[k..] then 0 else if x == p[k - 1] then EOF else Ent(fat, x)
    ensures Chain(fat', n, p[..k])
  {
    var q := p[..k];
    forall i | 0 <= i < k ensures Good(fat', n, q[i]) && Ent(fat', q[i]) == if i + 1 < k then q[i + 1] else EOF {
      assert Good(fat, n, p[i]);
      assert p[i] !in p[k..];
      assert i != k - 1 ==> p[i] != p[k - 1];
    }
  }

  lemma StartIsCluster(fat: seq<Byte>, n: nat, chains: map<nat, seq<nat>>, h: nat)
    requires Forest(fat, n, chains)
    ensures n <= 4084
    ensures h in chains ==> Cluster(h) && Chain(fat, n, chains[h]) && chains[h][0] == h && h in chains[h]
  {
    assert h in chains ==> Good(fat, n, chains[h][0]);
  }

  /** One place of a chain: its entry names the next place, or ends the walk. */
  lemma ChainAt(fat: seq<Byte>, n: nat, p: seq<nat>, k: nat)
    requires Chain(fat, n, p) && k < |p| && n <= 4084
    ensures p[k] !in p[..k] && InTable(fat, p[k]) && Cluster(p[k])
    ensures k + 1 < |p| ==> Ent(fat, p[k]) == p[k + 1] && Cluster(p[k + 1])
    ensures k + 1 == |p| ==> !Cluster(Ent(fat, p[k]))
  {
    assert Good(fat, n, p[k]);
    assert k + 1 < |p| ==> Good(fat, n, p[k + 1]);
  }

  lemma ChainsApart(fat: seq<Byte>, n: nat, chains: map<nat, seq<nat>>, k: nat, h: nat, c: nat)
    requires Forest(fat, n, chains) && k in chains && k != h && c in chains[k]
    ensures h in chains ==> c !in chains[h]
  {
    assert h in chains ==> Apart(chains[k], chains[h]);
  }

  /** What `fat_resize` leaves: a chain that shares its beginning with the old one and took only free clusters. */
  ghost predicate Resized(was: Table, now: Table, n: nat, p: seq<nat>, q: seq<nat>) {
    && q != [] && now.chains == was.chains[q[0] := q]
    && (forall i | 0 <= i < |p| && i < |q| :: q[i] == p[i])
    && (forall i | |p| <= i < |q| :: q[i] in FreeSet(was.fat, n))
    && (forall x: nat | x !in p && x !in q :: Ent(now.fat, x) == Ent(was.fat, x))
  }

  /** A table and the chains it holds. */
  datatype Table = Table(fat: seq<Byte>, chains: map<nat, seq<nat>>)

  lemma ResizedMore(was: Table, mid: Table, now: Table, n: nat, p: seq<nat>, q: seq<nat>, q': seq<nat>)
    requires |p| <= |q| && if q == [] then mid == was else Resized(was, mid, n, p, q)
    requires |q'| == |q| + 1 && q'[..|q|] == q && now.chains == mid.chains[q'[0] := q']
    requires q'[|q|] in FreeSet(mid.fat, n) && FreeSet(mid.fat, n) <= FreeSet(was.fat, n)
    requires forall x: nat | x !in q' :: Ent(now.fat, x) == Ent(mid.fat, x)
    ensures Resized(was, now, n, p, q')
  {
    hide Ent, FreeSet;
    assert q' == q + [q'[|q|]];
    assert forall i | 0 <= i < |q| :: q'[i] == q[i];
  }

  lemma ResizedCut(was: Table, mid: Table, now: Table, n: nat, p: seq<nat>, q: seq<nat>, k: nat)
    requires if q == p then mid == was && p != [] else Resized(was, mid, n, p, q) && k == |q|
    requires 0 < k <= |q| && now.chains == mid.chains[q[0] := q[..k]]
    requires forall x: nat | x !in q :: Ent(now.fat, x) == Ent(mid.fat, x)
    ensures Resized(was, now, n, p, q[..k])
  {
    hide Ent, FreeSet;
    assert q != p ==> q[..k] == q;
  }

  /** Where the growing loop stands. */
  ghost predicate Growing(was: Table, now: Table, n: nat, start: nat, p: seq<nat>, start': nat, cls: seq<nat>) {
    && |p| <= |cls|
    && (if start' in now.chains then cls == now.chains[start'] && cls != [] && cls[0] == start' else cls == [] && !Cluster(start'))
    && (if cls == p then now == was && start' == start else Resized(was, now, n, p, cls))
    && (p != [] ==> start' == start)
    && |FreeSet(was.fat, n)| == |FreeSet(now.fat, n)| + |cls| - |p|
    && FreeSet(now.fat, n) == FreeSet(was.fat, n) - Elems(cls[|p|..])
  }

  lemma GrowingOn(was: Table, now: Table, n: nat, start: nat, p: seq<nat>, start': nat, cls: seq<nat>)
    requires Growing(was, now, n, start, p, start', cls)
    ensures if start' in now.chains then cls == now.chains[start'] else cls == [] && !Cluster(start')
  {
  }

  lemma GrowingEnds(was: Table, now: Table, n: nat, start: nat, p: seq<nat>, start': nat, cls: seq<nat>)
    requires Growing(was, now, n, start, p, start', cls)
    ensures |p| <= |cls| && (p != [] ==> start' == start)
    ensures if cls == p then now == was && start' == start else Resized(was, now, n, p, cls)
    ensures if start' in now.chains then cls == now.chains[start'] && cls != [] && cls[0] == start' else cls == []
    ensures |FreeSet(was.fat, n)| == |FreeSet(now.fat, n)| + |cls| - |p|
    ensures FreeSet(now.fat, n) == FreeSet(was.fat, n) - Elems(cls[|p|..])
  {
    hide Resized, FreeSet, Elems;
  }

  lemma GrowingMore(was: Table, mid: Table, now: Table, n: nat, start: nat, p: seq<nat>, st: nat, q: seq<nat>, st': nat, q': seq<nat>)
    requires Growing(was, mid, n, start, p, st, q)
    requires |q'| == |q| + 1 && q'[..|q|] == q && q'[0] == st' && (q != [] ==> st' == st) && now.chains == mid.chains[st' := q']
    requires q'[|q|] in FreeSet(mid.fat, n) && FreeSet(now.fat, n) == FreeSet(mid.fat, n) - {q'[|q|]}
    requires forall x: nat | x !in q' :: Ent(now.fat, x) == Ent(mid.fat, x)
    ensures Growing(was, now, n, start, p, st', q')
  {
    hide Resized, FreeSet, Elems, Ent;
    if q == p && q != [] {
      ResizedSame(was, n, p, start);
    }
    ResizedMore(was, mid, now, n, p, q, q');
    assert q'[|p|..] == q[|p|..] + [q'[|q|]];
    ElemsAdd(q[|p|..], q'[|q|]);
  }

  // ----- the table in memory -----

  /** `g_fat` with the number of clusters, and the chains it holds. */
  class Fat {
    const bytes: array<Byte>
    const clusters: nat
    ghost var chains: map<nat, seq<nat>>

    ghost predicate Valid()
      reads this, bytes
    {
      Forest(bytes[..], clusters, chains)
    }

    constructor (table: seq<Byte>, clusters: nat, ghost chains: map<nat, seq<nat>>)
      requires Forest(table, clusters, chains)
      ensures Valid() && bytes[..] == table && this.clusters == clusters && this.chains == chains && fresh(bytes)
    {
      bytes := new Byte[|table|](i requires 0 <= i < |table| => table[i]);
      this.clusters := clusters;
      this.chains := chains;
      new;
      assert bytes[..] == table;
    }

    function Get(cl: nat): (v: nat)
      reads bytes
      ensures v == Ent(bytes[..], cl)
    {
      var off := cl + cl / 2;
      if off + 1 >= bytes.Length then EOF
      else
        var v := bytes[off] as nat + bytes[off + 1] as nat * 256;
        if cl % 2 != 0 then v / 16 else v % 0x1000
    }

    method Set(cl: nat, val: nat)
      modifies bytes
      ensures bytes[..] == Put(old(bytes[..]), cl, val)
    {
      var off, v := cl + cl / 2, val % 0x1000;
      if off + 1 >= bytes.Length {
        return;
      }
      if cl % 2 != 0 {
        bytes[off] := ((bytes[off] as nat % 16) + (v % 16) * 16) as Byte;
        bytes[off + 1] := (v / 16) as Byte;
      } else {
        bytes[off] := (v % 256) as Byte;
        bytes[off + 1] := ((bytes[off + 1] as nat / 16) * 16 + v / 256) as Byte;
      }
    }

    /** `fat_alloc`: the last free cluster, marked as an end; 0 exactly when none is free. */
    method Alloc() returns (cl: nat)
      modifies bytes
      ensures cl == 0 <==> FreeSet(old(bytes[..]), clusters) == {}
      ensures cl == 0 ==> bytes[..] == old(bytes[..])
      ensures cl != 0 ==> 2 <= cl <= clusters + 1 && Ent(old(bytes[..]), cl) == 0 && bytes[..] == Put(old(bytes[..]), cl, EOF)
      ensures forall c | 2 <= c <= clusters + 1 && cl < c :: Ent(old(bytes[..]), c) != 0
    {
      ghost var was := bytes[..];
      cl := clusters + 1;
      while cl >= 2
        invariant cl <= clusters + 1 && bytes[..] == was
        invariant forall c | cl < c <= clusters + 1 :: Ent(was, c) != 0
      {
        var v := Get(cl);
        if v == 0 {
          assert cl in FreeSet(was, clusters);
          Set(cl, EOF);
          return;
        }
        cl := cl - 1;
      }
      assert FreeSet(was, clusters) == {};
      cl := 0;
    }

    /** `fat_free_chain`: every cluster of the chain, and no other, becomes free. */
    method FreeChain(start: nat)
      requires Valid() && (start in chains || !Cluster(start))
      modifies this`chains, bytes
      ensures Valid() && chains == old(chains) - {start}
      ensures forall c: nat :: Ent(bytes[..], c) == if start in old(chains) && c in old(chains[start]) then 0 else Ent(old(bytes[..]), c)
      ensures FreeSet(bytes[..], clusters) == FreeSet(old(bytes[..]), clusters) + if start in old(chains) then Elems(old(chains[start])) else {}
    {
      hide Put, Ent, Good, Forest, Fat.Get;
      ghost var was := bytes[..];
      ghost var p := if start in chains then chains[start] else [];
      StartIsCluster(was, clusters, chains, start);
      var cl, hops := start, 0;
      while cl >= 2 && cl < EOF && hops < CHAIN_MAX
        invariant 0 <= cl && hops <= |p| && |bytes[..]| == |was| && chains == old(chains)
        invariant start in chains <==> p != []
        invariant hops < |p| ==> cl == p[hops] && Cluster(cl) && hops < CHAIN_MAX
        invariant hops == |p| ==> !Cluster(cl)
        invariant forall c: nat :: Ent(bytes[..], c) == if c in p[..hops] then 0 else Ent(was, c)
        decreases CHAIN_MAX - hops
      {
        ChainAt(was, clusters, p, hops);
        var next := Get(cl);
        ghost var now := bytes[..];
        Set(cl, 0);
        forall c: nat ensures Ent(bytes[..], c) == if c in p[..hops + 1] then 0 else Ent(was, c) {
          PutEnt(now, cl, 0, c);
          assert p[..hops + 1] == p[..hops] + [p[hops]];
        }
        cl := next;
        hops := hops + 1;
      }
      assert p[..|p|] == p;
      chains := chains - {start};
      forall k, c | k in old(chains) && k != start && c in old(chains)[k] ensures Ent(bytes[..], c) == Ent(was, c) {
        ChainsApart(was, clusters, old(chains), k, start, c);
      }
      ForestDrop(was, bytes[..], clusters, old(chains), start);
      FreedSet(was, bytes[..], clusters, p);
    }

    /** Gives back a cluster that was just allocated. */
    method Undo(cl: nat)
      requires Valid() && cl in chains && chains[cl] == [cl]
      modifies this`chains, bytes
      ensures Valid() && chains == old(chains) - {cl}
      ensures forall c: nat :: Ent(bytes[..], c) == if c == cl then 0 else Ent(old(bytes[..]), c)
    {
      hide Put, Ent, Forest, FreeSet;
      ghost var was := bytes[..];
      StartIsCluster(was, clusters, chains, cl);
      ChainAt(was, clusters, [cl], 0);
      Set(cl, 0);
      forall c: nat ensures Ent(bytes[..], c) == if c == cl then 0 else Ent(was, c) {
        PutSmall(was, cl, 0, c);
      }
      chains := chains - {cl};
      forall k, c | k in old(chains) && k != cl && c in old(chains)[k] ensures Ent(bytes[..], c) == Ent(was, c) {
        ChainsApart(was, clusters, old(chains), k, cl, c);
      }
      ForestDrop(was, bytes[..], clusters, old(chains), cl);
    }

    /** `fat_alloc` as the caller sees it: a chain of one cluster, or 0 when none is free. */
    method Begin() returns (cl: nat)
      requires Valid()
      modifies this`chains, bytes
      ensures Valid() && (cl == 0 <==> FreeSet(old(bytes[..]), clusters) == {})
      ensures cl == 0 ==> Now() == old(Now())
      ensures cl != 0 ==> cl !in old(chains) && chains == old(chains)[cl := [cl]] && cl in FreeSet(old(bytes[..]), clusters)
      ensures cl != 0 ==> forall c: nat | c != cl :: Ent(bytes[..], c) == Ent(old(bytes[..]), c)
      ensures cl != 0 ==> FreeSet(bytes[..], clusters) == FreeSet(old(bytes[..]), clusters) - {cl}
    {
      hide Put, Ent, Forest, FreeSet;
      ghost var was := bytes[..];
      cl := Alloc();
      if cl != 0 {
        NewChain(was, clusters, chains, cl);
        assert cl in FreeSet(was, clusters) by { FreeMember(was, clusters, cl); }
        forall c: nat | c != cl ensures Ent(bytes[..], c) == Ent(was, c) {
          PutSmall(was, cl, EOF, c);
        }
        chains := chains[cl := [cl]];
      }
    }

    /** The clusters of a chain, in order. */
    method Collect(start: nat) returns (cls: seq<nat>)
      requires Valid() && (start in chains || !Cluster(start))
      ensures cls == if start in chains then chains[start] else []
    {
      hide Forest, Ent, Walk, Chain, InTable, Fat.Get;
      WalkAll(bytes[..], clusters, chains, start);
      var cl := start;
      cls := [];
      while cl >= 2 && cl < EOF && |cls| < CHAIN_MAX
        invariant 0 <= cl && |cls| <= CHAIN_MAX && cls + Walk(bytes[..], cl, |cls|) == Walk(bytes[..], start, 0)
        decreases CHAIN_MAX - |cls|
      {
        WalkStep(bytes[..], cl, cls);
        cls := cls + [cl];
        cl := Get(cl);
      }
      WalkEnds(bytes[..], cl, |cls|);
    }

    /** One round of the growing loop: a free cluster joins the end, or none is free. */
    method Append(start: nat, cls: seq<nat>) returns (ok: bool, start': nat, cls': seq<nat>)
      requires Valid() && |cls| < CHAIN_MAX
      requires if start in chains then cls == chains[start] else cls == [] && !Cluster(start)
      modifies this`chains, bytes
      ensures Valid() && ok == (FreeSet(old(bytes[..]), clusters) != {})
      ensures !ok ==> start' == start && cls' == cls && chains == old(chains) && bytes[..] == old(bytes[..])
      ensures ok ==> |cls'| == |cls| + 1 && cls'[..|cls|] == cls && cls'[0] == start' && (cls != [] ==> start' == start)
      ensures ok ==> chains == old(chains)[start' := cls'] && cls'[|cls|] in FreeSet(old(bytes[..]), clusters)
      ensures ok ==> FreeSet(bytes[..], clusters) == FreeSet(old(bytes[..]), clusters) - {cls'[|cls|]}
      ensures ok ==> forall x: nat | x !in cls' :: Ent(bytes[..], x) == Ent(old(bytes[..]), x)
    {
      hide Forest, Ent, Put, FreeSet, InTable;
      ghost var was := bytes[..];
      ok, start', cls' := false, start, cls;
      var c := Alloc();
      if c == 0 {
        return;
      }
      Appended(was, clusters, chains, start, cls, c);
      ok, cls' := true, cls + [c];
      if |cls| > 0 {
        Set(cls[|cls| - 1], c);
      } else {
        start' := c;
      }
      chains := chains[start' := cls'];
    }

    /** The shrinking loop and the final end mark. */
    method CutTo(cls: seq<nat>, need: nat)
      requires Valid() && 0 < need <= |cls| && cls[0] in chains && cls == chains[cls[0]]
      modifies this`chains, bytes
      ensures Valid() && chains == old(chains)[cls[0] := cls[..need]]
      ensures forall x: nat | x !in cls :: Ent(bytes[..], x) == Ent(old(bytes[..]), x)
      ensures forall x: nat :: Ent(bytes[..], x) == 0 <==> Ent(old(bytes[..]), x) == 0 || x in cls[need..]
    {
      hide Forest, Ent, Put;
      ghost var was := bytes[..];
      var have := |cls|;
      while have > need
        invariant need <= have <= |cls| && bytes[..] == Cut(was, cls, have) && chains == old(chains)
      {
        have := have - 1;
        Set(cls[have], 0);
      }
      Set(cls[need - 1], EOF);
      CutChain(was, clusters, chains, cls[0], need);
      chains := chains[cls[0] := cls[..need]];
    }

    ghost function Now(): Table
      reads this, bytes
    {
      Table(bytes[..], chains)
    }

    /** The growing loop, from the chain `p` at `start`. */
    method Grow(start: nat, p: seq<nat>, need: nat) returns (ok: bool, start': nat, cls: seq<nat>)
      requires Valid() && need <= CHAIN_MAX && |p| <= CHAIN_MAX
      requires if start in chains then p == chains[start] else p == [] && !Cluster(start)
      modifies this`chains, bytes
      ensures Valid() && (p != [] ==> start' == start)
      ensures ok <==> |p| + |FreeSet(old(bytes[..]), clusters)| >= need
      ensures if cls == p then Now() == old(Now()) && start' == start else Resized(old(Now()), Now(), clusters, p, cls)
      ensures if start' in chains then cls == chains[start'] && cls != [] && cls[0] == start' else cls == []
      ensures |p| <= |cls| <= CHAIN_MAX
      ensures if ok then need <= |cls| && (cls == p || |cls| == need) else |cls| < need && FreeSet(bytes[..], clusters) == {}
      ensures FreeSet(bytes[..], clusters) == FreeSet(old(bytes[..]), clusters) - Elems(cls[|p|..])
    {
      ghost var was := Now();
      start', cls := start, p;
      assert Growing(was, was, clusters, start, p, start, p) by {
        StartIsCluster(was.fat, clusters, chains, start);
        ElemsNone();
        assert p[|p|..] == [];
      }
      hide Forest, Growing, FreeSet;
      while |cls| < need
        invariant Valid() && Growing(was, Now(), clusters, start, p, start', cls)
        invariant |cls| <= need || cls == p
      {
        ghost var mid := Now();
        GrowingOn(was, mid, clusters, start, p, start', cls);
        var more, st, cls' := Append(start', cls);
        if !more {
          GrowingEnds(was, Now(), clusters, start, p, start', cls);
          return false, start', cls;
        }
        GrowingMore(was, mid, Now(), clusters, start, p, start', cls, st, cls');
        start', cls := st, cls';
      }
      GrowingEnds(was, Now(), clusters, start, p, start', cls);
      ok := true;
    }

    /** `fat_resize`: it succeeds exactly when enough clusters are free, and then exactly the cut tail became free. */
    method Resize(start: nat, need: nat) returns (rc: int, start': nat)
      requires Valid() && (start in chains || !Cluster(start))
      modifies this`chains, bytes
      ensures Valid() && (rc == 0 || rc == -1)
      ensures need == 0 || need > CHAIN_MAX ==> rc == -1 && start' == start && Now() == old(Now())
      ensures start in old(chains) ==> start' == start
      ensures 0 < need <= CHAIN_MAX ==>
                var p := if start in old(chains) then old(chains[start]) else [];
                && (rc == 0 <==> |p| + |FreeSet(old(bytes[..]), clusters)| >= need)
                && (rc == 0 ==> start' in chains && Fitted(old(Now()), Now(), clusters, p, chains[start'], need))
                && (rc != 0 ==> Exhausted(old(Now()), Now(), clusters, p, start', need) && (start' !in chains ==> start' == start))
    {
      hide Forest, Ent, FreeSet, Elems, Resized, Chain, Off, InTable;
      if need == 0 || need > CHAIN_MAX {
        return -1, start;
      }
      ghost var was := Now();
      StartIsCluster(was.fat, clusters, chains, start);
      var p := Collect(start);
      if p != [] {
        NotFree(was.fat, clusters, p);
      }
      var ok, st, cls := Grow(start, p, need);
      start' := st;
      if !ok {
        rc := -1;
        assert cls == p && cls != [] ==> Resized(was, Now(), clusters, p, cls) by { ResizedSame(was, clusters, p, start); }
        return;
      }
      ghost var mid := Now();
      CutTo(cls, need);
      rc := 0;
      ResizedCut(was, mid, Now(), clusters, p, cls, need);
      GrownShares(was, mid, clusters, p, cls);
      FreeAfterCut(was.fat, mid.fat, bytes[..], clusters, p, cls, need);
    }
  }

  /** Success: `need` clusters, and exactly the cut tail became free. */
  ghost predicate Fitted(was: Table, now: Table, n: nat, p: seq<nat>, q: seq<nat>, need: nat) {
    && |q| == need && Resized(was, now, n, p, q)
    && FreeSet(now.fat, n) == FreeSet(was.fat, n) - Elems(q) + Elems(Tail(p, need))
  }

  /** Failure: no cluster is free, and the chain is a longer, valid one. */
  ghost predicate Exhausted(was: Table, now: Table, n: nat, p: seq<nat>, start': nat, need: nat) {
    && FreeSet(now.fat, n) == {}
    && if start' in now.chains then |p| <= |now.chains[start']| < need && Resized(was, now, n, p, now.chains[start'])
       else now == was
  }

  lemma ResizedSame(was: Table, n: nat, p: seq<nat>, start: nat)
    requires p != [] ==> start in was.chains && was.chains[start] == p && p[0] == start
    ensures p != [] ==> Resized(was, was, n, p, p)
  {
    assert p != [] ==> was.chains[start := p] == was.chains;
  }

  lemma GrownShares(was: Table, mid: Table, n: nat, p: seq<nat>, q: seq<nat>)
    requires |p| <= |q| && (q == p || Resized(was, mid, n, p, q))
    ensures forall i | 0 <= i < |p| :: p[i] == q[i]
  {
  }

  lemma NotFree(fat: seq<Byte>, n: nat, p: seq<nat>)
    requires Chain(fat, n, p)
    ensures forall i | 0 <= i < |p| :: Good(fat, n, p[i]) && Ent(fat, p[i]) != 0
  {
    forall i | 0 <= i < |p| ensures Good(fat, n, p[i]) && Ent(fat, p[i]) != 0 {
      assert i + 1 < |p| ==> Good(fat, n, p[i + 1]);
    }
  }

  lemma FreeAfterCut(was: seq<Byte>, mid: seq<Byte>, now: seq<Byte>, n: nat, p: seq<nat>, cls: seq<nat>, need: nat)
    requires |p| <= |cls| && (cls == p || |cls| == need) && 0 < need <= |cls|
    requires forall i | 0 <= i < |p| :: Good(was, n, p[i]) && Ent(was, p[i]) != 0 && p[i] == cls[i]
    requires FreeSet(mid, n) == FreeSet(was, n) - Elems(cls[|p|..])
    requires forall x: nat :: Ent(now, x) == 0 <==> Ent(mid, x) == 0 || x in cls[need..]
    ensures FreeSet(now, n) == FreeSet(was, n) - Elems(cls[..need]) + Elems(Tail(p, need))
  {
    hide Ent;
    forall x <- Elems(p) ensures x !in FreeSet(was, n) && 2 <= x <= n + 1 {
      var i :| 0 <= i < |p| && p[i] == x;
      assert Good(was, n, p[i]) && Ent(was, p[i]) != 0;
    }
    if cls == p {
      assert cls[|p|..] == [] && Tail(p, need) == p[need..];
      assert p == p[..need] + p[need..];
      ElemsOfSum(p[..need], p[need..]);
      assert FreeSet(now, n) == FreeSet(mid, n) + Elems(p[need..]);
    } else {
      assert cls[need..] == [] && cls[..need] == cls && cls == p + cls[|p|..];
      ElemsOfSum(p, cls[|p|..]);
      assert Tail(p, need) == [] && FreeSet(now, n) == FreeSet(mid, n);
    }
  }

  lemma ElemsOfSum(p: seq<nat>, q: seq<nat>)
    ensures Elems(p + q) == Elems(p) + Elems(q)
  {
  }
}
