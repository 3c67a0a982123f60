/**
 `cow_tab` of `kernel/vmm.c`: 256 slots that count the mappings of frames mapped more than once.
 The table is read as a map from frame to count; `CopyOnWrite` says what those counts mean.
 */
module ShareTables {
  import opened CopyOnWrite

  const COW_MAX: nat := 256

  /** A slot with no references is empty. */
  datatype Slot = Slot(phys: nat, refs: nat)

  predicate Holds(e: Slot, f: nat) {
    e.refs != 0 && e.phys == f
  }

  /** Every used slot gives the count of its frame, every counted frame has a slot, and only one. */
  ghost predicate Mirrors(ents: seq<Slot>, counts: map<nat, nat>) {
    && (forall i | 0 <= i < |ents| && ents[i].refs != 0 :: ents[i].phys in counts && counts[ents[i].phys] == ents[i].refs)
    && (forall i, j | 0 <= i < j < |ents| && ents[i].refs != 0 && ents[j].refs != 0 :: ents[i].phys != ents[j].phys)
    && (forall f <- counts :: exists i | 0 <= i < |ents| :: Holds(ents[i], f))
  }

  lemma MirrorsAfterUpdate(ents: seq<Slot>, counts: map<nat, nat>, i: nat, e: Slot)
    requires Mirrors(ents, counts) && i < |ents| && e.refs != 0
    requires Holds(ents[i], e.phys) || (ents[i].refs == 0 && e.phys !in counts)
    ensures Mirrors(ents[i := e], counts[e.phys := e.refs])
  {
    var ents', counts' := ents[i := e], counts[e.phys := e.refs];
    forall f <- counts' ensures exists j | 0 <= j < |ents'| :: Holds(ents'[j], f) {
      if f == e.phys {
        assert Holds(ents'[i], f);
      } else {
        var j :| 0 <= j < |ents| && Holds(ents[j], f);
        assert Holds(ents'[j], f);
      }
    }
  }

  lemma MirrorsAfterEmpty(ents: seq<Slot>, counts: map<nat, nat>, i: nat, f: nat)
    requires Mirrors(ents, counts) && i < |ents| && Holds(ents[i], f)
    ensures Mirrors(ents[i := Slot(0, 0)], counts - {f})
  {
    var ents', counts' := ents[i := Slot(0, 0)], counts - {f};
    forall g <- counts' ensures exists j | 0 <= j < |ents'| :: Holds(ents'[j], g) {
      var j :| 0 <= j < |ents| && Holds(ents[j], g);
      assert Holds(ents'[j], g);
    }
  }

  ghost function FramesIn(ents: seq<Slot>, n: nat): set<nat>
    requires n <= |ents|
  {
    set i | 0 <= i < n && ents[i].refs != 0 :: ents[i].phys
  }

  /** A table whose slots are all used counts as many frames as it has slots. */
  lemma {:induction false} FullTable(ents: seq<Slot>, n: nat)
    requires n <= |ents|
    requires forall i, j | 0 <= i < j < |ents| && ents[i].refs != 0 && ents[j].refs != 0 :: ents[i].phys != ents[j].phys
    ensures |FramesIn(ents, n)| <= n
    ensures (forall i | 0 <= i < n :: ents[i].refs != 0) <==> |FramesIn(ents, n)| == n
  {
    if n == 0 {
    } else {
      FullTable(ents, n - 1);
      FramesStep(ents, n - 1);
    }
  }

  lemma FramesStep(ents: seq<Slot>, n: nat)
    requires n < |ents|
    requires forall i | 0 <= i < n && ents[i].refs != 0 && ents[n].refs != 0 :: ents[i].phys != ents[n].phys
    ensures |FramesIn(ents, n + 1)| == |FramesIn(ents, n)| + if ents[n].refs == 0 then 0 else 1
  {
    var s := FramesIn(ents, n);
    if ents[n].refs == 0 {
      assert FramesIn(ents, n + 1) == s;
    } else {
      assert FramesIn(ents, n + 1) == s + {ents[n].phys};
      assert ents[n].phys !in s;
    }
  }

  lemma FullMeansMax(ents: seq<Slot>, counts: map<nat, nat>)
    requires Mirrors(ents, counts)
    ensures (forall i | 0 <= i < |ents| :: ents[i].refs != 0) <==> |counts| == |ents|
    ensures |counts| <= |ents|
  {
    FullTable(ents, |ents|);
    assert FramesIn(ents, |ents|) == counts.Keys by {
      forall f <- counts ensures f in FramesIn(ents, |ents|) {
        var i :| 0 <= i < |ents| && Holds(ents[i], f);
        assert ents[i].refs != 0 && ents[i].phys == f;
      }
    }
  }

  class ShareTable {
    const ents: array<Slot>
    ghost var counts: map<nat, nat>

    ghost predicate Valid()
      reads this, ents
    {
      ents.Length == COW_MAX && Mirrors(ents[..], counts)
    }

    lemma Bounded()
      requires Valid()
      ensures |counts| <= COW_MAX
    {
      FullMeansMax(ents[..], counts);
    }

    constructor ()
      ensures Valid() && counts == map[] && fresh(ents)
    {
      ents := new Slot[COW_MAX](_ => Slot(0, 0));
      counts := map[];
    }

    /** The slot of a frame, or the table size if it has none. */
    method Find(f: nat) returns (i: nat)
      requires Valid()
      ensures i <= COW_MAX
      ensures i < COW_MAX ==> Holds(ents[i], f) && f in counts && counts[f] == ents[i].refs
      ensures i == COW_MAX ==> f !in counts
    {
      i := 0;
      while i < COW_MAX && !Holds(ents[i], f)
        invariant 0 <= i <= COW_MAX
        invariant forall j | 0 <= j < i :: !Holds(ents[..][j], f)
      {
        i := i + 1;
      }
    }

    method Put(i: nat, e: Slot)
      requires i < ents.Length
      modifies ents
      ensures ents[..] == old(ents[..])[i := e]
    {
      ents[i] := e;
    }

    method Refs(f: nat) returns (n: nat)
      requires Valid()
      ensures n == Count(counts, f)
    {
      var i := Find(f);
      return if i < COW_MAX then ents[i].refs else 1;
    }

    method Forget(f: nat)
      requires Valid()
      modifies this`counts, ents
      ensures Valid() && counts == old(counts) - {f}
    {
      var i := Find(f);
      if i < COW_MAX {
        MirrorsAfterEmpty(ents[..], counts, i, f);
        Put(i, Slot(0, 0));
        counts := counts - {f};
      }
    }

    /** One more mapping.  Refused exactly when a new entry is needed and all 256 are taken. */
    method Share(f: nat) returns (ok: bool)
      requires Valid()
      modifies this`counts, ents
      ensures Valid()
      ensures !ok <==> f !in old(counts) && |old(counts)| == COW_MAX
      ensures counts == if ok then Shared(old(counts), f) else old(counts)
    {
      var i, empty := FindOrEmpty(f);
      if i < COW_MAX {
        MirrorsAfterUpdate(ents[..], counts, i, Slot(f, ents[i].refs + 1));
        counts := counts[f := ents[i].refs + 1];
        Put(i, Slot(f, ents[i].refs + 1));
        return true;
      }
      if empty == COW_MAX {
        return false;
      }
      MirrorsAfterUpdate(ents[..], counts, empty, Slot(f, 2));
      Put(empty, Slot(f, 2));
      counts := counts[f := 2];
      return true;
    }

    /** One pass that looks for the slot of a frame and remembers the first empty slot. */
    method FindOrEmpty(f: nat) returns (i: nat, empty: nat)
      requires Valid()
      ensures i <= COW_MAX && empty <= COW_MAX
      ensures i < COW_MAX ==> Holds(ents[i], f) && f in counts && counts[f] == ents[i].refs
      ensures i == COW_MAX ==> f !in counts && (empty == COW_MAX <==> |counts| == COW_MAX)
      ensures empty < COW_MAX ==> ents[empty].refs == 0
    {
      i, empty := 0, COW_MAX;
      while i < COW_MAX && !Holds(ents[i], f)
        invariant 0 <= i <= COW_MAX
        invariant forall j | 0 <= j < i :: !Holds(ents[..][j], f)
        invariant 0 <= empty <= COW_MAX
        invariant empty < COW_MAX ==> ents[empty].refs == 0
        invariant empty == COW_MAX ==> forall j | 0 <= j < i :: ents[..][j].refs != 0
      {
        if empty == COW_MAX && ents[i].refs == 0 {
          empty := i;
        }
        i := i + 1;
      }
      FullMeansMax(ents[..], counts);
      assert empty < COW_MAX ==> ents[..][empty].refs == 0;
    }

    /** One mapping less; true if it was the last. */
    method Drop(f: nat) returns (last: bool)
      requires Valid()
      modifies this`counts, ents
      ensures Valid() && counts == Dropped(old(counts), f)
      ensures last <==> Count(old(counts), f) <= 1
    {
      var i := Find(f);
      if i == COW_MAX {
        return true;
      }
      if ents[i].refs - 1 != 0 {
        MirrorsAfterUpdate(ents[..], counts, i, Slot(f, ents[i].refs - 1));
        counts := counts[f := ents[i].refs - 1];
        Put(i, Slot(f, ents[i].refs - 1));
        return false;
      }
      MirrorsAfterEmpty(ents[..], counts, i, f);
      Put(i, Slot(0, 0));
      counts := counts - {f};
      return true;
    }

    /** Takes back a `Share` whose child mapping failed. */
    method Unshare(f: nat)
      requires Valid()
      modifies this`counts, ents
      ensures Valid() && counts == Unshared(old(counts), f)
    {
      var i := Find(f);
      if i == COW_MAX {
        return;
      }
      if ents[i].refs <= 2 {
        MirrorsAfterEmpty(ents[..], counts, i, f);
        Put(i, Slot(0, 0));
        counts := counts - {f};
      } else {
        MirrorsAfterUpdate(ents[..], counts, i, Slot(f, ents[i].refs - 1));
        counts := counts[f := ents[i].refs - 1];
        Put(i, Slot(f, ents[i].refs - 1));
      }
    }
  }
}
