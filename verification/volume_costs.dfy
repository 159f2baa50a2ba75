/** Where the clusters of a volume are: free, in a root file, or stray. */
module VolumeCosts {
  import opened Bytes
  import opened FatTable
  import opened FatLayout
  import opened DosNames
  import opened Volumes
  import opened VolumeOps
  import opened VolumeTheorems
  import opened VolumeRuns
  import opened VolumeFiles

  /** The clusters of the file in a slot. */
  ghost function Owns(l: Layout, t: Table, raw: Slot): seq<nat> {
    if HasData(raw) then FileChain(l, t, raw) else []
  }

  /** How many clusters the root files own. */
  ghost function Owned(l: Layout, t: Table, slots: seq<Slot>): nat {
    if slots == [] then 0
    else Owned(l, t, slots[..|slots| - 1]) + |Owns(l, t, slots[|slots| - 1])|
  }

  ghost function OwnedSet(l: Layout, t: Table, slots: seq<Slot>): set<nat> {
    if slots == [] then {}
    else OwnedSet(l, t, slots[..|slots| - 1]) + Elements(Owns(l, t, slots[|slots| - 1]))
  }

  /** The data clusters in use that no root file owns: those of subdirectories and of
      the files in them, and those that are lost. */
  ghost function Stray(l: Layout, v: Volume): set<nat> {
    set x: nat | 2 <= x < |v.table| && v.table[x] != 0 && x !in OwnedSet(l, v.table, v.slots)
  }

  lemma {:induction false} OwnedSame(l: Layout, t: Table, t': Table, slots: seq<Slot>)
    requires forall i :: 0 <= i < |slots| ==> |Owns(l, t', slots[i])| == |Owns(l, t, slots[i])|
    ensures Owned(l, t', slots) == Owned(l, t, slots)
  {
    hide Owns;
    if slots != [] {
      OwnedSame(l, t, t', slots[..|slots| - 1]);
    }
  }

  lemma {:induction false} OwnedUpdate(l: Layout, t: Table, t': Table, slots: seq<Slot>, k: nat, raw: Slot)
    requires k < |slots|
    requires forall i :: 0 <= i < |slots| && i != k ==> |Owns(l, t', slots[i])| == |Owns(l, t, slots[i])|
    ensures Owned(l, t', slots[k := raw]) + |Owns(l, t, slots[k])| == Owned(l, t, slots) + |Owns(l, t', raw)|
  {
    hide Owns;
    var front := slots[..|slots| - 1];
    if k == |slots| - 1 {
      assert slots[k := raw][..k] == front;
      OwnedSame(l, t, t', front);
    } else {
      assert slots[k := raw][..|slots| - 1] == front[k := raw];
      OwnedUpdate(l, t, t', front, k, raw);
    }
  }

  // ---- The balance ----

  lemma OwnsUsed(l: Layout, t: Table, slots: seq<Slot>, i: nat)
    requires Chained(l, t, slots) && |t| <= l.kind.Bad() && i < |slots|
    ensures Distinct(Owns(l, t, slots[i])) && forall x :: x in Owns(l, t, slots[i]) ==> 2 <= x < |t| && t[x] != 0
  {
    hide FirstCluster, ChainOf;
    if HasData(slots[i]) {
      ChainIsUsed(l, t, Owns(l, t, slots[i]));
      ChainIsChainOf(l, t, Owns(l, t, slots[i]));
    }
  }

  lemma ChainedFront(l: Layout, t: Table, slots: seq<Slot>)
    requires Chained(l, t, slots) && slots != []
    ensures Chained(l, t, slots[..|slots| - 1])
  {
    hide FirstCluster, ChainOf, HasChain;
  }

  lemma {:induction false} OwnedIsCard(l: Layout, t: Table, slots: seq<Slot>)
    requires Chained(l, t, slots) && |t| <= l.kind.Bad()
    ensures |OwnedSet(l, t, slots)| == Owned(l, t, slots)
    ensures forall x :: x in OwnedSet(l, t, slots) ==> 2 <= x < |t| && t[x] != 0
    ensures forall x :: x in OwnedSet(l, t, slots) ==> exists i :: 0 <= i < |slots| && x in Owns(l, t, slots[i])
  {
    hide Chained, Owns;
    if slots != [] {
      var n := |slots| - 1;
      ChainedFront(l, t, slots);
      OwnedIsCard(l, t, slots[..n]);
      OwnsUsed(l, t, slots, n);
      DistinctCard(Owns(l, t, slots[n]));
      Apart(l, t, slots, n);
      forall x | x in OwnedSet(l, t, slots)
        ensures exists i :: 0 <= i < |slots| && x in Owns(l, t, slots[i])
      {
        if x in OwnedSet(l, t, slots[..n]) {
          var i :| 0 <= i < n && x in Owns(l, t, slots[..n][i]);
          assert slots[..n][i] == slots[i];
        } else {
          assert x in Owns(l, t, slots[n]);
        }
      }
    }
  }

  lemma Apart(l: Layout, t: Table, slots: seq<Slot>, n: nat)
    requires Chained(l, t, slots) && n < |slots|
    requires forall x :: x in OwnedSet(l, t, slots[..n]) ==> exists i :: 0 <= i < n && x in Owns(l, t, slots[..n][i])
    ensures OwnedSet(l, t, slots[..n]) !! Elements(Owns(l, t, slots[n]))
  {
    hide FirstCluster, ChainOf, HasChain, OwnedSet;
    forall x | x in OwnedSet(l, t, slots[..n])
      ensures x !in Owns(l, t, slots[n])
    {
      var i :| 0 <= i < n && x in Owns(l, t, slots[..n][i]);
      assert slots[..n][i] == slots[i];
    }
  }

  /** Free, owned and stray clusters are all there are. */
  lemma Balance(l: Layout, v: Volume)
    requires WF(l, v)
    ensures FreeCount(v.table) + Owned(l, v.table, v.slots) + |Stray(l, v)| == |v.table| - 2
  {
    hide Chained, Ended, OwnedSet, Owned, FreeCount;
    var t := v.table;
    OwnedIsCard(l, t, v.slots);
    FreeCountIsCard(t);
    var owned := OwnedSet(l, t, v.slots);
    assert DataClusters(|t|) == FreeSet(t) + owned + Stray(l, v);
    assert FreeSet(t) !! owned && (FreeSet(t) + owned) !! Stray(l, v);
  }

  /** The cluster numbers of data in a table of n entries. */
  ghost function DataClusters(n: nat): (s: set<nat>)
    ensures forall x: nat :: x in s <==> 2 <= x < n
    ensures n >= 2 ==> |s| == n - 2
  {
    if n <= 2 then {} else DataClusters(n - 1) + {n - 1}
  }

  // ---- What operations do to it ----

  ghost function InUse(t: Table, chain: seq<nat>): set<nat>
    requires forall k :: 0 <= k < |chain| ==> chain[k] < |t|
  {
    set k: nat | k < |chain| && t[chain[k]] != 0 :: chain[k]
  }

  /** The clusters an operation takes out of use for good, for the root files: those of a
      write that finds the root directory full, and those allocated directly. A direct
      release gives some back. */
  ghost function Loss(l: Layout, v: Volume, op: Op): int
    requires Sized(l, v) && Permitted(l, v, op)
  {
    match op
    case WriteOp(name, data) =>
      if Write(l, v, name, data).0.RootFull? then ClustersFor(|data|, l.ClusterSize()) else 0
    case DeleteOp(_) => 0
    case AllocOp(n) => if 0 < n <= FreeCount(v.table) then n else 0
    case FreeOp(chain) => -|InUse(v.table, chain)|
  }

  ghost function RunLoss(l: Layout, v: Volume, ops: seq<Op>): int
    requires WF(l, v) && AllPermitted(l, v, ops)
    decreases |ops|
  {
    if ops == [] then 0
    else
      ApplyKeepsWF(l, v, ops[0]);
      Loss(l, v, ops[0]) + RunLoss(l, Apply(l, v, ops[0]).1, ops[1..])
  }

  ghost function Held(l: Layout, v: Volume): nat {
    FreeCount(v.table) + Owned(l, v.table, v.slots)
  }

  lemma WrittenHeld(l: Layout, v: Volume, name: seq<byte>, data: seq<byte>)
    requires WF(l, v) && Printable(name) && Write(l, v, name, data).0.Written?
    ensures Held(l, Write(l, v, name, data).1) == Held(l, v)
  {
    hide Split83, Write, FreeCount, Owned, Owns, Chained, Ended, Replaced, PutIndex, HasData, IsFile, Content, NameOf,
         Sized;
    var n, v' := Split83(name), Write(l, v, name, data).1;
    WrittenFile(l, v, name, data);
    var k := PutIndex(v, n).value;
    WriteCosts(l, v, name, data);
    forall i | 0 <= i < |v.slots| && i != k
      ensures |Owns(l, v'.table, v.slots[i])| == |Owns(l, v.table, v.slots[i])|
    {
      OthersOwn(l, v, name, data, i);
    }
    OwnedUpdate(l, v.table, v'.table, v.slots, k, v'.slots[k]);
    ReplacedIsOwned(l, v, n);
    NewOwns(l, v, name, data);
  }

  lemma OthersOwn(l: Layout, v: Volume, name: seq<byte>, data: seq<byte>, i: nat)
    requires WF(l, v) && Printable(name) && Write(l, v, name, data).0.Written?
    requires i < |v.slots| && PutIndex(v, Split83(name)) != Some(i)
    ensures Owns(l, Write(l, v, name, data).1.table, v.slots[i]) == Owns(l, v.table, v.slots[i])
  {
    hide Split83, Write, Chained, Ended, PutIndex, FirstCluster;
    if HasData(v.slots[i]) {
      WriteKeepsFiles(l, v, name, data, i, 0);
    }
  }

  lemma ReplacedIsOwned(l: Layout, v: Volume, n: Name83)
    requires WF(l, v) && PutIndex(v, n).Some?
    ensures PutIndex(v, n).value < |v.slots| && Owns(l, v.table, v.slots[PutIndex(v, n).value]) == Replaced(l, v, n)
  {
    hide NameOf, Chained, FirstCluster;
    PutSlotMeaning(v.slots, n, 0, None);
  }

  lemma NewOwns(l: Layout, v: Volume, name: seq<byte>, data: seq<byte>)
    requires WF(l, v) && Printable(name) && Write(l, v, name, data).0.Written?
    requires PutIndex(v, Split83(name)).Some? && PutIndex(v, Split83(name)).value < |Write(l, v, name, data).1.slots|
    ensures var v' := Write(l, v, name, data).1;
      |Owns(l, v'.table, v'.slots[PutIndex(v, Split83(name)).value])| == ClustersFor(|data|, l.ClusterSize())
  {
    hide Split83, FirstCluster, Chained, Ended, PutIndex, Write, IsFile, Claim, ClaimedChain, Holds;
    var k := PutIndex(v, Split83(name)).value;
    WrittenChain(l, v, name, data, k);
    WrittenFile(l, v, name, data);
    if data == [] {
      NoClusters(l);
    } else {
      ClaimMakesChain(l, v, data);
      ClaimedLength(l, v, data);
    }
  }

  lemma ClaimedLength(l: Layout, v: Volume, data: seq<byte>)
    requires CanClaim(l, v, data)
    ensures |ClaimedChain(l, v, data)| == ClustersFor(|data|, l.ClusterSize())
  {
  }

  /** A write that fails: nothing is held by another file, and at worst clusters are lost. */
  lemma UnwrittenHeld(l: Layout, v: Volume, name: seq<byte>, data: seq<byte>)
    requires WF(l, v) && Printable(name) && !Write(l, v, name, data).0.Written?
    ensures var loss := if Write(l, v, name, data).0.RootFull? then ClustersFor(|data|, l.ClusterSize()) else 0;
      Held(l, Write(l, v, name, data).1) + loss == Held(l, v)
  {
    hide Split83, FreeCount, Owned, Chained, Ended, Put, Claim, FirstCluster;
    WriteOutcomes(l, v, name, data);
    if data != [] && Write(l, v, name, data).0.RootFull? {
      ClaimKeepsWF(l, v, data);
      OwnedSame(l, v.table, Claim(l, v, data).table, v.slots);
    } else {
      NoClusters(l);
    }
  }

  lemma NoClusters(l: Layout)
    requires l.Valid()
    ensures ClustersFor(0, l.ClusterSize()) == 0
  {
    DivModUnique(l.ClusterSize() - 1, l.ClusterSize(), 0, l.ClusterSize() - 1);
  }

  lemma DeletedHeld(l: Layout, v: Volume, name: seq<byte>)
    requires WF(l, v)
    ensures Held(l, Delete(l, v, name).1) == Held(l, v)
  {
    hide Split83, FreeCount, Owned, Chained, Ended, FirstCluster, NameOf, IsDir, ChainOf, HasChain;
    if Delete(l, v, name).0.Deleted? {
      var k, v' := DeleteSlot(v.slots, Split83(name), 0).value, Delete(l, v, name).1;
      var gone := OldChain(l, v, v.slots[k]);
      forall i | 0 <= i < |v.slots| && i != k
        ensures |Owns(l, v'.table, v.slots[i])| == |Owns(l, v.table, v.slots[i])|
      {
        if HasData(v.slots[i]) {
          WFChain(l, v, i);
          DeletedApart(l, v, k, i);
          ChainKept(l, v.table, v'.table, FirstCluster(v.slots[i]), gone);
        }
      }
      OwnedUpdate(l, v.table, v'.table, v.slots, k, v'.slots[k]);
      if HasData(v.slots[k]) {
        WFChain(l, v, k);
        ChainIsUsed(l, v.table, gone);
        ChainIsChainOf(l, v.table, gone);
      }
      FreeCountChange(v'.table, v.table, gone);
    }
  }

  lemma TableOpHeld(l: Layout, v: Volume, op: Op)
    requires WF(l, v) && Permitted(l, v, op) && (op.AllocOp? || op.FreeOp?)
    ensures Held(l, Apply(l, v, op).1) + Loss(l, v, op) == Held(l, v)
  {
    hide Owned, Chained, Ended, FirstCluster, ChainOf, FirstFit, Unowned;
    var v' := Apply(l, v, op).1;
    TableOpShape(l, v, op);
    OwnedSame(l, v.table, v'.table, v.slots);
    match op
    case AllocOp(n) =>
      if 0 < n <= FreeCount(v.table) {
        AllocThenFree(v.table, l.kind.Bad(), l.kind.Eoc(), n);
      }
    case FreeOp(chain) => FreedCount(l, v, chain);
  }

  lemma FreedCount(l: Layout, v: Volume, chain: seq<nat>)
    requires Unowned(l, v, chain)
    ensures FreeCount(Freed(v.table, chain, |chain|)) == FreeCount(v.table) + |InUse(v.table, chain)|
  {
    hide FreeCount;
    var t := v.table;
    var t' := Freed(t, chain, |chain|);
    FreeCountIsCard(t);
    FreeCountIsCard(t');
    FreedSet(l, v, chain);
  }

  lemma FreedSet(l: Layout, v: Volume, chain: seq<nat>)
    requires Unowned(l, v, chain)
    ensures FreeSet(Freed(v.table, chain, |chain|)) == FreeSet(v.table) + InUse(v.table, chain)
    ensures FreeSet(v.table) !! InUse(v.table, chain)
  {
    hide Disjoint, FileChain, HasData;
    var t, t', used := v.table, Freed(v.table, chain, |chain|), InUse(v.table, chain);
    assert chain[..|chain|] == chain;
    forall x: nat | x < |t|
      ensures t'[x] == if x in chain then 0 else t[x]
      ensures x in used <==> x in chain && t[x] != 0
    {
    }
    assert forall x :: x in chain ==> 2 <= x < |t|;
  }

  lemma ApplyBalances(l: Layout, v: Volume, op: Op)
    requires WF(l, v) && Permitted(l, v, op)
    ensures Held(l, Apply(l, v, op).1) + Loss(l, v, op) == Held(l, v) && |Apply(l, v, op).1.table| == |v.table|
  {
    hide Held, Write, Delete, Chained, Ended;
    ApplyKeepsWF(l, v, op);
    match op
    case WriteOp(name, data) =>
      if Write(l, v, name, data).0.Written? {
        WrittenHeld(l, v, name, data);
      } else {
        UnwrittenHeld(l, v, name, data);
      }
    case DeleteOp(name) => DeletedHeld(l, v, name);
    case _ => TableOpHeld(l, v, op);
  }

  lemma {:induction false} RunHeld(l: Layout, v: Volume, ops: seq<Op>)
    requires WF(l, v) && AllPermitted(l, v, ops)
    ensures Held(l, Run(l, v, ops).1) + RunLoss(l, v, ops) == Held(l, v)
    ensures |Run(l, v, ops).1.table| == |v.table|
    decreases |ops|
  {
    hide Held, Apply, Permitted, Loss, Chained, Ended;
    if ops != [] {
      ApplyKeepsWF(l, v, ops[0]);
      ApplyBalances(l, v, ops[0]);
      RunHeld(l, Apply(l, v, ops[0]).1, ops[1..]);
    }
  }

  /** Over any run the stray clusters grow by exactly what the run lost: no cluster is
      leaked by a write or a delete but by the writes that find the root directory full. */
  lemma RunBalances(l: Layout, v: Volume, ops: seq<Op>)
    requires WF(l, v) && AllPermitted(l, v, ops)
    ensures |Stray(l, Run(l, v, ops).1)| == |Stray(l, v)| + RunLoss(l, v, ops)
    ensures FreeCount(Run(l, v, ops).1.table) + Owned(l, Run(l, v, ops).1.table, Run(l, v, ops).1.slots)
      == FreeCount(v.table) + Owned(l, v.table, v.slots) - RunLoss(l, v, ops)
  {
    hide Run, RunLoss, FreeCount, Owned, Stray, AllPermitted, Chained, Ended;
    Balance(l, v);
    RunHeld(l, v, ops);
    Balance(l, Run(l, v, ops).1);
  }
}
