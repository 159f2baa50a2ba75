/** Whole runs of operations on a volume. */
module VolumeRuns {
  import opened Bytes
  import opened FatTable
  import opened FatLayout
  import opened DosNames
  import opened Volumes
  import opened VolumeOps
  import opened VolumeTheorems

  /** `write_file`, `delete_file`, `_alloc_clusters` and `_free_chain`. */
  datatype Op =
    | WriteOp(name: seq<byte>, data: seq<byte>)
    | DeleteOp(name: seq<byte>)
    | AllocOp(n: int)
    | FreeOp(chain: seq<nat>)

  /** Data clusters that no root file owns. */
  ghost predicate Unowned(l: Layout, v: Volume, chain: seq<nat>) {
    && (forall k :: 0 <= k < |chain| ==> 2 <= chain[k] < |v.table|)
    && (forall i :: 0 <= i < |v.slots| && HasData(v.slots[i]) ==> Disjoint(chain, FileChain(l, v.table, v.slots[i])))
  }

  /** Names are ASCII, and only clusters that no root file owns are freed directly. */
  ghost predicate Permitted(l: Layout, v: Volume, op: Op) {
    match op
    case WriteOp(name, _) => Printable(name)
    case DeleteOp(name) => Printable(name)
    case AllocOp(_) => true
    case FreeOp(chain) => Unowned(l, v, chain)
  }

  /** What an operation does, and whether it succeeds. */
  ghost function Apply(l: Layout, v: Volume, op: Op): (bool, Volume)
    requires Sized(l, v) && Permitted(l, v, op)
  {
    match op
    case WriteOp(name, data) => (Write(l, v, name, data).0.Written?, Write(l, v, name, data).1)
    case DeleteOp(name) => (Delete(l, v, name).0.Deleted?, Delete(l, v, name).1)
    case AllocOp(n) =>
      if n <= 0 then (true, v)
      else if n > FreeCount(v.table) then (false, v)
      else (true, v.(table := Allocated(v.table, l.kind.Eoc(), FirstFit(v.table, n))))
    case FreeOp(chain) => (true, v.(table := Freed(v.table, chain, |chain|)))
  }

  /** A table that changes outside the chains of the root files only. */
  lemma TableChange(l: Layout, v: Volume, t': Table, changed: seq<nat>)
    requires WF(l, v) && |t'| == |v.table| && Unowned(l, v, changed)
    requires forall x :: 0 <= x < |t'| && x !in changed ==> t'[x] == v.table[x]
    ensures WF(l, v.(table := t'))
    ensures forall i :: 0 <= i < |v.slots| && HasData(v.slots[i]) ==>
              FileChain(l, t', v.slots[i]) == FileChain(l, v.table, v.slots[i])
  {
    hide ChainOf, HasChain, FirstCluster, Ended;
    forall i | 0 <= i < |v.slots| && HasData(v.slots[i])
      ensures HasChain(l, t', FirstCluster(v.slots[i]))
      ensures FileChain(l, t', v.slots[i]) == FileChain(l, v.table, v.slots[i])
    {
      ChainKept(l, v.table, t', FirstCluster(v.slots[i]), changed);
    }
  }

  lemma FreeIsUnowned(l: Layout, v: Volume, chain: seq<nat>)
    requires WF(l, v) && forall k :: 0 <= k < |chain| ==> 2 <= chain[k] < |v.table| && v.table[chain[k]] == 0
    ensures Unowned(l, v, chain)
  {
    forall i | 0 <= i < |v.slots| && HasData(v.slots[i])
      ensures Disjoint(chain, FileChain(l, v.table, v.slots[i]))
    {
      ChainIsUsed(l, v.table, FileChain(l, v.table, v.slots[i]));
    }
  }

  /** The table of an allocation or a direct release, and the clusters it touches. */
  lemma TableOpShape(l: Layout, v: Volume, op: Op)
    requires WF(l, v) && Permitted(l, v, op) && (op.AllocOp? || op.FreeOp?)
    ensures var v' := Apply(l, v, op).1; |v'.table| == |v.table| && v' == v.(table := v'.table) && WF(l, v')
    ensures forall i :: 0 <= i < |v.slots| && HasData(v.slots[i]) ==>
              FileChain(l, Apply(l, v, op).1.table, v.slots[i]) == FileChain(l, v.table, v.slots[i])
  {
    hide Chained, Ended, Unowned, ChainOf, HasChain, FirstCluster;
    var t' := Apply(l, v, op).1.table;
    match op
    case AllocOp(n) =>
      if 0 < n <= FreeCount(v.table) {
        FreeIsUnowned(l, v, FirstFit(v.table, n));
        TableChange(l, v, t', FirstFit(v.table, n));
      }
    case FreeOp(chain) =>
      assert chain[..|chain|] == chain;
      TableChange(l, v, t', chain);
  }

  lemma ApplyKeepsWF(l: Layout, v: Volume, op: Op)
    requires WF(l, v) && Permitted(l, v, op)
    ensures WF(l, Apply(l, v, op).1)
  {
    hide WF, Write, Delete;
    match op
    case WriteOp(name, data) => WriteKeepsWF(l, v, name, data);
    case DeleteOp(name) => DeleteKeepsWF(l, v, name);
    case _ => TableOpShape(l, v, op);
  }

  /** Every operation is permitted when its turn comes. */
  ghost predicate AllPermitted(l: Layout, v: Volume, ops: seq<Op>)
    requires WF(l, v)
    decreases |ops|
  {
    ops != [] ==>
      && Permitted(l, v, ops[0])
      && (ApplyKeepsWF(l, v, ops[0]); AllPermitted(l, Apply(l, v, ops[0]).1, ops[1..]))
  }

  /** The volume after a run of operations, and which of them succeeded. */
  ghost function Run(l: Layout, v: Volume, ops: seq<Op>): (r: (seq<bool>, Volume))
    requires WF(l, v) && AllPermitted(l, v, ops)
    ensures |r.0| == |ops| && WF(l, r.1)
    decreases |ops|
  {
    if ops == [] then ([], v)
    else
      ApplyKeepsWF(l, v, ops[0]);
      var (ok, next) := Apply(l, v, ops[0]);
      var (rest, last) := Run(l, next, ops[1..]);
      ([ok] + rest, last)
  }

  /** One more operation of a run. */
  lemma RunNext(l: Layout, v: Volume, ops: seq<Op>, i: nat)
    requires WF(l, v) && i < |ops| && AllPermitted(l, v, ops[i..])
    ensures Permitted(l, v, ops[i])
    ensures var (ok, next) := Apply(l, v, ops[i]);
      && WF(l, next) && AllPermitted(l, next, ops[i + 1..])
      && Run(l, v, ops[i..]) == ([ok] + Run(l, next, ops[i + 1..]).0, Run(l, next, ops[i + 1..]).1)
  {
    hide Apply, Permitted, Ended, Chained;
    assert ops[i..][0] == ops[i] && ops[i..][1..] == ops[i + 1..];
    ApplyKeepsWF(l, v, ops[i]);
  }

  lemma RunIsOver(l: Layout, v: Volume)
    requires WF(l, v)
    ensures AllPermitted(l, v, []) && Run(l, v, []) == ([], v)
  {
  }

  /** The operation does not name the file of this entry. */
  ghost predicate Spares(op: Op, raw: Slot) {
    (op.WriteOp? || op.DeleteOp?) ==> !NamesMatch(raw, Split83(op.name))
  }

  /** A live file whose name no operation of a run uses keeps its slot, its chain
      and its bytes through the whole run. */
  lemma {:induction false} RunKeepsFile(l: Layout, v: Volume, ops: seq<Op>, i: nat, size: nat)
    requires WF(l, v) && AllPermitted(l, v, ops) && i < |v.slots| && HasData(v.slots[i])
    requires forall j :: 0 <= j < |ops| ==> Spares(ops[j], v.slots[i])
    ensures var r, c := Run(l, v, ops).1, FirstCluster(v.slots[i]);
      && r.slots[i] == v.slots[i] && ChainOf(l, r.table, c) == ChainOf(l, v.table, c)
      && Read(l, r, c, size) == Read(l, v, c, size)
    decreases |ops|
  {
    hide Apply, Permitted, Spares, Read, ChainOf, FirstCluster, HasData, Ended, Chained;
    if ops != [] {
      ApplyKeepsWF(l, v, ops[0]);
      ApplyKeepsFile(l, v, ops[0], i, size);
      RunKeepsFile(l, Apply(l, v, ops[0]).1, ops[1..], i, size);
    }
  }

  /** `write_file` touches no live slot but the one of the same name. */
  lemma WriteKeepsSlot(l: Layout, v: Volume, name: seq<byte>, data: seq<byte>, i: nat)
    requires WF(l, v) && Printable(name) && i < |v.slots| && Live(v.slots[i]) && !NamesMatch(v.slots[i], Split83(name))
    ensures |Write(l, v, name, data).1.slots| == |v.slots| && Write(l, v, name, data).1.slots[i] == v.slots[i]
    ensures HasData(v.slots[i]) ==> Disjoint(Replaced(l, v, Split83(name)), FileChain(l, v.table, v.slots[i]))
  {
    hide Split83, NameOf, MakeDirEntry, Release, ChainOf, Allocated, Stored, FirstFit, PutSlot, Releases;
    PutSlotMeaning(v.slots, Split83(name), 0, None);
    if HasData(v.slots[i]) && PutIndex(v, Split83(name)).Some? {
      ReplacedApart(l, v, Split83(name), 0);
    }
  }

  lemma ApplyKeepsSlot(l: Layout, v: Volume, op: Op, i: nat)
    requires WF(l, v) && Permitted(l, v, op) && i < |v.slots| && Live(v.slots[i]) && Spares(op, v.slots[i])
    ensures i < |Apply(l, v, op).1.slots| && Apply(l, v, op).1.slots[i] == v.slots[i]
  {
    hide Split83, Release, Releases, NamesMatch, IsDir;
    match op
    case WriteOp(name, data) =>
      hide Write;
      WriteKeepsSlot(l, v, name, data, i);
    case DeleteOp(name) =>
    case _ =>
      TableOpShape(l, v, op);
  }

  /** A live entry whose name no operation of a run uses stays in its slot. */
  lemma {:induction false} RunKeepsSlot(l: Layout, v: Volume, ops: seq<Op>, i: nat)
    requires WF(l, v) && AllPermitted(l, v, ops) && i < |v.slots| && Live(v.slots[i])
    requires forall j :: 0 <= j < |ops| ==> Spares(ops[j], v.slots[i])
    ensures i < |Run(l, v, ops).1.slots| && Run(l, v, ops).1.slots[i] == v.slots[i]
    decreases |ops|
  {
    hide Apply, Permitted, Spares, Ended, Chained;
    if ops != [] {
      ApplyKeepsWF(l, v, ops[0]);
      ApplyKeepsSlot(l, v, ops[0], i);
      RunKeepsSlot(l, Apply(l, v, ops[0]).1, ops[1..], i);
    }
  }

  lemma ApplyKeepsFile(l: Layout, v: Volume, op: Op, i: nat, size: nat)
    requires WF(l, v) && Permitted(l, v, op) && i < |v.slots| && HasData(v.slots[i]) && Spares(op, v.slots[i])
    ensures var r, c := Apply(l, v, op).1, FirstCluster(v.slots[i]);
      && |r.slots| == |v.slots| && |r.clusters| == |r.table| && r.slots[i] == v.slots[i]
      && ChainOf(l, r.table, c) == ChainOf(l, v.table, c) && Read(l, r, c, size) == Read(l, v, c, size)
  {
    hide Split83, NameOf, FirstCluster, ChainOf, Release, NamesMatch, IsDir, Releases;
    var c := FirstCluster(v.slots[i]);
    match op
    case WriteOp(name, data) =>
      hide Write;
      WriteKeepsSlot(l, v, name, data, i);
      WriteKeepsChains(l, v, name, data, c);
    case DeleteOp(name) =>
      var found := DeleteSlot(v.slots, Split83(name), 0);
      if Delete(l, v, name).0.Deleted? {
        DeletedApart(l, v, found.value, i);
        ChainKept(l, v.table, Delete(l, v, name).1.table, c, OldChain(l, v, v.slots[found.value]));
      }
    case _ =>
      TableOpShape(l, v, op);
  }

  // ---- Clusters that a run does not touch ----

  ghost predicate AllInUse(t: Table, kept: set<nat>) {
    forall x :: x in kept ==> 2 <= x < |t| && t[x] != 0
  }

  /** The operation releases none of these clusters: not directly, and not with a root
      file that it replaces or deletes. */
  ghost predicate Misses(l: Layout, v: Volume, op: Op, kept: set<nat>) {
    match op
    case WriteOp(name, _) => NamedMiss(l, v, name, kept)
    case DeleteOp(name) => NamedMiss(l, v, name, kept)
    case AllocOp(_) => true
    case FreeOp(chain) => forall k :: 0 <= k < |chain| ==> chain[k] !in kept
  }

  ghost predicate NamedMiss(l: Layout, v: Volume, name: seq<byte>, kept: set<nat>) {
    forall i :: 0 <= i < |v.slots| && HasData(v.slots[i]) && NamesMatch(v.slots[i], Split83(name)) ==>
      MissedBy(l, v.table, v.slots[i], kept)
  }

  ghost predicate MissedBy(l: Layout, t: Table, raw: Slot, kept: set<nat>) {
    forall x :: x in FileChain(l, t, raw) ==> x !in kept
  }

  ghost predicate SameThere(v: Volume, v': Volume, kept: set<nat>) {
    && |v'.table| == |v.table| && |v'.clusters| == |v.clusters| == |v.table|
    && forall x :: x in kept && x < |v.table| ==> v'.table[x] == v.table[x] && v'.clusters[x] == v.clusters[x]
  }

  lemma ReplacedMissed(l: Layout, v: Volume, name: seq<byte>, kept: set<nat>)
    requires WF(l, v) && NamedMiss(l, v, name, kept)
    ensures forall x :: x in Replaced(l, v, Split83(name)) ==> x !in kept
  {
    hide Split83, NameOf, FirstCluster, ChainOf, Chained;
    PutSlotMeaning(v.slots, Split83(name), 0, None);
  }

  lemma ClaimThere(l: Layout, v: Volume, data: seq<byte>, kept: set<nat>)
    requires CanClaim(l, v, data) && AllInUse(v.table, kept)
    ensures SameThere(v, Claim(l, v, data), kept)
  {
    hide Claim, ClaimedChain;
    ClaimMakesChain(l, v, data);
    ClaimStoresData(l, v, data);
  }

  lemma WriteThere(l: Layout, v: Volume, name: seq<byte>, data: seq<byte>, kept: set<nat>)
    requires WF(l, v) && Printable(name) && AllInUse(v.table, kept) && NamedMiss(l, v, name, kept)
    ensures SameThere(v, Write(l, v, name, data).1, kept)
  {
    hide Split83, Put, Claim, ClaimedChain, Replaced, PutIndex, Chained, Ended, NamedMiss;
    var n := Split83(name);
    SplitIsEntryName(name);
    ReplacedMissed(l, v, name, kept);
    if data == [] {
      if Put(l, v, n, 0, 0, ATTR_ARCHIVE).Placed? {
        PutShape(l, v, n, 0, 0, ATTR_ARCHIVE);
      }
    } else if CanClaim(l, v, data) {
      var v1, first := Claim(l, v, data), ClaimedChain(l, v, data)[0];
      ClaimThere(l, v, data, kept);
      ClaimKeepsWF(l, v, data);
      ClaimKeepsReplaced(l, v, n, data);
      if Put(l, v1, n, first, |data|, ATTR_ARCHIVE).Placed? {
        PutShape(l, v1, n, first, |data|, ATTR_ARCHIVE);
      }
    }
  }

  lemma DeleteThere(l: Layout, v: Volume, name: seq<byte>, kept: set<nat>)
    requires WF(l, v) && NamedMiss(l, v, name, kept)
    ensures SameThere(v, Delete(l, v, name).1, kept)
  {
    hide Split83, NameOf, FirstCluster, ChainOf, Chained, Ended, IsDir;
  }

  lemma AllocThere(l: Layout, v: Volume, n: nat, kept: set<nat>)
    requires Sized(l, v) && 0 < n <= FreeCount(v.table) && AllInUse(v.table, kept)
    ensures SameThere(v, v.(table := Allocated(v.table, l.kind.Eoc(), FirstFit(v.table, n))), kept)
  {
    hide FreeCount, Allocated;
    var chain := FirstFit(v.table, n);
    assert forall x :: x in chain ==> v.table[x] == 0;
  }

  lemma ApplyThere(l: Layout, v: Volume, op: Op, kept: set<nat>)
    requires WF(l, v) && Permitted(l, v, op) && AllInUse(v.table, kept) && Misses(l, v, op, kept)
    ensures SameThere(v, Apply(l, v, op).1, kept)
  {
    hide Chained, Ended, Write, Delete, NamedMiss, FreeCount, FirstFit, Unowned;
    match op
    case WriteOp(name, data) => WriteThere(l, v, name, data, kept);
    case DeleteOp(name) => DeleteThere(l, v, name, kept);
    case AllocOp(n) =>
      if 0 < n <= FreeCount(v.table) {
        AllocThere(l, v, n, kept);
      }
    case FreeOp(chain) => assert chain[..|chain|] == chain;
  }

  /** A root file after an operation was there before, or owns clusters that were free. */
  ghost predicate Known(l: Layout, v: Volume, v': Volume, i: nat)
    requires i < |v'.slots|
  {
    || (i < |v.slots| && v'.slots[i] == v.slots[i]
        && FileChain(l, v'.table, v.slots[i]) == FileChain(l, v.table, v.slots[i]))
    || (forall x :: x in FileChain(l, v'.table, v'.slots[i]) ==> x < |v.table| && v.table[x] == 0)
  }

  lemma WriteKnown(l: Layout, v: Volume, name: seq<byte>, data: seq<byte>, i: nat)
    requires WF(l, v) && Printable(name)
    requires i < |Write(l, v, name, data).1.slots| && HasData(Write(l, v, name, data).1.slots[i])
    ensures Known(l, v, Write(l, v, name, data).1, i)
  {
    hide Write, Chained, Ended, FirstCluster, Split83, PutIndex;
    if !Write(l, v, name, data).0.Written? {
      UnwrittenKnown(l, v, name, data, i);
    } else if PutIndex(v, Split83(name)) == Some(i) {
      NewKnown(l, v, name, data, i);
    } else {
      OtherKnown(l, v, name, data, i);
    }
  }

  lemma UnwrittenKnown(l: Layout, v: Volume, name: seq<byte>, data: seq<byte>, i: nat)
    requires WF(l, v) && Printable(name) && !Write(l, v, name, data).0.Written?
    requires i < |Write(l, v, name, data).1.slots| && HasData(Write(l, v, name, data).1.slots[i])
    ensures Known(l, v, Write(l, v, name, data).1, i)
  {
    hide Split83, Put, Claim, ClaimedChain, Chained, Ended, FirstCluster, ChainOf;
    if CanClaim(l, v, data) {
      ClaimStoresData(l, v, data);
      ClaimKeepsWF(l, v, data);
    }
  }

  lemma NewKnown(l: Layout, v: Volume, name: seq<byte>, data: seq<byte>, i: nat)
    requires WF(l, v) && Printable(name) && Write(l, v, name, data).0.Written? && PutIndex(v, Split83(name)) == Some(i)
    requires i < |Write(l, v, name, data).1.slots| && HasData(Write(l, v, name, data).1.slots[i])
    ensures Known(l, v, Write(l, v, name, data).1, i)
  {
    hide Split83, Write, Claim, ClaimedChain, PutIndex, Chained, Ended, FirstCluster, ChainOf;
    WrittenChain(l, v, name, data, i);
    if data != [] {
      ClaimMakesChain(l, v, data);
    }
  }

  /** The first cluster of a new entry: none, or that of the claimed chain. */
  lemma WrittenChain(l: Layout, v: Volume, name: seq<byte>, data: seq<byte>, k: nat)
    requires WF(l, v) && Printable(name) && Write(l, v, name, data).0.Written? && PutIndex(v, Split83(name)) == Some(k)
    ensures var v' := Write(l, v, name, data).1;
      && k < |v'.slots| && (data == [] ==> FirstCluster(v'.slots[k]) == 0)
      && (data != [] ==>
            && CanClaim(l, v, data) && FirstCluster(v'.slots[k]) == ClaimedChain(l, v, data)[0]
            && ChainOf(l, v'.table, ClaimedChain(l, v, data)[0]) == ClaimedChain(l, v, data))
  {
    hide Split83, Put, Claim, ClaimedChain, PutIndex, Chained, Ended, FirstCluster, SizeOf, NameOf, MakeDirEntry, Fresh,
         ChainOf, HasChain, Disjoint, HasData;
    var n := Split83(name);
    SplitIsEntryName(name);
    if data == [] {
      MadeEntry(n, 0, 0, ATTR_ARCHIVE);
      PutShape(l, v, n, 0, 0, ATTR_ARCHIVE);
    } else {
      var v1, first := Claim(l, v, data), ClaimedChain(l, v, data)[0];
      ClaimKeepsWF(l, v, data);
      ClaimFits(l, v, data);
      ClaimMakesChain(l, v, data);
      MadeEntry(n, first, |data|, ATTR_ARCHIVE);
      PutIndexKept(l, v, n, data);
      PutShape(l, v1, n, first, |data|, ATTR_ARCHIVE);
      PutKeepsChains(l, v1, n, first, |data|, ATTR_ARCHIVE);
    }
  }

  lemma PutIndexKept(l: Layout, v: Volume, n: Name83, data: seq<byte>)
    requires CanClaim(l, v, data)
    ensures PutIndex(Claim(l, v, data), n) == PutIndex(v, n)
  {
    ClaimStoresData(l, v, data);
  }

  lemma OtherKnown(l: Layout, v: Volume, name: seq<byte>, data: seq<byte>, i: nat)
    requires WF(l, v) && Printable(name) && Write(l, v, name, data).0.Written?
    requires PutIndex(v, Split83(name)) != Some(i)
    requires i < |Write(l, v, name, data).1.slots| && HasData(Write(l, v, name, data).1.slots[i])
    ensures Known(l, v, Write(l, v, name, data).1, i)
  {
    hide Split83, Write, PutIndex, Chained, Ended, FirstCluster;
    OtherSlot(l, v, name, data, i);
    WriteKeepsFiles(l, v, name, data, i, 0);
  }

  lemma OtherSlot(l: Layout, v: Volume, name: seq<byte>, data: seq<byte>, i: nat)
    requires WF(l, v) && Printable(name) && Write(l, v, name, data).0.Written? && PutIndex(v, Split83(name)) != Some(i)
    ensures |Write(l, v, name, data).1.slots| == |v.slots|
    ensures i < |v.slots| ==> Write(l, v, name, data).1.slots[i] == v.slots[i]
  {
    hide Split83, Chained, Ended, Release, Stored, Allocated, FirstFit, PutSlot, MakeDirEntry;
  }

  lemma DeleteKnown(l: Layout, v: Volume, name: seq<byte>, i: nat)
    requires WF(l, v) && i < |Delete(l, v, name).1.slots| && HasData(Delete(l, v, name).1.slots[i])
    ensures Known(l, v, Delete(l, v, name).1, i)
  {
    hide Split83, NameOf, FirstCluster, ChainOf, IsDir, Releases, Release;
    if Delete(l, v, name).0.Deleted? {
      var k := DeleteSlot(v.slots, Split83(name), 0).value;
      assert i != k;
      DeletedApart(l, v, k, i);
      ChainKept(l, v.table, Delete(l, v, name).1.table, FirstCluster(v.slots[i]), OldChain(l, v, v.slots[k]));
    }
  }

  lemma ApplyKnown(l: Layout, v: Volume, op: Op, i: nat)
    requires WF(l, v) && Permitted(l, v, op)
    requires i < |Apply(l, v, op).1.slots| && HasData(Apply(l, v, op).1.slots[i])
    ensures Known(l, v, Apply(l, v, op).1, i)
  {
    hide Chained, Ended, Write, Delete, HasData;
    match op
    case WriteOp(name, data) => WriteKnown(l, v, name, data, i);
    case DeleteOp(name) => DeleteKnown(l, v, name, i);
    case _ => TableOpShape(l, v, op);
  }

  /** What a later operation misses it also misses after this one. */
  lemma MissesLater(l: Layout, v: Volume, op: Op, later: Op, kept: set<nat>)
    requires WF(l, v) && Permitted(l, v, op) && AllInUse(v.table, kept) && Misses(l, v, later, kept)
    ensures Misses(l, Apply(l, v, op).1, later, kept)
  {
    hide Chained, Ended, Apply, Permitted, HasData, FileChain, NamesMatch, Split83;
    var v' := Apply(l, v, op).1;
    forall i | 0 <= i < |v'.slots| && HasData(v'.slots[i])
      ensures Known(l, v, v', i)
    {
      ApplyKnown(l, v, op, i);
    }
  }

  /** Clusters in use that no operation of a run releases keep their links and bytes. */
  lemma {:induction false} RunKeepsClusters(l: Layout, v: Volume, ops: seq<Op>, kept: set<nat>)
    requires WF(l, v) && AllPermitted(l, v, ops) && AllInUse(v.table, kept)
    requires forall j :: 0 <= j < |ops| ==> Misses(l, v, ops[j], kept)
    ensures SameThere(v, Run(l, v, ops).1, kept)
    decreases |ops|
  {
    hide Apply, Permitted, Misses, Chained, Ended;
    if ops != [] {
      var next := Apply(l, v, ops[0]).1;
      ApplyKeepsWF(l, v, ops[0]);
      ApplyThere(l, v, ops[0], kept);
      forall j | 0 <= j < |ops[1..]|
        ensures Misses(l, next, ops[1..][j], kept)
      {
        MissesLater(l, v, ops[0], ops[j + 1], kept);
      }
      RunKeepsClusters(l, next, ops[1..], kept);
    }
  }

  /** Any chain, a file of a subdirectory for instance, whose clusters no operation
      releases keeps its links and its bytes through the whole run. */
  lemma RunKeepsChain(l: Layout, v: Volume, ops: seq<Op>, c: nat)
    requires WF(l, v) && AllPermitted(l, v, ops) && HasChain(l, v.table, c)
    requires forall j :: 0 <= j < |ops| ==> Misses(l, v, ops[j], Elements(ChainOf(l, v.table, c)))
    ensures var r, chain := Run(l, v, ops).1, ChainOf(l, v.table, c);
      && |r.clusters| == |v.clusters| && HasChain(l, r.table, c) && ChainOf(l, r.table, c) == chain
      && ChainBytes(r.clusters, chain) == ChainBytes(v.clusters, chain)
  {
    hide Run, AllPermitted, Misses, Chained, Ended, ChainOf;
    var r, chain := Run(l, v, ops).1, ChainOf(l, v.table, c);
    ChainIsUsed(l, v.table, chain);
    RunKeepsClusters(l, v, ops, Elements(chain));
    forall i | 0 <= i < |chain|
      ensures r.table[chain[i]] == v.table[chain[i]] && r.clusters[chain[i]] == v.clusters[chain[i]]
    {
      assert chain[i] in Elements(chain);
    }
    ChainFrame(v.table, r.table, l.kind.Bad(), chain);
    ChainIsChainOf(l, r.table, chain);
    ChainBytesFrame(r.clusters, v.clusters, chain);
  }
}
