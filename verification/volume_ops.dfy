/** Creating, replacing, deleting and reading root files, as functions between
    volumes, and what they promise. */
module VolumeOps {
  import opened Bytes
  import opened FatTable
  import opened FatLayout
  import opened DosNames
  import opened Volumes

  /** `BadChain` stands for the error of `follow_chain` on the chain of an entry that
      is to be replaced or deleted. */
  datatype WriteOutcome = Written(first: nat) | DiskFull | RootFull | BadChain
  datatype PutResult = Placed(value: Volume) | NoSlot | NotFreed
  datatype DeleteResult = Deleted | NotFound | StaysLive

  // ---- Well-formed volumes ----

  predicate HasData(raw: Slot) {
    Live(raw) && FirstCluster(raw) >= 2
  }

  ghost predicate Disjoint(a: seq<nat>, b: seq<nat>) {
    forall x :: x in a ==> x !in b
  }

  ghost function FileChain(l: Layout, t: Table, raw: Slot): seq<nat> {
    ChainOf(l, t, FirstCluster(raw))
  }

  /** Every root file has a terminated chain, and no two of them share a cluster. */
  ghost predicate Chained(l: Layout, t: Table, slots: seq<Slot>) {
    && (forall i :: 0 <= i < |slots| && HasData(slots[i]) ==> HasChain(l, t, FirstCluster(slots[i])))
    && (forall i, j :: 0 <= i < j < |slots| && HasData(slots[i]) && HasData(slots[j]) ==>
          Disjoint(FileChain(l, t, slots[i]), FileChain(l, t, slots[j])))
  }

  ghost predicate WF(l: Layout, v: Volume) {
    Sized(l, v) && Ended(v.slots) && Chained(l, v.table, v.slots)
  }

  // ---- The operations ----

  ghost predicate CanClaim(l: Layout, v: Volume, data: seq<byte>) {
    Sized(l, v) && data != [] && ClustersFor(|data|, l.ClusterSize()) <= FreeCount(v.table)
  }

  /** Allocation and the writing of the data, before the directory changes. */
  ghost function Claim(l: Layout, v: Volume, data: seq<byte>): Volume
    requires CanClaim(l, v, data)
  {
    ClustersForCovers(|data|, l.ClusterSize());
    var n := ClustersFor(|data|, l.ClusterSize());
    var chain := FirstFit(v.table, n);
    v.(table := Allocated(v.table, l.kind.Eoc(), chain),
       clusters := Stored(v.clusters, chain, data, l.ClusterSize(), n))
  }

  ghost function ClaimedChain(l: Layout, v: Volume, data: seq<byte>): (chain: seq<nat>)
    requires CanClaim(l, v, data)
    ensures chain != []
  {
    ClustersForCovers(|data|, l.ClusterSize());
    FirstFit(v.table, ClustersFor(|data|, l.ClusterSize()))
  }

  /** The chain `_put_root_entry` and `delete_file` release for a slot. */
  ghost function OldChain(l: Layout, v: Volume, raw: Slot): seq<nat> {
    if FirstCluster(raw) >= 2 then ChainOf(l, v.table, FirstCluster(raw)) else []
  }

  lemma OldChainInRange(l: Layout, v: Volume, raw: Slot)
    ensures forall i :: 0 <= i < |OldChain(l, v, raw)| ==> OldChain(l, v, raw)[i] < |v.table|
  {
    StepsInRange(v.table, l.kind.Bad(), FirstCluster(raw), |v.table|);
  }

  ghost function Release(l: Layout, v: Volume, raw: Slot): (t: Table)
    ensures |t| == |v.table|
    ensures forall x :: 0 <= x < |t| ==> t[x] == if x in OldChain(l, v, raw) then 0 else v.table[x]
  {
    OldChainInRange(l, v, raw);
    var chain := OldChain(l, v, raw);
    assert chain[..|chain|] == chain;
    Freed(v.table, chain, |chain|)
  }

  /** Whether the chain of a slot can be followed to its end, so that it is released. */
  ghost predicate Releases(l: Layout, t: Table, raw: Slot) {
    FirstCluster(raw) >= 2 ==> Final(t, l.kind.Bad(), FirstCluster(raw), |t|) >= l.kind.Bad()
  }

  /** Whether that attempt ends at all. */
  ghost predicate Walks(l: Layout, t: Table, raw: Slot) {
    FirstCluster(raw) >= 2 ==> Halts(t, l.kind.Bad(), FirstCluster(raw))
  }

  lemma EntryWalks(l: Layout, v: Volume, i: nat)
    requires WF(l, v) && i < |v.slots| && Live(v.slots[i])
    ensures Walks(l, v.table, v.slots[i]) && Releases(l, v.table, v.slots[i])
  {
    if FirstCluster(v.slots[i]) >= 2 {
      ChainIsChainOf(l, v.table, FileChain(l, v.table, v.slots[i]));
    }
  }

  /** `_put_root_entry` */
  ghost function Put(l: Layout, v: Volume, n: Name83, first: nat, size: nat, attr: byte): PutResult
    requires |n.base| == 8 && |n.ext| == 3
  {
    var (idx, existing) := PutSlot(v.slots, n, 0, None);
    if idx.None? then NoSlot
    else if existing && !Releases(l, v.table, v.slots[idx.value]) then NotFreed
    else
      var t := if existing then Release(l, v, v.slots[idx.value]) else v.table;
      Placed(v.(table := t, slots := v.slots[idx.value := MakeDirEntry(n, first, size, attr)]))
  }

  ghost predicate PutWalks(l: Layout, v: Volume, n: Name83) {
    var (idx, existing) := PutSlot(v.slots, n, 0, None);
    existing ==> Walks(l, v.table, v.slots[idx.value])
  }

  /** `write_file`. A full root directory and a broken chain are noticed only after
      allocation, so the clusters stay taken. */
  ghost function Write(l: Layout, v: Volume, name: seq<byte>, data: seq<byte>): (WriteOutcome, Volume)
    requires Sized(l, v)
  {
    if data != [] && ClustersFor(|data|, l.ClusterSize()) > FreeCount(v.table) then (DiskFull, v)
    else
      var v1 := if data == [] then v else Claim(l, v, data);
      var first := if data == [] then 0 else ClaimedChain(l, v, data)[0];
      match Put(l, v1, Split83(name), first, |data|, ATTR_ARCHIVE)
      case NoSlot => (RootFull, v1)
      case NotFreed => (BadChain, v1)
      case Placed(v') => (Written(first), v')
  }

  ghost predicate WriteWalks(l: Layout, v: Volume, name: seq<byte>, data: seq<byte>)
    requires Sized(l, v)
  {
    if data == [] then PutWalks(l, v, Split83(name))
    else CanClaim(l, v, data) ==> PutWalks(l, Claim(l, v, data), Split83(name))
  }

  /** `delete_file` */
  ghost function Delete(l: Layout, v: Volume, name: seq<byte>): (DeleteResult, Volume) {
    match DeleteSlot(v.slots, Split83(name), 0)
    case None => (NotFound, v)
    case Some(k) =>
      if !Releases(l, v.table, v.slots[k]) then (StaysLive, v)
      else (Deleted, v.(table := Release(l, v, v.slots[k]), slots := v.slots[k := v.slots[k][0 := DELETED]]))
  }

  ghost predicate DeleteWalks(l: Layout, v: Volume, name: seq<byte>) {
    var found := DeleteSlot(v.slots, Split83(name), 0);
    found.Some? ==> Walks(l, v.table, v.slots[found.value])
  }

  /** `find_file` */
  ghost function Find(v: Volume, name: seq<byte>): Option<Slot> {
    FindIn(ParseRoot(v.slots, 0), FindTarget(name))
  }

  /** The bytes along a walk through data clusters, cut to a size. */
  ghost function Read(l: Layout, v: Volume, c: nat, size: nat): seq<byte>
    requires |v.clusters| == |v.table|
  {
    StepsInRange(v.table, l.kind.Bad(), c, |v.table|);
    Take(ChainBytes(v.clusters, ChainOf(l, v.table, c)), size)
  }

  /** What becomes of something that follows a chain: it is done, it raises for a
      cluster past the end, it never ends, or it takes bytes from the place of a
      reserved cluster number, which the volume does not hold. */
  datatype Walk<T> = Done(value: T) | Raised | Endless | Reserved

  /** The same failure of something else. */
  function Failed<T, U>(w: Walk<T>): Walk<U>
    requires !w.Done?
  {
    match w case Raised => Raised case Endless => Endless case Reserved => Reserved
  }

  /** `follow_chain(c)` returns. */
  ghost predicate Followable(l: Layout, t: Table, c: nat) {
    Halts(t, l.kind.Bad(), c) && Final(t, l.kind.Bad(), c, |t|) >= l.kind.Bad()
  }

  ghost predicate DataOnly(l: Layout, t: Table, c: nat) {
    forall x :: x in ChainOf(l, t, c) ==> x >= 2
  }

  /** `read_file`. The chain is followed before the size is looked at. */
  ghost function ReadAt(l: Layout, v: Volume, c: nat, size: nat): Walk<seq<byte>>
    requires |v.clusters| == |v.table|
  {
    if !Halts(v.table, l.kind.Bad(), c) then Endless
    else if !Followable(l, v.table, c) then Raised
    else if size == 0 then Done([])
    else if DataOnly(l, v.table, c) then Done(Read(l, v, c, size))
    else Reserved
  }

  /** `read_file_by_name`; done with None when there is no such file. */
  ghost function ReadByName(l: Layout, v: Volume, name: seq<byte>): Walk<Option<seq<byte>>>
    requires |v.clusters| == |v.table|
  {
    match Find(v, name)
    case None => Done(None)
    case Some(raw) =>
      if IsDir(raw) then Done(None)
      else
        var r := ReadAt(l, v, FirstCluster(raw), SizeOf(raw));
        if r.Done? then Done(Some(r.value)) else Failed(r)
  }

  /** `read_dir` */
  ghost function DirEntries(l: Layout, v: Volume, c: nat): Walk<seq<Slot>>
    requires Sized(l, v)
  {
    if c < 2 then Done([])
    else if !Halts(v.table, l.kind.Bad(), c) then Endless
    else if !Followable(l, v.table, c) then Raised
    else if DataOnly(l, v.table, c) then
      StepsInRange(v.table, l.kind.Bad(), c, |v.table|);
      ChainInData(l, v.table, c);
      ChainBytesLength(l, v, ChainOf(l, v.table, c));
      Done(ParseEntries(ChainBytes(v.clusters, ChainOf(l, v.table, c)), 0))
    else Reserved
  }

  lemma ChainInData(l: Layout, t: Table, c: nat)
    requires DataOnly(l, t, c)
    ensures forall i :: 0 <= i < |ChainOf(l, t, c)| ==> 2 <= ChainOf(l, t, c)[i] < |t|
  {
    StepsInRange(t, l.kind.Bad(), c, |t|);
    assert forall i :: 0 <= i < |ChainOf(l, t, c)| ==> ChainOf(l, t, c)[i] in ChainOf(l, t, c);
  }

  /** A terminated chain of data clusters is read. */
  lemma ChainIsRead(l: Layout, v: Volume, c: nat, size: nat)
    requires |v.clusters| == |v.table| <= l.kind.Bad() && HasChain(l, v.table, c)
    ensures Followable(l, v.table, c) && DataOnly(l, v.table, c)
    ensures ReadAt(l, v, c, size) == Done(Read(l, v, c, size))
  {
    ChainIsChainOf(l, v.table, ChainOf(l, v.table, c));
  }

  lemma {:induction false} ChainBytesLength(l: Layout, v: Volume, chain: seq<nat>)
    requires Sized(l, v) && forall i :: 0 <= i < |chain| ==> 2 <= chain[i] < |v.table|
    ensures |ChainBytes(v.clusters, chain)| == |chain| * l.ClusterSize()
    ensures |ChainBytes(v.clusters, chain)| % 32 == 0
    decreases |chain|
  {
    hide Layout.Limit, Layout.TotalClusters, Layout.DataStart, Layout.ClusterSize;
    if chain != [] {
      var front := chain[..|chain| - 1];
      ChainBytesLength(l, v, front);
      OneMoreCluster(l, |front|);
    }
  }

  lemma OneMoreCluster(l: Layout, n: nat)
    ensures (n + 1) * l.ClusterSize() == n * l.ClusterSize() + l.ClusterSize()
    ensures (n + 1) * l.ClusterSize() % 32 == 0
  {
    DivModUnique((n + 1) * l.ClusterSize(), 32, (n + 1) * 16 * l.sectorsPerCluster, 0);
  }

  // ---- Allocation ----

  lemma ChainIsUsed(l: Layout, t: Table, chain: seq<nat>)
    requires IsChain(t, l.kind.Bad(), chain)
    ensures forall x :: x in chain ==> 2 <= x < |t| && t[x] != 0
  {
    forall x | x in chain
      ensures 2 <= x < |t| && t[x] != 0
    {
      var i :| 0 <= i < |chain| && chain[i] == x;
      assert i < |chain| - 1 ==> t[chain[i]] == chain[i + 1];
    }
  }

  /** The new chain is made of free clusters and terminated; nothing else in the
      table changes. */
  lemma ClaimMakesChain(l: Layout, v: Volume, data: seq<byte>)
    requires CanClaim(l, v, data)
    ensures var t', chain := Claim(l, v, data).table, ClaimedChain(l, v, data);
      && |t'| == |v.table|
      && IsChain(t', l.kind.Bad(), chain)
      && HasChain(l, t', chain[0]) && ChainOf(l, t', chain[0]) == chain
      && Distinct(chain) && (forall x :: x in chain ==> 2 <= x < |v.table| && v.table[x] == 0 && t'[x] != 0)
      && (forall x :: 0 <= x < |v.table| && x !in chain ==> t'[x] == v.table[x])
  {
    ClustersForCovers(|data|, l.ClusterSize());
    var chain := ClaimedChain(l, v, data);
    AllocatedIsChain(v.table, l.kind.Bad(), l.kind.Eoc(), chain);
    ChainIsChainOf(l, Claim(l, v, data).table, chain);
  }

  /** The new chain holds the data, and no other cluster changes. */
  lemma ClaimStoresData(l: Layout, v: Volume, data: seq<byte>)
    requires CanClaim(l, v, data)
    ensures var v1, chain := Claim(l, v, data), ClaimedChain(l, v, data);
      && Sized(l, v1) && v1.slots == v.slots
      && (forall x :: 0 <= x < |v.clusters| && x !in chain ==> v1.clusters[x] == v.clusters[x])
      && |data| <= |ChainBytes(v1.clusters, chain)| && ChainBytes(v1.clusters, chain)[..|data|] == data
  {
    var cs := l.ClusterSize();
    var n := ClustersFor(|data|, cs);
    ClustersForCovers(|data|, cs);
    var chain := ClaimedChain(l, v, data);
    assert chain[..n] == chain;
    StoredReadsBack(v.clusters, chain, data, cs, n);
  }

  /** Chains and bytes already on the volume are out of reach of an allocation. */
  lemma ClaimFrame(l: Layout, v: Volume, data: seq<byte>, chain: seq<nat>)
    requires CanClaim(l, v, data)
    requires IsChain(v.table, l.kind.Bad(), chain)
    ensures var v1 := Claim(l, v, data);
      && IsChain(v1.table, l.kind.Bad(), chain)
      && Disjoint(ClaimedChain(l, v, data), chain) && Disjoint(chain, ClaimedChain(l, v, data))
      && ChainBytes(v1.clusters, chain) == ChainBytes(v.clusters, chain)
  {
    ClaimMakesChain(l, v, data);
    ClaimStoresData(l, v, data);
    ChainIsUsed(l, v.table, chain);
    var v1 := Claim(l, v, data);
    forall i | 0 <= i < |chain|
      ensures v1.table[chain[i]] == v.table[chain[i]] && v1.clusters[chain[i]] == v.clusters[chain[i]]
    {
      assert chain[i] in chain;
    }
    ChainFrame(v.table, v1.table, l.kind.Bad(), chain);
    ChainBytesFrame(v1.clusters, v.clusters, chain);
  }
}
