/** A directory tree laid out the way first-fit allocation on a fresh volume lays
    it out: used clusters form a prefix, and every file and directory owns a run
    of consecutive clusters in it. */
module TreePlacement {
  import opened Bytes
  import opened FatTable
  import opened FatLayout
  import opened DosNames
  import opened Volumes
  import opened HostTree

  // ---- Packed tables ----

  /** The clusters below k are in use, each linked to its successor or ending a
      chain; those from k on are free. */
  ghost predicate Packed(l: Layout, t: Table, k: nat) {
    && 2 <= k <= |t|
    && (forall c :: 2 <= c < k ==> t[c] >= l.kind.Bad() || (t[c] == c + 1 && c + 1 < k))
    && (forall c :: k <= c < |t| ==> t[c] == 0)
  }

  function RunOf(k: nat, n: nat): seq<nat> {
    seq(n, i requires 0 <= i < n => k + i)
  }

  ghost predicate IsRun(l: Layout, t: Table, k: nat, n: nat) {
    IsChain(t, l.kind.Bad(), RunOf(k, n))
  }

  ghost function RunBytes(clusters: seq<seq<byte>>, k: nat, n: nat): seq<byte>
    requires k + n <= |clusters|
  {
    ChainBytes(clusters, RunOf(k, n))
  }

  lemma {:induction false} PackedFree(l: Layout, t: Table, k: nat, c: nat)
    requires Packed(l, t, k) && 0 < l.kind.Bad() && 2 <= c <= |t|
    ensures FreeFrom(t, c) == if c <= k then RunOf(k, |t| - k) else RunOf(c, |t| - c)
    decreases |t| - c
  {
    if c < |t| {
      PackedFree(l, t, k, c + 1);
      if c >= k {
        assert RunOf(c, |t| - c) == [c] + RunOf(c + 1, |t| - c - 1);
      }
    }
  }

  /** Linking the next n clusters of a packed table keeps it packed. */
  lemma PackedLink(l: Layout, t: Table, k: nat, n: nat)
    requires l.Valid() && Packed(l, t, k) && 0 < n && k + n <= |t|
    ensures Distinct(RunOf(k, n))
    ensures var t' := Allocated(t, l.kind.Eoc(), RunOf(k, n));
            Packed(l, t', k + n) && IsRun(l, t', k, n) && forall c :: 0 <= c < k ==> t'[c] == t[c]
  {
    hide Allocated;
    var run := RunOf(k, n);
    var t' := Allocated(t, l.kind.Eoc(), run);
    AllocatedIsChain(t, l.kind.Bad(), l.kind.Eoc(), run);
    forall c | 2 <= c < k + n
      ensures t'[c] >= l.kind.Bad() || (t'[c] == c + 1 && c + 1 < k + n)
    {
      if c >= k {
        assert c == run[c - k] && (c < k + n - 1 ==> t'[run[c - k]] == run[c - k + 1]);
      } else {
        assert c !in run;
      }
    }
    assert forall c :: c in run ==> k <= c < k + n;
  }

  /** On a packed table first-fit takes the next n clusters in a row. */
  lemma PackedFirstFit(l: Layout, t: Table, k: nat, n: nat)
    requires Packed(l, t, k)
    ensures FreeCount(t) == |t| - k
    ensures n <= |t| - k ==> FirstFit(t, n) == RunOf(k, n)
  {
    PackedFree(l, t, k, 2);
    if n <= |t| - k {
      assert RunOf(k, |t| - k)[..n] == RunOf(k, n);
    }
  }

  /** Following any used cluster of a packed table halts at an end mark. */
  lemma {:induction false} PackedHalts(l: Layout, t: Table, k: nat, c: nat, fuel: nat)
    requires Packed(l, t, k) && 2 <= c < k <= |t| <= l.kind.Bad() && k - c <= fuel
    ensures Final(t, l.kind.Bad(), c, fuel) >= l.kind.Bad()
    decreases fuel
  {
    if t[c] < l.kind.Bad() {
      PackedHalts(l, t, k, c + 1, fuel - 1);
    }
  }

  // ---- Sizes ----

  function DirClusters(count: nat, cs: nat): (n: nat)
    requires cs > 0
    ensures n >= 1
  {
    var n := ClustersFor((2 + count) * 32, cs);
    if n > 1 then n else 1
  }

  function Need(node: Node, cs: nat): nat
    requires cs > 0
    decreases node, 1
  {
    match node
    case File(_, data) => ClustersFor(|data|, cs)
    case Dir(_, items) => DirNeed(items, cs)
  }

  function DirNeed(items: seq<Node>, cs: nat): nat
    requires cs > 0
    decreases items, 1
  {
    DirClusters(|items|, cs) + NeedAll(items, cs)
  }

  function NeedAll(items: seq<Node>, cs: nat): nat
    requires cs > 0
    decreases items, 0
  {
    if items == [] then 0
    else NeedAll(items[..|items| - 1], cs) + Need(items[|items| - 1], cs)
  }

  /** Where item i starts when the items are placed from k on. */
  function PlaceOf(items: seq<Node>, i: nat, k: nat, cs: nat): nat
    requires cs > 0 && i <= |items|
  {
    k + NeedAll(items[..i], cs)
  }

  lemma PlaceNext(items: seq<Node>, i: nat, k: nat, cs: nat)
    requires cs > 0 && i < |items|
    ensures PlaceOf(items, i + 1, k, cs) == PlaceOf(items, i, k, cs) + Need(items[i], cs)
  {
    assert items[..i + 1][..i] == items[..i];
  }

  lemma {:induction false} PlaceMonotone(items: seq<Node>, i: nat, j: nat, k: nat, cs: nat)
    requires cs > 0 && i <= j <= |items|
    ensures k <= PlaceOf(items, i, k, cs) <= PlaceOf(items, j, k, cs)
    decreases j - i
  {
    if i < j {
      PlaceNext(items, j - 1, k, cs);
      PlaceMonotone(items, i, j - 1, k, cs);
    }
  }

  lemma PlaceEnds(items: seq<Node>, k: nat, cs: nat)
    requires cs > 0
    ensures PlaceOf(items, 0, k, cs) == k && PlaceOf(items, |items|, k, cs) == k + NeedAll(items, cs)
  {
    assert items[..|items|] == items;
  }

  // ---- Entries ----

  function FirstOf(node: Node, k: nat): nat {
    if node.File? && node.data == [] then 0 else k
  }

  /** `make_entry` for a node placed at k. */
  function EntryOf(node: Node, k: nat): Slot {
    match node
    case File(name, data) => MakeDirEntry(Split83(name), FirstOf(node, k), |data|, ATTR_ARCHIVE)
    case Dir(name, _) => MakeDirEntry(Split83(name), k, 0, ATTR_DIRECTORY)
  }

  function Entries(items: seq<Node>, k: nat, cs: nat, n: nat): (r: seq<byte>)
    requires cs > 0 && n <= |items|
    ensures |r| == n * 32
  {
    if n == 0 then [] else Entries(items, k, cs, n - 1) + EntryOf(items[n - 1], PlaceOf(items, n - 1, k, cs))
  }

  function DotEntry(dots: nat, first: nat): Slot
    requires dots <= 8
  {
    MakeDirEntry(Name83(LJust(seq(dots, _ => DOT), 8), LJust([], 3)), first, 0, ATTR_DIRECTORY)
  }

  /** The bytes of a directory with its first n entries filled in. */
  function DirData(items: seq<Node>, self: nat, parent: nat, cs: nat, n: nat): (r: seq<byte>)
    requires cs > 0 && n <= |items|
    ensures |r| == DirClusters(|items|, cs) * cs
  {
    var size := DirClusters(|items|, cs);
    DirFits(|items|, cs);
    PadTo(DotEntry(1, 0) + DotEntry(2, parent) + Entries(items, self + size, cs, n), size * cs)
  }

  lemma DirFits(count: nat, cs: nat)
    requires cs > 0
    ensures 64 + count * 32 <= DirClusters(count, cs) * cs
  {
    ClustersForCovers((2 + count) * 32, cs);
  }

  /** No fewer clusters would hold the two dot entries and the others. */
  lemma DirSizeIsLeast(count: nat, cs: nat)
    requires cs > 0
    ensures var n := DirClusters(count, cs); 64 + 32 * count <= n * cs && (n - 1) * cs < 64 + 32 * count
  {
    var need := ClustersFor((2 + count) * 32, cs);
    ClustersForCovers((2 + count) * 32, cs);
    assert (need - 1) * cs == need * cs - cs;
  }

  // ---- Placement ----

  ghost predicate NodeAt(l: Layout, v: Volume, node: Node, k: nat, parent: nat)
    requires l.Valid()
    decreases node, 2
  {
    match node
    case File(_, data) => FileAt(l, v, data, k)
    case Dir(_, items) => DirAt(l, v, items, k, parent)
  }

  ghost predicate FileAt(l: Layout, v: Volume, data: seq<byte>, k: nat)
    requires l.Valid()
  {
    var n := ClustersFor(|data|, l.ClusterSize());
    data != [] ==>
      && k + n <= |v.clusters| && IsRun(l, v.table, k, n)
      && |data| <= |RunBytes(v.clusters, k, n)| && RunBytes(v.clusters, k, n)[..|data|] == data
  }

  ghost predicate DirAt(l: Layout, v: Volume, items: seq<Node>, k: nat, parent: nat)
    requires l.Valid()
    decreases items, 1
  {
    var n := DirClusters(|items|, l.ClusterSize());
    && k + n <= |v.clusters| && IsRun(l, v.table, k, n)
    && RunBytes(v.clusters, k, n) == DirData(items, k, parent, l.ClusterSize(), |items|)
    && ItemsAt(l, v, items, k + n, k, |items|)
  }

  /** The first n items are in place, one after the other from k on. */
  ghost predicate ItemsAt(l: Layout, v: Volume, items: seq<Node>, k: nat, parent: nat, n: nat)
    requires l.Valid() && n <= |items|
    decreases items, 0
  {
    forall i :: 0 <= i < n ==> NodeAt(l, v, items[i], PlaceOf(items, i, k, l.ClusterSize()), parent)
  }

  /** The volumes agree on the clusters [lo, hi). */
  ghost predicate Agree(v: Volume, v': Volume, lo: nat, hi: nat) {
    && |v.table| == |v'.table| && |v.clusters| == |v'.clusters| == |v.table| && hi <= |v.table|
    && forall c :: lo <= c < hi ==> v.table[c] == v'.table[c] && v.clusters[c] == v'.clusters[c]
  }

  lemma RunFrame(l: Layout, v: Volume, v': Volume, k: nat, n: nat)
    requires Agree(v, v', k, k + n)
    ensures IsRun(l, v.table, k, n) ==> IsRun(l, v'.table, k, n)
    ensures RunBytes(v'.clusters, k, n) == RunBytes(v.clusters, k, n)
  {
    ChainBytesFrame(v.clusters, v'.clusters, RunOf(k, n));
    if IsRun(l, v.table, k, n) {
      ChainFrame(v.table, v'.table, l.kind.Bad(), RunOf(k, n));
    }
  }

  /** A placed node depends only on the clusters it was given. */
  lemma {:induction false} NodeFrame(l: Layout, v: Volume, v': Volume, node: Node, k: nat, parent: nat)
    requires l.Valid() && NodeAt(l, v, node, k, parent) && Agree(v, v', k, k + Need(node, l.ClusterSize()))
    ensures NodeAt(l, v', node, k, parent)
    decreases node, 2
  {
    hide RunBytes, IsRun, DirAt, DirNeed;
    match node
    case File(_, data) => RunFrame(l, v, v', k, ClustersFor(|data|, l.ClusterSize()));
    case Dir(_, items) => DirFrame(l, v, v', items, k, parent);
  }

  lemma {:induction false} DirFrame(l: Layout, v: Volume, v': Volume, items: seq<Node>, k: nat, parent: nat)
    requires l.Valid() && DirAt(l, v, items, k, parent) && Agree(v, v', k, k + DirNeed(items, l.ClusterSize()))
    ensures DirAt(l, v', items, k, parent)
    decreases items, 1
  {
    hide RunBytes, IsRun, DirData, ItemsAt, DirClusters, NeedAll;
    var n := DirClusters(|items|, l.ClusterSize());
    RunFrame(l, v, v', k, n);
    PlaceEnds(items, k + n, l.ClusterSize());
    ItemsFrame(l, v, v', items, k + n, k, |items|);
  }

  lemma {:induction false} ItemsFrame(l: Layout, v: Volume, v': Volume, items: seq<Node>, k: nat, parent: nat, n: nat)
    requires l.Valid() && l.ClusterSize() > 0 && n <= |items| && ItemsAt(l, v, items, k, parent, n)
    requires Agree(v, v', k, PlaceOf(items, n, k, l.ClusterSize()))
    ensures ItemsAt(l, v', items, k, parent, n)
    decreases items, 0
  {
    hide NodeAt, Need, PlaceOf, Layout.Valid;
    forall i | 0 <= i < n
      ensures NodeAt(l, v', items[i], PlaceOf(items, i, k, l.ClusterSize()), parent)
    {
      PlaceNext(items, i, k, l.ClusterSize());
      PlaceMonotone(items, 0, i, k, l.ClusterSize());
      PlaceMonotone(items, i + 1, n, k, l.ClusterSize());
      NodeFrame(l, v, v', items[i], PlaceOf(items, i, k, l.ClusterSize()), parent);
    }
  }
}
