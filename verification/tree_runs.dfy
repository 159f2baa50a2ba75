/** A volume that the bridge built is well formed, and a tree on it survives every run
    of operations that leaves it alone. */
module TreeRuns {
  import opened Bytes
  import opened FatTable
  import opened FatLayout
  import opened DosNames
  import opened Volumes
  import opened VolumeOps
  import opened VolumeRuns
  import opened HostTree
  import opened TreePlacement
  import opened TreeWalk

  ghost function Stretch(k: nat, n: nat): (s: set<nat>)
    ensures forall x: nat :: x in s <==> k <= x < k + n
  {
    if n == 0 then {} else Stretch(k, n - 1) + {k + n - 1}
  }

  // ---- A built volume is well formed ----

  lemma RunUsed(l: Layout, t: Table, k: nat, n: nat)
    requires IsRun(l, t, k, n)
    ensures AllInUse(t, Stretch(k, n))
    ensures forall x :: x in RunOf(k, n) ==> k <= x < k + n
  {
    ChainIsUsed(l, t, RunOf(k, n));
    forall x | x in Stretch(k, n)
      ensures x in RunOf(k, n)
    {
      assert RunOf(k, n)[x - k] == x;
    }
  }

  lemma StretchJoins(t: Table, k: nat, a: nat, b: nat)
    requires AllInUse(t, Stretch(k, a)) && AllInUse(t, Stretch(k + a, b))
    ensures AllInUse(t, Stretch(k, a + b))
  {
    forall x | x in Stretch(k, a + b)
      ensures 2 <= x < |t| && t[x] != 0
    {
      assert x in Stretch(k, a) || x in Stretch(k + a, b);
    }
  }

  lemma StretchInTable(t: Table, k: nat, n: nat)
    requires AllInUse(t, Stretch(k, n)) && n > 0
    ensures k + n <= |t|
  {
    assert k + n - 1 in Stretch(k, n);
  }

  /** What a placed node has to do with its entry. */
  ghost predicate EntryOwns(l: Layout, v: Volume, raw: Slot, k: nat, need: nat) {
    && Live(raw)
    && (HasData(raw) ==>
          && HasChain(l, v.table, FirstCluster(raw))
          && forall x :: x in FileChain(l, v.table, raw) ==> k <= x < k + need)
  }

  lemma NodeOwns(l: Layout, v: Volume, node: Node, k: nat, parent: nat)
    requires Sized(l, v) && NodeAt(l, v, node, k, parent) && ShortName(node.name)
    ensures EntryOwns(l, v, EntryOf(node, k), k, Need(node, l.ClusterSize()))
  {
    hide MakeDirEntry, EntryOf, FirstCluster, SizeOf, Skipped, IsDir, IsRun, RunOf, HasChain, ChainOf, ItemsAt,
         RunBytes, ShortName, NameOf, Split83, FullName, Trimmed, DirData, PadTo, Followable, Layout.TotalClusters,
         Layout.DataStart;
    EntryIsLive(node, k);
    EntryFields(node, k);
    match node
    case File(_, data) =>
      if data != [] {
        RunIsChain(l, v, k, ClustersFor(|data|, l.ClusterSize()));
        RunUsed(l, v.table, k, ClustersFor(|data|, l.ClusterSize()));
      }
    case Dir(_, items) =>
      RunIsChain(l, v, k, DirClusters(|items|, l.ClusterSize()));
      RunUsed(l, v.table, k, DirClusters(|items|, l.ClusterSize()));
  }

  lemma RootOwns(l: Layout, v: Volume, items: seq<Node>, i: nat)
    requires Sized(l, v) && RootAt(l, v, items) && NamedAll(items) && i < |items|
    ensures var place := PlaceOf(items, i, 2, l.ClusterSize());
      EntryOwns(l, v, v.slots[i], place, Need(items[i], l.ClusterSize()))
  {
    hide EntryOf, PlaceOf, Need, NodeAt, EntryOwns, ShortName;
    assert Named(items[i]);
    NodeOwns(l, v, items[i], PlaceOf(items, i, 2, l.ClusterSize()), 0);
  }

  lemma PlacesApart(items: seq<Node>, i: nat, j: nat, k: nat, cs: nat)
    requires cs > 0 && i < j < |items|
    ensures PlaceOf(items, i, k, cs) + Need(items[i], cs) <= PlaceOf(items, j, k, cs)
  {
    hide PlaceOf, Need;
    PlaceNext(items, i, k, cs);
    PlaceMonotone(items, i + 1, j, k, cs);
  }

  /** Everything that is proved for well-formed volumes holds for a built one. */
  lemma BuiltIsWF(l: Layout, v: Volume, items: seq<Node>)
    requires Sized(l, v) && RootAt(l, v, items) && NamedAll(items)
    ensures WF(l, v)
  {
    hide EntryOf, PlaceOf, Need, FirstCluster, HasChain, ChainOf, ItemsAt, NamedAll, Layout.TotalClusters,
         Layout.DataStart;
    var cs := l.ClusterSize();
    forall i | 0 <= i < |items|
      ensures EntryOwns(l, v, v.slots[i], PlaceOf(items, i, 2, cs), Need(items[i], cs))
    {
      RootOwns(l, v, items, i);
    }
    forall i, j | 0 <= i < j < |items|
      ensures PlaceOf(items, i, 2, cs) + Need(items[i], cs) <= PlaceOf(items, j, 2, cs)
    {
      PlacesApart(items, i, j, 2, cs);
    }
  }

  // ---- The clusters of a tree ----

  lemma {:induction false} NodeInUse(l: Layout, v: Volume, node: Node, k: nat, parent: nat)
    requires l.Valid() && NodeAt(l, v, node, k, parent)
    ensures AllInUse(v.table, Stretch(k, Need(node, l.ClusterSize())))
    decreases node, 2
  {
    hide IsRun, DirAt, DirNeed, RunBytes, Layout.TotalClusters, Layout.DataStart;
    match node
    case File(_, data) =>
      if data != [] {
        RunUsed(l, v.table, k, ClustersFor(|data|, l.ClusterSize()));
      } else {
        NoNeed(l);
      }
    case Dir(_, items) => DirInUse(l, v, items, k, parent);
  }

  lemma NoNeed(l: Layout)
    requires l.Valid()
    ensures ClustersFor(0, l.ClusterSize()) == 0
  {
    DivModUnique(l.ClusterSize() - 1, l.ClusterSize(), 0, l.ClusterSize() - 1);
  }

  lemma {:induction false} DirInUse(l: Layout, v: Volume, items: seq<Node>, k: nat, parent: nat)
    requires l.Valid() && DirAt(l, v, items, k, parent)
    ensures AllInUse(v.table, Stretch(k, DirNeed(items, l.ClusterSize())))
    decreases items, 1
  {
    hide IsRun, DirData, RunBytes, ItemsAt, DirClusters, NeedAll, Layout.TotalClusters, Layout.DataStart;
    var n := DirClusters(|items|, l.ClusterSize());
    RunUsed(l, v.table, k, n);
    ItemsInUse(l, v, items, k + n, k, |items|);
    PlaceEnds(items, k + n, l.ClusterSize());
    StretchJoins(v.table, k, n, NeedAll(items, l.ClusterSize()));
  }

  lemma {:induction false} ItemsInUse(l: Layout, v: Volume, items: seq<Node>, k: nat, parent: nat, n: nat)
    requires l.Valid() && l.ClusterSize() > 0 && n <= |items| && ItemsAt(l, v, items, k, parent, n)
    ensures k <= PlaceOf(items, n, k, l.ClusterSize())
    ensures AllInUse(v.table, Stretch(k, PlaceOf(items, n, k, l.ClusterSize()) - k))
    decreases items, 0, n
  {
    hide NodeAt, Need, PlaceOf, Layout.Valid, Layout.ClusterSize;
    var cs := l.ClusterSize();
    if n == 0 {
      PlaceEnds(items, k, cs);
    } else {
      ItemsInUse(l, v, items, k, parent, n - 1);
      PlaceNext(items, n - 1, k, cs);
      var place := PlaceOf(items, n - 1, k, cs);
      NodeInUse(l, v, items[n - 1], place, parent);
      StretchJoins(v.table, k, place - k, Need(items[n - 1], cs));
    }
  }

  // ---- Runs ----

  /** A tree below a node, wherever it is, stays in place through a run that releases
      none of its clusters. */
  lemma RunKeepsNode(l: Layout, v: Volume, ops: seq<Op>, node: Node, k: nat, parent: nat)
    requires WF(l, v) && AllPermitted(l, v, ops) && NodeAt(l, v, node, k, parent)
    requires forall j :: 0 <= j < |ops| ==> Misses(l, v, ops[j], Stretch(k, Need(node, l.ClusterSize())))
    ensures NodeAt(l, Run(l, v, ops).1, node, k, parent)
  {
    hide Run, AllPermitted, Misses, Chained, Ended, NodeAt, Need;
    if Need(node, l.ClusterSize()) == 0 {
      NeedsNothing(l, Run(l, v, ops).1, node, k, parent);
    } else {
      NodeInUse(l, v, node, k, parent);
      StretchInTable(v.table, k, Need(node, l.ClusterSize()));
      RunKeepsClusters(l, v, ops, Stretch(k, Need(node, l.ClusterSize())));
      NodeFrame(l, v, Run(l, v, ops).1, node, k, parent);
    }
  }

  /** An empty file is in place anywhere. */
  lemma NeedsNothing(l: Layout, v: Volume, node: Node, k: nat, parent: nat)
    requires l.Valid() && Need(node, l.ClusterSize()) == 0
    ensures NodeAt(l, v, node, k, parent)
  {
    if node.File? {
      ClustersForCovers(|node.data|, l.ClusterSize());
    }
  }

  /** The operation does not name the root item, and frees none of its clusters. */
  ghost predicate LeavesItem(l: Layout, v: Volume, items: seq<Node>, i: nat, op: Op)
    requires l.Valid() && i < |items| && i < |v.slots|
  {
    && Spares(op, v.slots[i])
    && (op.FreeOp? ==>
          forall m :: 0 <= m < |op.chain| ==>
            op.chain[m] !in Stretch(PlaceOf(items, i, 2, l.ClusterSize()), Need(items[i], l.ClusterSize())))
  }

  lemma LeavingMisses(l: Layout, v: Volume, items: seq<Node>, i: nat, op: Op)
    requires Sized(l, v) && RootAt(l, v, items) && NamedAll(items) && i < |items| && LeavesItem(l, v, items, i, op)
    ensures Misses(l, v, op, Stretch(PlaceOf(items, i, 2, l.ClusterSize()), Need(items[i], l.ClusterSize())))
  {
    hide EntryOf, PlaceOf, Need, FirstCluster, HasChain, ChainOf, ItemsAt, NamedAll, NamesMatch, Split83,
         Layout.TotalClusters, Layout.DataStart;
    var cs := l.ClusterSize();
    forall j | 0 <= j < |items| && j != i
      ensures EntryOwns(l, v, v.slots[j], PlaceOf(items, j, 2, cs), Need(items[j], cs))
      ensures PlaceOf(items, i, 2, cs) + Need(items[i], cs) <= PlaceOf(items, j, 2, cs)
              || PlaceOf(items, j, 2, cs) + Need(items[j], cs) <= PlaceOf(items, i, 2, cs)
    {
      RootOwns(l, v, items, j);
      if i < j {
        PlacesApart(items, i, j, 2, cs);
      } else {
        PlacesApart(items, j, i, 2, cs);
      }
    }
  }

  lemma RootNode(l: Layout, v: Volume, items: seq<Node>, i: nat)
    requires Sized(l, v) && RootAt(l, v, items) && i < |items|
    ensures NodeAt(l, v, items[i], PlaceOf(items, i, 2, l.ClusterSize()), 0)
  {
    hide NodeAt, PlaceOf, EntryOf;
  }

  /** On a volume that the bridge built, a root item and everything below it survives
      every run of writes, deletes, allocations and releases that does not name it and
      frees none of its clusters: its entry is in its slot, the tree is in place, and
      the walk finds it there as before. */
  lemma TreeSurvives(l: Layout, v: Volume, items: seq<Node>, ops: seq<Op>, i: nat, depth: nat)
    requires Sized(l, v) && RootAt(l, v, items) && NamedAll(items) && i < |items| && Height(items[i]) <= depth
    requires WF(l, v) && AllPermitted(l, v, ops)
    requires forall j :: 0 <= j < |ops| ==> LeavesItem(l, v, items, i, ops[j])
    ensures var r, place := Run(l, v, ops).1, PlaceOf(items, i, 2, l.ClusterSize());
      && i < |r.slots| && r.slots[i] == v.slots[i] && NodeAt(l, r, items[i], place, 0)
      && WalkEntry(l, r, r.slots[i], depth) == Found(l, r.table, HasEmpty(items[i]), Returned(items[i]))
  {
    hide Run, AllPermitted, Misses, Chained, Ended, NodeAt, PlaceOf, Need, EntryOf, NamedAll, ItemsAt, WalkEntry, Found,
         Height, Returned, HasEmpty, Spares, Layout.TotalClusters, Layout.DataStart;
    var place := PlaceOf(items, i, 2, l.ClusterSize());
    RootNode(l, v, items, i);
    RootOwns(l, v, items, i);
    forall j | 0 <= j < |ops|
      ensures Misses(l, v, ops[j], Stretch(place, Need(items[i], l.ClusterSize())))
    {
      LeavingMisses(l, v, items, i, ops[j]);
    }
    RunKeepsNode(l, v, ops, items[i], place, 0);
    RunKeepsSlot(l, v, ops, i);
    NamedIs(items, i);
    WalkNode(l, Run(l, v, ops).1, items[i], place, 0, depth);
  }

  lemma NamedIs(items: seq<Node>, i: nat)
    requires NamedAll(items) && i < |items|
    ensures Named(items[i])
  {
  }
}
