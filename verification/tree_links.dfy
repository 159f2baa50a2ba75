/** The "." and ".." entries of a volume on which the bridge placed a tree. */
module TreeLinks {
  import opened Bytes
  import opened FatLayout
  import opened DosNames
  import opened Volumes
  import opened VolumeOps
  import opened HostTree
  import opened TreePlacement
  import opened TreeWalk

  /** A directory entry of that name and first cluster, of size zero. */
  predicate DirectoryNamed(raw: Slot, name: seq<byte>, first: nat) {
    NameOf(raw) == Name83(name, []) && raw[11] == 0x10 && FirstCluster(raw) == first && SizeOf(raw) == 0
  }

  /** Below the directory of an entry every directory starts with "." and "..", and ".."
      names the first cluster of the directory it lies in; that of the entry itself names
      `parent`. Directories nest at most `depth` deep. */
  ghost predicate LinksUp(l: Layout, v: Volume, raw: Slot, parent: nat, depth: nat)
    requires Sized(l, v)
    decreases depth
  {
    IsDir(raw) ==>
      && depth > 0
      && var cluster := FirstCluster(raw);
      && var entries := DirEntries(l, v, cluster);
      && entries.Done? && |entries.value| >= 2
      && DirectoryNamed(entries.value[0], [DOT], 0)
      && DirectoryNamed(entries.value[1], [DOT, DOT], parent)
      && forall i :: 2 <= i < |entries.value| ==> LinksUp(l, v, entries.value[i], cluster, depth - 1)
  }

  lemma DotFields(dots: nat, first: nat)
    requires 1 <= dots <= 2 && first < 0x1_0000
    ensures DirectoryNamed(DotEntry(dots, first), if dots == 1 then [DOT] else [DOT, DOT], first)
  {
    hide MakeDirEntry, NameOf, RStrip, FirstCluster, SizeOf;
    var name: seq<byte> := seq(dots, _ => DOT);
    MadeEntry(Name83(LJust(name, 8), LJust([], 3)), first, 0, ATTR_DIRECTORY);
    StripPadding(name, 8);
    StripPadding([], 3);
    StripsToSelf(name);
    StripsToSelf([]);
    assert name == if dots == 1 then [DOT] else [DOT, DOT];
  }

  /** The entry of a node has its name, its kind, the cluster it is placed at, which is
      none for an empty file, and its size, which is zero for a directory. */
  lemma EntryIs(node: Node, k: nat)
    ensures var raw := EntryOf(node, k);
      && NameOf(raw) == Stripped(Split83(node.name)) && raw[11] == (if node.Dir? then 0x10 else 0x20)
      && FirstCluster(raw) == (if node.File? && node.data == [] then 0 else k) % 0x1_0000
      && SizeOf(raw) == (if node.File? then |node.data| else 0) % 0x1_0000_0000
  {
    hide MakeDirEntry, NameOf, Split83, RStrip, FirstCluster, SizeOf;
    match node
    case File(name, data) => MadeEntry(Split83(name), FirstOf(node, k), |data|, ATTR_ARCHIVE);
    case Dir(name, _) => MadeEntry(Split83(name), k, 0, ATTR_DIRECTORY);
  }

  /** The entries of a placed directory: the two dot entries, then its items. */
  lemma PlacedEntries(l: Layout, v: Volume, items: seq<Node>, k: nat, parent: nat)
    requires Sized(l, v) && DirAt(l, v, items, k, parent) && NamedAll(items) && parent < 0x1_0000
    ensures 2 <= k < 0x1_0000
    ensures var entries, cs := DirEntries(l, v, k), l.ClusterSize();
      && entries.Done? && |entries.value| == 2 + |items|
      && DirectoryNamed(entries.value[0], [DOT], 0) && DirectoryNamed(entries.value[1], [DOT, DOT], parent)
      && forall i :: 0 <= i < |items| ==>
           entries.value[2 + i] == EntryOf(items[i], PlaceOf(items, i, k + DirClusters(|items|, cs), cs))
  {
    hide DotEntry, DirectoryNamed, EntryOf, PlaceOf, DirEntries, DirAt, NamedAll, EntrySlots;
    var cs := l.ClusterSize();
    DirStart(l, v, items, k, parent);
    DirEntriesFound(l, v, items, k, parent);
    DotFields(1, 0);
    DotFields(2, parent);
    forall i | 0 <= i < |items|
      ensures EntrySlots(items, k + DirClusters(|items|, cs), cs, |items|)[i]
        == EntryOf(items[i], PlaceOf(items, i, k + DirClusters(|items|, cs), cs))
    {
      EntrySlotsIn(items, k + DirClusters(|items|, cs), cs, |items|, i);
    }
  }

  /** In a placed tree ".." leads back to the directory above. */
  lemma {:induction false} NodeLinks(l: Layout, v: Volume, node: Node, k: nat, parent: nat, depth: nat)
    requires Sized(l, v) && NodeAt(l, v, node, k, parent) && Named(node) && Height(node) <= depth && parent < 0x1_0000
    ensures LinksUp(l, v, EntryOf(node, k), parent, depth)
    decreases node
  {
    hide EntryOf, PlaceOf, DirectoryNamed, DirEntries, DirAt, FullName, Trimmed, ShortName, FirstCluster, SizeOf,
         NameOf, IsDir, HeightAll, NamedAll;
    EntryFields(node, k);
    match node
    case File(_, _) =>
    case Dir(_, items) =>
      PlacedEntries(l, v, items, k, parent);
      var entries := DirEntries(l, v, k).value;
      forall i | 2 <= i < |entries|
        ensures LinksUp(l, v, entries[i], k, depth - 1)
      {
        ItemLinks(l, v, items, k, parent, depth - 1, i - 2);
      }
  }

  lemma {:induction false} ItemLinks(l: Layout, v: Volume, items: seq<Node>, k: nat, parent: nat, depth: nat, i: nat)
    requires Sized(l, v) && DirAt(l, v, items, k, parent) && NamedAll(items) && HeightAll(items, |items|) <= depth
    requires i < |items| && k < 0x1_0000
    ensures var cs := l.ClusterSize();
      LinksUp(l, v, EntryOf(items[i], PlaceOf(items, i, k + DirClusters(|items|, cs), cs)), k, depth)
    decreases items
  {
    hide EntryOf, PlaceOf, LinksUp, NodeAt, Height, DirData, IsRun, RunBytes, ShortName;
    var cs := l.ClusterSize();
    assert Named(items[i]);
    NodeLinks(l, v, items[i], PlaceOf(items, i, k + DirClusters(|items|, cs), cs), k, depth);
  }

  /** On a volume that holds a tree the ".." of a directory in the root names cluster 0,
      and that of any other directory the directory it lies in. */
  lemma RootLinks(l: Layout, v: Volume, items: seq<Node>)
    requires Sized(l, v) && RootAt(l, v, items) && NamedAll(items)
    ensures forall i :: 0 <= i < |items| && i < |v.slots| ==> LinksUp(l, v, v.slots[i], 0, HeightAll(items, |items|))
  {
    hide EntryOf, PlaceOf, LinksUp, NodeAt, Height, ShortName;
    forall i | 0 <= i < |items|
      ensures LinksUp(l, v, v.slots[i], 0, HeightAll(items, |items|))
    {
      assert Named(items[i]);
      NodeLinks(l, v, items[i], PlaceOf(items, i, 2, l.ClusterSize()), 0, HeightAll(items, |items|));
    }
  }
}
