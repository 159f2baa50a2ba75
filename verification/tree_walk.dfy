/** The walk of `sync_host_directory_disk` over a volume, and the proof that it
    finds a placed tree again. */
module TreeWalk {
  import opened Bytes
  import opened FatTable
  import opened FatLayout
  import opened DosNames
  import opened Volumes
  import opened VolumeOps
  import opened HostTree
  import opened TreePlacement

  // ---- The walk ----

  /** Entries the walk passes over. */
  predicate Skipped(raw: Slot, dots: bool) {
    raw[0] == DELETED || (dots && (NameOf(raw).base == [DOT] || NameOf(raw).base == [DOT, DOT]))
  }

  /** The tree below a directory entry, or the first failure on the way; directories
      that nest deeper than `depth` count as endless. */
  ghost function WalkEntry(l: Layout, v: Volume, raw: Slot, depth: nat): Walk<Node>
    requires Sized(l, v)
    decreases depth, 0
  {
    if IsDir(raw) then
      if depth == 0 then Endless
      else
        var w := WalkDir(l, v, FirstCluster(raw), depth - 1);
        if w.Done? then Done(Dir(FullName(raw), w.value)) else Failed(w)
    else
      var w := ReadAt(l, v, FirstCluster(raw), SizeOf(raw));
      if w.Done? then Done(File(FullName(raw), w.value)) else Failed(w)
  }

  ghost function WalkEntries(l: Layout, v: Volume, entries: seq<Slot>, dots: bool, depth: nat): Walk<seq<Node>>
    requires Sized(l, v)
    decreases depth, 1, |entries|
  {
    if entries == [] then Done([])
    else
      var last := entries[|entries| - 1];
      var front := WalkEntries(l, v, entries[..|entries| - 1], dots, depth);
      if !front.Done? || Skipped(last, dots) then front
      else
        var w := WalkEntry(l, v, last, depth);
        if w.Done? then Done(front.value + [w.value]) else Failed(w)
  }

  ghost function WalkDir(l: Layout, v: Volume, c: nat, depth: nat): Walk<seq<Node>>
    requires Sized(l, v)
    decreases depth, 2
  {
    var w := DirEntries(l, v, c);
    if w.Done? then WalkEntries(l, v, w.value, true, depth) else Failed(w)
  }

  ghost function WalkRoot(l: Layout, v: Volume, depth: nat): Walk<seq<Node>>
    requires Sized(l, v)
  {
    WalkEntries(l, v, ParseRoot(v.slots, 0), false, depth)
  }

  // ---- Entries of a placed directory ----

  ghost function EntrySlots(items: seq<Node>, k: nat, cs: nat, n: nat): (r: seq<Slot>)
    requires cs > 0 && n <= |items|
    ensures |r| == n
  {
    if n == 0 then [] else EntrySlots(items, k, cs, n - 1) + [EntryOf(items[n - 1], PlaceOf(items, n - 1, k, cs))]
  }

  lemma {:induction false} EntrySlotsIn(items: seq<Node>, k: nat, cs: nat, n: nat, i: nat)
    requires cs > 0 && i < n <= |items|
    ensures EntrySlots(items, k, cs, n)[i] == EntryOf(items[i], PlaceOf(items, i, k, cs))
    ensures Entries(items, k, cs, n)[i * 32..(i + 1) * 32] == EntryOf(items[i], PlaceOf(items, i, k, cs))
  {
    hide EntryOf;
    if i < n - 1 {
      EntrySlotsIn(items, k, cs, n - 1, i);
      assert Entries(items, k, cs, n)[i * 32..(i + 1) * 32] == Entries(items, k, cs, n - 1)[i * 32..(i + 1) * 32];
    }
  }

  lemma {:induction false} ParseFound(data: seq<byte>, slots: seq<Slot>, i: nat)
    requires |data| % 32 == 0 && i <= |slots| && |slots| * 32 <= |data|
    requires forall j :: i <= j < |slots| ==> SlotAt(data, j) == slots[j] && slots[j][0] != END_MARK
    requires |slots| * 32 < |data| ==> data[|slots| * 32] == END_MARK
    ensures ParseEntries(data, i) == slots[i..]
    decreases |slots| - i
  {
    if i < |slots| {
      ParseFound(data, slots, i + 1);
      assert slots[i..] == [slots[i]] + slots[i + 1..];
    }
  }

  // ---- Properties of the tree ----

  /** Every name in the tree is one that the bridge accepts. */
  ghost predicate Named(node: Node)
    decreases node, 1
  {
    ShortName(node.name) && (node.Dir? ==> NamedAll(node.items))
  }

  ghost predicate NamedAll(items: seq<Node>)
    decreases items, 0
  {
    forall i :: 0 <= i < |items| ==> Named(items[i])
  }

  /** Every name in the tree is one that its directory entry preserves. */
  ghost predicate Keeps(node: Node)
    decreases node, 1
  {
    KeepsName(node.name) && (node.Dir? ==> KeepsAll(node.items))
  }

  ghost predicate KeepsAll(items: seq<Node>)
    decreases items, 0
  {
    forall i :: 0 <= i < |items| ==> Keeps(items[i])
  }

  /** The tree with every name trimmed. */
  ghost function Returned(node: Node): Node
    decreases node, 1
  {
    match node
    case File(name, data) => File(Trimmed(name), data)
    case Dir(name, items) => Dir(Trimmed(name), ReturnedAll(items))
  }

  ghost function ReturnedAll(items: seq<Node>): (r: seq<Node>)
    ensures |r| == |items|
    decreases items, 0
  {
    seq(|items|, i requires 0 <= i < |items| => Returned(items[i]))
  }

  lemma ReturnedNext(items: seq<Node>, n: nat)
    requires 0 < n <= |items|
    ensures ReturnedAll(items[..n]) == ReturnedAll(items[..n - 1]) + [Returned(items[n - 1])]
  {
    hide Returned;
  }

  lemma TrimmedIsSame(name: seq<byte>)
    requires ShortName(name)
    ensures Trimmed(name) == name <==> KeepsName(name)
  {
    hide NameOf, Split83, Trimmed, KeepsName, MakeDirEntry, ShortName;
    var n := Split83(name);
    MadeEntry(n, 0, 0, ATTR_ARCHIVE);
    FullNameOfEntry(name, MakeDirEntry(n, 0, 0, ATTR_ARCHIVE));
  }

  /** Trimming leaves a tree as it is if and only if all its names are preserved. */
  lemma {:induction false} ReturnedIsSame(node: Node)
    requires Named(node)
    ensures Returned(node) == node <==> Keeps(node)
    decreases node, 1
  {
    hide Trimmed, KeepsName, ShortName, ReturnedAll, KeepsAll, NamedAll;
    TrimmedIsSame(node.name);
    if node.Dir? {
      AllSame(node.items);
    }
  }

  lemma {:induction false} AllSame(items: seq<Node>)
    requires NamedAll(items)
    ensures ReturnedAll(items) == items <==> KeepsAll(items)
    decreases items, 0
  {
    hide Returned, Keeps, Named;
    forall i | 0 <= i < |items|
      ensures Returned(items[i]) == items[i] <==> Keeps(items[i])
    {
      ReturnedIsSame(items[i]);
    }
    assert ReturnedAll(items) == items <==> forall i :: 0 <= i < |items| ==> Returned(items[i]) == items[i];
  }

  ghost predicate HasEmpty(node: Node)
    decreases node, 1
  {
    match node
    case File(_, data) => data == []
    case Dir(_, items) => AnyEmpty(items, |items|)
  }

  /** Some file among the first n items, or below them, is empty. */
  ghost predicate AnyEmpty(items: seq<Node>, n: nat)
    requires n <= |items|
    decreases items, 0, n
  {
    n > 0 && (HasEmpty(items[n - 1]) || AnyEmpty(items, n - 1))
  }

  ghost function Height(node: Node): nat
    decreases node, 1
  {
    match node
    case File(_, _) => 0
    case Dir(_, items) => 1 + HeightAll(items, |items|)
  }

  ghost function HeightAll(items: seq<Node>, n: nat): (h: nat)
    requires n <= |items|
    ensures forall i :: 0 <= i < n ==> Height(items[i]) <= h
    decreases items, 0, n
  {
    if n == 0 then 0
    else
      var h, last := HeightAll(items, n - 1), Height(items[n - 1]);
      if h >= last then h else last
  }

  // ---- Finding a placed tree ----

  lemma MadeIsLive(name: seq<byte>, first: nat, size: nat, attr: byte)
    requires ShortName(name)
    ensures var raw := MakeDirEntry(Split83(name), first, size, attr);
      && Live(raw) && !Skipped(raw, true) && !Skipped(raw, false)
      && NameOf(raw) == Stripped(Split83(name)) && IsDir(raw) == (attr / 0x10 % 2 == 1)
  {
    hide MakeDirEntry, NameOf, Split83, RStrip, ShortName;
    SplitShortName(name);
    MadeEntry(Split83(name), first, size, attr);
    BaseKeepsFirst(Split83(name).base);
  }

  lemma EntryIsLive(node: Node, k: nat)
    requires ShortName(node.name)
    ensures var raw := EntryOf(node, k);
      && Live(raw) && !Skipped(raw, true) && !Skipped(raw, false)
      && NameOf(raw) == Stripped(Split83(node.name)) && IsDir(raw) == node.Dir?
  {
    hide MakeDirEntry, NameOf, Split83, RStrip, ShortName, Live, Skipped;
    match node
    case File(name, data) => MadeIsLive(name, FirstOf(node, k), |data|, ATTR_ARCHIVE);
    case Dir(name, _) => MadeIsLive(name, k, 0, ATTR_DIRECTORY);
  }

  /** Stripping a base whose first byte is no dot cannot yield "." or "..". */
  lemma BaseKeepsFirst(base: seq<byte>)
    requires |base| == 8 && base[0] != DOT
    ensures RStrip(base) != [DOT] && RStrip(base) != [DOT, DOT]
  {
  }

  lemma DotsAreSkipped(dots: nat, first: nat)
    requires 1 <= dots <= 2
    ensures Skipped(DotEntry(dots, first), true) && DotEntry(dots, first)[0] != END_MARK
  {
    hide MakeDirEntry, NameOf, RStrip;
    var name: seq<byte> := seq(dots, _ => DOT);
    MadeEntry(Name83(LJust(name, 8), LJust([], 3)), first, 0, ATTR_DIRECTORY);
    StripPadding(name, 8);
    StripsToSelf(name);
    assert name == if dots == 1 then [DOT] else [DOT, DOT];
  }

  ghost function DirSlots(items: seq<Node>, self: nat, parent: nat, cs: nat): (r: seq<Slot>)
    requires cs > 0
    ensures |r| == 2 + |items|
  {
    [DotEntry(1, 0), DotEntry(2, parent)] + EntrySlots(items, self + DirClusters(|items|, cs), cs, |items|)
  }

  /** The pieces of a zero-filled directory buffer. */
  lemma DirPieces(a: Slot, b: Slot, rest: seq<byte>, total: nat, j: nat)
    requires |rest| % 32 == 0 && 64 + |rest| <= total && j * 32 < 64 + |rest|
    ensures (j + 1) * 32 <= 64 + |rest|
    ensures SlotAt(PadTo(a + b + rest, total), j) ==
            if j == 0 then a else if j == 1 then b else rest[(j - 2) * 32..(j - 1) * 32]
    ensures 64 + |rest| < total ==> PadTo(a + b + rest, total)[64 + |rest|] == END_MARK
  {
  }

  lemma EntryPiece(items: seq<Node>, k: nat, cs: nat, i: nat)
    requires cs > 0 && NamedAll(items) && i < |items|
    ensures Entries(items, k, cs, |items|)[i * 32..(i + 1) * 32] == EntrySlots(items, k, cs, |items|)[i]
    ensures EntrySlots(items, k, cs, |items|)[i][0] != END_MARK
  {
    hide EntryOf, Entries, EntrySlots, ShortName, EndsInBlank, PlaceOf;
    assert Named(items[i]);
    EntryIsLive(items[i], PlaceOf(items, i, k, cs));
    EntrySlotsIn(items, k, cs, |items|, i);
  }

  lemma DirSlotInData(items: seq<Node>, self: nat, parent: nat, cs: nat, j: nat)
    requires cs > 0 && NamedAll(items) && j < 2 + |items|
    ensures var data, end := DirData(items, self, parent, cs, |items|), (2 + |items|) * 32;
      && end <= |data| && SlotAt(data, j) == DirSlots(items, self, parent, cs)[j]
      && (end < |data| ==> data[end] == END_MARK)
    ensures DirSlots(items, self, parent, cs)[j][0] != END_MARK
  {
    hide DotEntry, Entries, EntrySlots, DirClusters, PadTo, SlotAt, NamedAll;
    var n, k := |items|, self + DirClusters(|items|, cs);
    DirFits(n, cs);
    DirPieces(DotEntry(1, 0), DotEntry(2, parent), Entries(items, k, cs, n), DirClusters(n, cs) * cs, j);
    DotsAreSkipped(1, 0);
    DotsAreSkipped(2, parent);
    if j >= 2 {
      EntryPiece(items, k, cs, j - 2);
    }
  }

  lemma DirAligned(count: nat, cs: nat)
    requires cs > 0 && cs % 32 == 0
    ensures DirClusters(count, cs) * cs % 32 == 0
  {
    DivModUnique(DirClusters(count, cs) * cs, 32, DirClusters(count, cs) * (cs / 32), 0);
  }

  /** `read_dir` parses a directory built by the bridge into its two dot entries
      and the entries of its items. */
  lemma DirDataParses(items: seq<Node>, self: nat, parent: nat, cs: nat)
    requires cs > 0 && cs % 32 == 0 && NamedAll(items)
    ensures var data := DirData(items, self, parent, cs, |items|);
      |data| % 32 == 0 && ParseEntries(data, 0) == DirSlots(items, self, parent, cs)
  {
    hide DirSlots, DirClusters, NamedAll, DirData, SlotAt;
    var data, slots := DirData(items, self, parent, cs, |items|), DirSlots(items, self, parent, cs);
    DirAligned(|items|, cs);
    forall j | 0 <= j < |slots|
      ensures |slots| * 32 <= |data| && SlotAt(data, j) == slots[j] && slots[j][0] != END_MARK
    {
      DirSlotInData(items, self, parent, cs, j);
    }
    DirSlotInData(items, self, parent, cs, 0);
    ParseFound(data, slots, 0);
    assert slots[0..] == slots;
  }

  /** A run is a chain that starts and stays inside the table. */
  lemma RunIsChain(l: Layout, v: Volume, k: nat, n: nat)
    requires Sized(l, v) && IsRun(l, v.table, k, n)
    ensures n > 0 && 2 <= k && k + n <= |v.table| <= 0xFFF7
    ensures HasChain(l, v.table, k) && ChainOf(l, v.table, k) == RunOf(k, n) && Followable(l, v.table, k)
  {
    var run := RunOf(k, n);
    assert run[0] == k && run[n - 1] == k + n - 1;
    ChainIsChainOf(l, v.table, run);
  }

  lemma RunFits(l: Layout, v: Volume, k: nat, n: nat)
    requires Sized(l, v) && IsRun(l, v.table, k, n)
    ensures |RunBytes(v.clusters, k, n)| < 0x1_0000_0000
  {
    RunIsChain(l, v, k, n);
    ChainBytesLength(l, v, RunOf(k, n));
    MulLe(n, 0xFFF7, l.ClusterSize());
  }

  lemma FileIsRead(l: Layout, v: Volume, data: seq<byte>, k: nat)
    requires Sized(l, v) && FileAt(l, v, data, k) && data != []
    ensures k < 0x1_0000 && |data| < 0x1_0000_0000 && ReadAt(l, v, k, |data|) == Done(data)
  {
    hide IsRun, RunOf, HasChain, ChainOf, Followable, ClustersFor;
    var n := ClustersFor(|data|, l.ClusterSize());
    RunIsChain(l, v, k, n);
    RunFits(l, v, k, n);
    var bytes := RunBytes(v.clusters, k, n);
    assert bytes[..|bytes|] == bytes;
    assert Read(l, v, k, |data|) == Take(bytes, |data|);
    ChainIsRead(l, v, k, |data|);
  }

  /** The outcome of walking something that may hold an empty file, which is read by
      following "cluster 0". */
  ghost function Found<T>(l: Layout, t: Table, empty: bool, what: T): Walk<T> {
    if !empty || Followable(l, t, 0) then Done(what)
    else if Halts(t, l.kind.Bad(), 0) then Raised
    else Endless
  }

  /** What the walk sees in the entry of a named node. */
  lemma EntryFields(node: Node, k: nat)
    requires ShortName(node.name)
    ensures var raw := EntryOf(node, k);
      && !Skipped(raw, true) && !Skipped(raw, false) && FullName(raw) == Trimmed(node.name) && IsDir(raw) == node.Dir?
      && FirstCluster(raw) == FirstOf(node, k) % 0x1_0000
      && (node.File? ==> SizeOf(raw) == |node.data| % 0x1_0000_0000)
  {
    hide MakeDirEntry, NameOf, Split83, FullName, Trimmed, KeepsName, ShortName, FirstCluster, SizeOf, Skipped, IsDir;
    EntryIsLive(node, k);
    FullNameOfEntry(node.name, EntryOf(node, k));
    match node
    case File(name, data) => MadeEntry(Split83(name), FirstOf(node, k), |data|, ATTR_ARCHIVE);
    case Dir(name, _) => MadeEntry(Split83(name), k, 0, ATTR_DIRECTORY);
  }

  lemma WalkFile(l: Layout, v: Volume, node: Node, k: nat, depth: nat)
    requires Sized(l, v) && node.File? && FileAt(l, v, node.data, k) && ShortName(node.name)
    ensures WalkEntry(l, v, EntryOf(node, k), depth) == Found(l, v.table, HasEmpty(node), Returned(node))
  {
    hide EntryOf, FullName, Trimmed, ShortName, FirstCluster, SizeOf, ReadAt, FileAt, WalkDir, IsDir, Followable;
    EntryFields(node, k);
    if node.data == [] {
      ReadsNothing(l, v);
    } else {
      FileIsRead(l, v, node.data, k);
    }
  }

  /** An empty file is read by following "cluster 0". */
  lemma ReadsNothing(l: Layout, v: Volume)
    requires Sized(l, v)
    ensures ReadAt(l, v, 0, 0) == Found(l, v.table, true, [])
  {
  }

  lemma {:induction false} WalkNode(l: Layout, v: Volume, node: Node, k: nat, parent: nat, depth: nat)
    requires Sized(l, v) && NodeAt(l, v, node, k, parent) && Named(node) && Height(node) <= depth
    ensures WalkEntry(l, v, EntryOf(node, k), depth) == Found(l, v.table, HasEmpty(node), Returned(node))
    decreases node, 2
  {
    hide EntryOf, FullName, Trimmed, ShortName, FirstCluster, SizeOf, ReadAt, FileAt, DirAt, WalkDir, IsDir, Followable;
    match node
    case File(_, _) => WalkFile(l, v, node, k, depth);
    case Dir(name, items) =>
      WalkPlacedDir(l, v, items, k, parent, depth - 1);
      EntryFields(node, k);
      DirStart(l, v, items, k, parent);
  }

  lemma DirStart(l: Layout, v: Volume, items: seq<Node>, k: nat, parent: nat)
    requires Sized(l, v) && DirAt(l, v, items, k, parent)
    ensures 2 <= k < 0x1_0000
  {
    RunIsChain(l, v, k, DirClusters(|items|, l.ClusterSize()));
  }

  lemma DirEntriesFound(l: Layout, v: Volume, items: seq<Node>, k: nat, parent: nat)
    requires Sized(l, v) && DirAt(l, v, items, k, parent) && NamedAll(items)
    ensures DirEntries(l, v, k) == Done(DirSlots(items, k, parent, l.ClusterSize()))
  {
    hide DirSlots, DirData, NamedAll, ItemsAt;
    var cs := l.ClusterSize();
    DivModUnique(cs, 32, 16 * l.sectorsPerCluster, 0);
    RunIsChain(l, v, k, DirClusters(|items|, cs));
    DirDataParses(items, k, parent, cs);
    ChainIsRead(l, v, k, 0);
  }

  /** Walking a placed directory yields its items, trimmed. */
  lemma {:induction false} WalkPlacedDir(l: Layout, v: Volume, items: seq<Node>, k: nat, parent: nat, depth: nat)
    requires Sized(l, v) && DirAt(l, v, items, k, parent) && NamedAll(items) && HeightAll(items, |items|) <= depth
    ensures WalkDir(l, v, k, depth) == Found(l, v.table, AnyEmpty(items, |items|), ReturnedAll(items))
    decreases items, 1
  {
    hide DotEntry, NamedAll, HeightAll, AnyEmpty, DirEntries, IsRun, RunBytes, DirData, WalkEntries, EntrySlots,
         Followable;
    var cs := l.ClusterSize();
    var dots := [DotEntry(1, 0), DotEntry(2, parent)];
    DirEntriesFound(l, v, items, k, parent);
    DotsWalk(l, v, parent, depth);
    WalkItems(l, v, items, k + DirClusters(|items|, cs), k, dots, true, |items|, depth);
    assert items[..|items|] == items;
  }

  lemma DotsWalk(l: Layout, v: Volume, parent: nat, depth: nat)
    requires Sized(l, v)
    ensures WalkEntries(l, v, [DotEntry(1, 0), DotEntry(2, parent)], true, depth) == Done([])
  {
    hide DotEntry, WalkEntry, Skipped;
    DotsAreSkipped(1, 0);
    DotsAreSkipped(2, parent);
    var first := [DotEntry(1, 0)];
    assert first[..0] == [];
    assert WalkEntries(l, v, first, true, depth) == Done([]);
    assert (first + [DotEntry(2, parent)])[..1] == first;
    assert first + [DotEntry(2, parent)] == [DotEntry(1, 0), DotEntry(2, parent)];
  }

  /** Walking the entries of the first n placed items, behind entries that yield
      nothing, yields these items, trimmed. */
  lemma {:induction false} WalkItems(l: Layout, v: Volume, items: seq<Node>, k: nat, parent: nat,
                                     before: seq<Slot>, dots: bool, n: nat, depth: nat)
    requires Sized(l, v) && n <= |items| && ItemsAt(l, v, items, k, parent, n) && NamedAll(items)
    requires HeightAll(items, |items|) <= depth && WalkEntries(l, v, before, dots, depth) == Done([])
    ensures WalkEntries(l, v, before + EntrySlots(items, k, l.ClusterSize(), n), dots, depth) ==
            Found(l, v.table, AnyEmpty(items, n), ReturnedAll(items[..n]))
    decreases items, 0, n
  {
    hide EntryOf, NodeAt, PlaceOf, Height, HasEmpty, WalkEntry, WalkEntries, Skipped, ShortName, FullName, IsDir,
         Returned, FirstCluster, SizeOf, Followable, Found;
    if n == 0 {
      assert before + [] == before;
      NothingFound(l, v.table, ReturnedAll(items[..0]));
    } else {
      var cs := l.ClusterSize();
      var node, place := items[n - 1], PlaceOf(items, n - 1, k, cs);
      var front := before + EntrySlots(items, k, cs, n - 1);
      assert before + EntrySlots(items, k, cs, n) == front + [EntryOf(node, place)];
      WalkItems(l, v, items, k, parent, before, dots, n - 1, depth);
      assert Named(node);
      WalkNode(l, v, node, place, parent, depth);
      EntryFields(node, place);
      ReturnedNext(items, n);
      OneMoreEntry(l, v, front, EntryOf(node, place), dots, depth, AnyEmpty(items, n - 1), ReturnedAll(items[..n - 1]),
                   HasEmpty(node), Returned(node));
    }
  }

  lemma NothingFound(l: Layout, t: Table, items: seq<Node>)
    ensures Found(l, t, false, items) == Done(items)
  {
  }

  /** The walk past one more entry that is not skipped. */
  lemma OneMoreEntry(l: Layout, v: Volume, front: seq<Slot>, raw: Slot, dots: bool, depth: nat,
                     empty: bool, nodes: seq<Node>, last: bool, node: Node)
    requires Sized(l, v) && !Skipped(raw, dots)
    requires WalkEntries(l, v, front, dots, depth) == Found(l, v.table, empty, nodes)
    requires WalkEntry(l, v, raw, depth) == Found(l, v.table, last, node)
    ensures WalkEntries(l, v, front + [raw], dots, depth) == Found(l, v.table, last || empty, nodes + [node])
  {
  }

  // ---- Empty files ----

  /** On a packed table reading an empty file returns exactly when the media byte,
      taken for a link, ends a chain or names a cluster in use; it never ends when
      the byte names a free cluster, and raises when it names none. */
  lemma EmptyFileReads(l: Layout, v: Volume, k: nat)
    requires Sized(l, v) && Packed(l, v.table, k) && 2 <= v.table[0]
    ensures Followable(l, v.table, 0) <==> v.table[0] >= l.kind.Bad() || v.table[0] < k
    ensures Halts(v.table, l.kind.Bad(), 0) <==> !(k <= v.table[0] < |v.table|)
  {
    var t, bad, m := v.table, l.kind.Bad(), v.table[0];
    assert Final(t, bad, 0, |t|) == Final(t, bad, m, |t| - 1);
    if m < k {
      PackedHalts(l, t, k, m, |t| - 1);
    } else if m < |t| {
      ZeroLoops(t, bad, m, |t|);
    }
  }

  // ---- The whole volume ----

  /** The root directory lists the placed items and nothing else. */
  ghost predicate RootAt(l: Layout, v: Volume, items: seq<Node>)
    requires l.Valid()
  {
    && |items| <= |v.slots|
    && (forall i :: 0 <= i < |items| ==> v.slots[i] == EntryOf(items[i], PlaceOf(items, i, 2, l.ClusterSize())))
    && (forall i :: |items| <= i < |v.slots| ==> v.slots[i][0] == END_MARK)
    && ItemsAt(l, v, items, 2, 0, |items|)
  }

  lemma {:induction false} ParseRootFound(slots: seq<Slot>, n: nat, i: nat)
    requires i <= n <= |slots|
    requires forall j :: i <= j < n ==> slots[j][0] != END_MARK
    requires forall j :: n <= j < |slots| ==> slots[j][0] == END_MARK
    ensures ParseRoot(slots, i) == slots[i..n]
    decreases n - i
  {
    if i < |slots| {
      var hi := if i + 16 <= |slots| then i + 16 else |slots|;
      ParseSectorFound(slots, n, i, hi);
      if hi <= n {
        ParseRootFound(slots, n, hi);
        assert slots[i..n] == slots[i..hi] + slots[hi..n];
      } else {
        ParseRootEmpty(slots, hi);
      }
    }
  }

  lemma {:induction false} ParseSectorFound(slots: seq<Slot>, n: nat, i: nat, hi: nat)
    requires i <= n <= |slots| && i <= hi <= |slots|
    requires forall j :: i <= j < n ==> slots[j][0] != END_MARK
    requires forall j :: n <= j < |slots| ==> slots[j][0] == END_MARK
    ensures ParseSector(slots, i, hi) == slots[i..if n < hi then n else hi]
    decreases hi - i
  {
    if i < hi && i < n {
      ParseSectorFound(slots, n, i + 1, hi);
    }
  }

  lemma {:induction false} ParseRootEmpty(slots: seq<Slot>, i: nat)
    requires forall j :: i <= j < |slots| ==> slots[j][0] == END_MARK
    ensures ParseRoot(slots, i) == []
    decreases |slots| - i
  {
    if i < |slots| {
      ParseRootEmpty(slots, if i + 16 <= |slots| then i + 16 else |slots|);
    }
  }

  lemma {:induction false} EntrySlotsAre(items: seq<Node>, k: nat, cs: nat, slots: seq<Slot>)
    requires cs > 0 && |slots| == |items|
    requires forall i :: 0 <= i < |items| ==> slots[i] == EntryOf(items[i], PlaceOf(items, i, k, cs))
    ensures EntrySlots(items, k, cs, |items|) == slots
  {
    hide EntryOf, EntrySlots;
    var r := EntrySlots(items, k, cs, |items|);
    forall i | 0 <= i < |items|
      ensures r[i] == slots[i]
    {
      EntrySlotsIn(items, k, cs, |items|, i);
    }
  }

  /** The walk of a volume on which the bridge placed a tree: it finds the tree with
      its names trimmed, unless the tree has an empty file and reading one fails. */
  lemma WalkFindsTree(l: Layout, v: Volume, items: seq<Node>)
    requires Sized(l, v) && RootAt(l, v, items) && NamedAll(items)
    ensures WalkRoot(l, v, HeightAll(items, |items|)) == Found(l, v.table, AnyEmpty(items, |items|), ReturnedAll(items))
  {
    hide EntryOf, PlaceOf, NamedAll, HeightAll, AnyEmpty, WalkEntries, EntrySlots, Followable, ItemsAt, ParseRoot,
         ReturnedAll;
    var n, cs := |items|, l.ClusterSize();
    RootIsListed(l, v, items);
    WalksNothing(l, v, HeightAll(items, n));
    WalkItems(l, v, items, 2, 0, [], false, n, HeightAll(items, n));
    assert [] + EntrySlots(items, 2, cs, n) == EntrySlots(items, 2, cs, n);
    assert items[..n] == items;
  }

  /** Parsing the root directory yields the entries of the placed items. */
  lemma RootIsListed(l: Layout, v: Volume, items: seq<Node>)
    requires Sized(l, v) && RootAt(l, v, items) && NamedAll(items)
    ensures ParseRoot(v.slots, 0) == EntrySlots(items, 2, l.ClusterSize(), |items|)
  {
    hide EntryOf, PlaceOf, NamedAll, EntrySlots, ItemsAt, ParseRoot, ShortName;
    var n, cs := |items|, l.ClusterSize();
    forall j | 0 <= j < n
      ensures v.slots[j][0] != END_MARK
    {
      NamedAt(items, j);
      EntryIsLive(items[j], PlaceOf(items, j, 2, cs));
    }
    ParseRootFound(v.slots, n, 0);
    EntrySlotsAre(items, 2, cs, v.slots[..n]);
  }

  lemma NamedAt(items: seq<Node>, i: nat)
    requires NamedAll(items) && i < |items|
    ensures ShortName(items[i].name)
  {
  }

  lemma WalksNothing(l: Layout, v: Volume, depth: nat)
    requires Sized(l, v)
    ensures WalkEntries(l, v, [], false, depth) == Done([])
  {
  }
}
