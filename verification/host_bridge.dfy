/** `hostbridge.py`: building a volume from a host directory tree, and walking a
    volume back into a tree. Reading and writing host files is replaced by tree
    values; the volume is changed in place. */
module HostBridge {
  import opened Bytes
  import opened Disks
  import opened FatTable
  import opened FatLayout
  import opened DosNames
  import opened Volumes
  import opened VolumeOps
  import opened Floppy
  import opened FatImage
  import opened FatVolumes
  import opened HostTree
  import opened TreePlacement
  import opened TreeWalk
  import opened TreeLinks

  /** Between the volumes the clusters below k and the root slots are unchanged. */
  ghost predicate Grown(v: Volume, v': Volume, k: nat) {
    && v'.slots == v.slots && |v.table| == |v'.table| && |v.clusters| == |v'.clusters| == |v.table|
    && forall c :: 0 <= c < k && c < |v.table| ==> v'.table[c] == v.table[c] && v'.clusters[c] == v.clusters[c]
  }

  /** The sector loop of `write_data` for one cluster. */
  method WriteSectors(disk: Disk, sector: nat, n: nat, chunk: seq<byte>)
    requires disk.Valid() && !disk.readOnly && sector + n <= |disk.sectors| && |chunk| <= n * SECTOR
    modifies disk
    ensures disk.Valid() && !disk.readOnly && Outside(old(disk.sectors), disk.sectors, sector, sector + n)
    ensures SectorRun(disk.sectors, sector, n) == PadTo(chunk, n * SECTOR)
  {
    hide SectorRun;
    ghost var img, whole := disk.sectors, PadTo(chunk, n * SECTOR);
    for offset := 0 to n
      invariant disk.Valid() && !disk.readOnly && Outside(img, disk.sectors, sector, sector + offset)
      invariant forall i :: 0 <= i < offset ==> disk.sectors[sector + i] == Slice(whole, i * SECTOR, (i + 1) * SECTOR)
    {
      var start := offset * SECTOR;
      var buf := PadTo(Slice(chunk, start, start + SECTOR), SECTOR);
      assert buf == Slice(whole, start, start + SECTOR) && buf[..SECTOR] == buf;
      var _ := disk.WriteSector(sector + offset, buf);
    }
    PiecesMakeRun(disk.sectors, sector, n, whole);
  }

  method WriteChunk(fat: FatVolume, c: nat, chunk: seq<byte>)
    requires fat.Ready() && 2 <= c < fat.l.Limit() && |chunk| <= fat.l.ClusterSize()
    modifies fat.disk
    ensures fat.Ready()
    ensures fat.Vol() == old(fat.Vol()).(clusters := old(fat.Vol()).clusters[c := PadTo(chunk, fat.l.ClusterSize())])
  {
    hide SectorRun, ClustersOf, FatCopy, RootBytes, SlotsOf, ParseRoot, PadTo, Layout.TotalClusters, Layout.DataStart,
         Layout.RootStart, Layout.RootSectors;
    var l := fat.l;
    l.ClusterFits(c);
    ghost var img := fat.disk.sectors;
    WriteSectors(fat.disk, l.SectorOf(c), l.sectorsPerCluster, chunk);
    ClusterWriteFrame(l, img, fat.disk.sectors, c);
  }

  /** The chunk loop of `write_data`. */
  method WriteChunks(fat: FatVolume, chain: seq<nat>, data: seq<byte>)
    requires fat.Ready() && forall i :: 0 <= i < |chain| ==> 2 <= chain[i] < fat.l.Limit()
    modifies fat.disk
    ensures fat.Ready()
    ensures fat.Vol()
      == old(fat.Vol()).(clusters := Stored(old(fat.Vol()).clusters, chain, data, fat.l.ClusterSize(), |chain|))
  {
    hide VolumeOf, Mirrored, FatCopy, RootBytes, SlotsOf, ParseRoot, Chunk, PadTo, Layout.TotalClusters,
         Layout.RootStart, Layout.RootSectors, Layout.DataStart;
    ghost var v := fat.Vol();
    for index := 0 to |chain|
      invariant fat.Ready()
      invariant fat.Vol() == v.(clusters := Stored(v.clusters, chain, data, fat.l.ClusterSize(), index))
    {
      var chunk := Chunk(data, index, fat.l.ClusterSize());
      WriteChunk(fat, chain[index], chunk);
    }
  }

  /** `max(1, ...)` clusters for a buffer. */
  function CountFor(size: nat, cs: nat): (n: nat)
    requires cs > 0
    ensures n >= 1
  {
    var need := ClustersFor(size, cs);
    if need > 1 then need else 1
  }

  /** A buffer stored in the n clusters from k on of a packed volume. */
  ghost predicate DataPlaced(l: Layout, v: Volume, v': Volume, data: seq<byte>, k: nat, n: nat)
    requires Sized(l, v') && k + n <= l.Limit()
  {
    && Grown(v, v', k) && Packed(l, v'.table, k + n) && IsRun(l, v'.table, k, n)
    && RunBytes(v'.clusters, k, n) == Padded(data, n * l.ClusterSize())
  }

  /** `write_data`: at least one cluster; None when the volume is full. */
  method WriteData(fat: FatVolume, data: seq<byte>, ghost k: nat) returns (first: Option<nat>)
    requires fat.Ready() && Packed(fat.l, fat.Vol().table, k)
    modifies fat.Repr()
    ensures fat.Ready() && fresh(fat.Repr() - old(fat.Repr()))
    ensures first.Some? <==> k + CountFor(|data|, fat.l.ClusterSize()) <= fat.l.Limit()
    ensures first.Some? ==> first.value == k
    ensures first.Some? ==> DataPlaced(fat.l, old(fat.Vol()), fat.Vol(), data, k, CountFor(|data|, fat.l.ClusterSize()))
  {
    hide VolumeOf, Mirrored, FatCopy, RootBytes, SlotsOf, ParseRoot, Packed, Allocated, FirstFit, Stored, RunBytes,
         IsRun, CountFor, Layout.TotalClusters, Layout.RootStart, Layout.RootSectors, Layout.DataStart;
    var l := fat.l;
    var count := CountFor(|data|, l.ClusterSize());
    ghost var v := fat.Vol();
    PackedBound(l, v.table, k);
    PackedFirstFit(l, v.table, k, count);
    var chain := fat.AllocClusters(count);
    if chain.None? {
      return None;
    }
    PackedLink(l, v.table, k, count);
    ghost var v1 := fat.Vol();
    WriteChunks(fat, chain.value, data);
    RunStored(v1.clusters, k, count, data, l.ClusterSize());
    first := Some(chain.value[0]);
  }

  lemma PackedBound(l: Layout, t: Table, k: nat)
    requires Packed(l, t, k)
    ensures 2 <= k <= |t|
  {
  }

  lemma RunStored(clusters: seq<seq<byte>>, k: nat, n: nat, data: seq<byte>, cs: nat)
    requires k + n <= |clusters| && Distinct(RunOf(k, n))
    ensures RunBytes(Stored(clusters, RunOf(k, n), data, cs, n), k, n) == Padded(data, n * cs)
    ensures forall c :: 0 <= c < k ==> Stored(clusters, RunOf(k, n), data, cs, n)[c] == clusters[c]
  {
    StoredReadsBack(clusters, RunOf(k, n), data, cs, n);
    assert RunOf(k, n)[..n] == RunOf(k, n);
    assert forall c :: c in RunOf(k, n) ==> k <= c;
  }

  // ---- Directories ----

  /** The clusters after a buffer is written over n clusters in a row. */
  ghost function Overwritten(clusters: seq<seq<byte>>, k: nat, n: nat, data: seq<byte>, cs: nat): (r: seq<seq<byte>>)
    requires |data| == n * cs
    ensures |r| == |clusters|
  {
    seq(|clusters|, c requires 0 <= c < |clusters| => if k <= c < k + n then Chunk(data, c - k, cs) else clusters[c])
  }

  lemma {:induction false} OverwrittenRun(clusters: seq<seq<byte>>, k: nat, n: nat, data: seq<byte>, cs: nat, m: nat)
    requires |data| == n * cs && m <= n && k + n <= |clusters| && m * cs <= |data|
    ensures RunBytes(Overwritten(clusters, k, n, data, cs), k, m) == data[..m * cs]
  {
    hide Overwritten, Chunk;
    if m == 0 {
      assert data[..0 * cs] == [];
    } else {
      var r := Overwritten(clusters, k, n, data, cs);
      ChunkEnds(data, m - 1, cs);
      OverwrittenRun(clusters, k, n, data, cs, m - 1);
      assert RunOf(k, m)[..m - 1] == RunOf(k, m - 1) && RunOf(k, m)[m - 1] == k + m - 1;
      OverwrittenAt(clusters, k, n, data, cs, m - 1);
    }
  }

  lemma OverwrittenAt(clusters: seq<seq<byte>>, k: nat, n: nat, data: seq<byte>, cs: nat, i: nat)
    requires |data| == n * cs && i < n && k + n <= |clusters|
    ensures Overwritten(clusters, k, n, data, cs)[k + i] == Chunk(data, i, cs)
  {
    hide Chunk;
  }

  lemma ChunkEnds(data: seq<byte>, i: nat, cs: nat)
    requires (i + 1) * cs <= |data|
    ensures i * cs <= (i + 1) * cs && data[..(i + 1) * cs] == data[..i * cs] + Chunk(data, i, cs)
  {
    var lo := i * cs;
    assert (i + 1) * cs == lo + cs;
  }

  /** Clusters with consecutive numbers adjoin, so consecutive sectors from
      cluster k on make up the clusters from k on. */
  lemma ClusterInRun(l: Layout, img: Image, k: nat, n: nat, sectors: nat, c: nat)
    requires ImageOk(l, img) && 2 <= k <= c < k + n <= l.Limit() && sectors == n * l.sectorsPerCluster
    requires l.SectorOf(k) >= 0 && l.SectorOf(k) + sectors <= |img|
    ensures ClusterAt(l, img, c) == Chunk(SectorRun(img, l.SectorOf(k), sectors), c - k, l.ClusterSize())
  {
    hide SectorRun, Chunk, Layout.TotalClusters, Layout.DataStart;
    var spc, m := l.sectorsPerCluster, c - k;
    l.ClusterFits(c);
    var off := m * spc;
    assert l.SectorOf(c) == l.SectorOf(k) + off;
    RunStride(m, n, spc);
    SectorRunPart(img, l.SectorOf(k), sectors, off, spc);
    ChunkInside(SectorRun(img, l.SectorOf(k), sectors), m, l.ClusterSize(), off * SECTOR, (off + spc) * SECTOR);
  }

  lemma RunStride(m: nat, n: nat, spc: nat)
    requires m < n
    ensures m * spc + spc <= n * spc
    ensures m * (SECTOR * spc) == m * spc * SECTOR && (m + 1) * (SECTOR * spc) == (m * spc + spc) * SECTOR
  {
    MulLe(m + 1, n, spc);
  }

  lemma ChunkInside(data: seq<byte>, m: nat, cs: nat, lo: nat, hi: nat)
    requires m * cs == lo && (m + 1) * cs == hi && lo <= hi <= |data|
    ensures Chunk(data, m, cs) == data[lo..hi]
  {
  }

  lemma ClusterOffRun(l: Layout, img: Image, img': Image, k: nat, n: nat, sectors: nat, c: nat)
    requires ImageOk(l, img) && ImageOk(l, img') && 2 <= k && k + n <= l.Limit() && sectors == n * l.sectorsPerCluster
    requires Outside(img, img', l.SectorOf(k), l.SectorOf(k) + sectors)
    requires 2 <= c < l.Limit() && !(k <= c < k + n)
    ensures ClusterAt(l, img', c) == ClusterAt(l, img, c)
  {
    hide SectorRun, Layout.TotalClusters, Layout.DataStart;
    l.ClusterFits(c);
    assert l.SectorOf(k + n) == l.SectorOf(k) + sectors;
    if c < k {
      l.ClustersApart(c, k);
    } else if c > k + n {
      l.ClustersApart(k + n, c);
    }
    SectorRunFrame(img, img', l.SectorOf(k), l.SectorOf(k) + sectors, l.SectorOf(c), l.sectorsPerCluster);
  }

  lemma SectorsAreClusters(l: Layout, img: Image, img': Image, k: nat, n: nat, sectors: nat)
    requires ImageOk(l, img) && ImageOk(l, img') && 2 <= k && k + n <= l.Limit() && sectors == n * l.sectorsPerCluster
    requires l.SectorOf(k) >= 0 && l.SectorOf(k) + sectors <= |img|
    requires Outside(img, img', l.SectorOf(k), l.SectorOf(k) + sectors)
    ensures sectors * SECTOR == n * l.ClusterSize()
    ensures ClustersOf(l, img')
      == Overwritten(ClustersOf(l, img), k, n, SectorRun(img', l.SectorOf(k), sectors), l.ClusterSize())
  {
    hide SectorRun, ClusterAt, Chunk, Layout.TotalClusters, Layout.DataStart, Layout.SectorOf;
    var cs := l.ClusterSize();
    RunStride(0, n + 1, l.sectorsPerCluster);
    assert sectors * SECTOR == n * cs;
    var data := SectorRun(img', l.SectorOf(k), sectors);
    forall c | 2 <= c < l.Limit()
      ensures ClusterAt(l, img', c) == if k <= c < k + n then Chunk(data, c - k, cs) else ClusterAt(l, img, c)
    {
      if k <= c < k + n {
        ClusterInRun(l, img', k, n, sectors, c);
      } else {
        ClusterOffRun(l, img, img', k, n, sectors, c);
      }
    }
  }

  lemma RunFitsDisk(l: Layout, k: nat, n: nat, sectors: nat)
    requires l.Valid() && 2 <= k && 0 < n && k + n <= l.Limit() && sectors == n * l.sectorsPerCluster
    ensures l.DataStart() <= l.SectorOf(k) && l.SectorOf(k) + sectors <= l.totalSectors
  {
    hide Layout.TotalClusters, Layout.DataStart;
    l.ClusterFits(k);
    l.ClusterFits(k + n - 1);
    assert l.SectorOf(k + n - 1) == l.SectorOf(k) + (n - 1) * l.sectorsPerCluster;
  }

  lemma FatAndRootFrame(l: Layout, img: Image, img': Image, lo: int, hi: int)
    requires ImageOk(l, img) && ImageOk(l, img') && Outside(img, img', lo, hi) && l.DataStart() <= lo
    ensures RootBytes(l, img') == RootBytes(l, img)
    ensures forall copy :: 0 <= copy < l.numFats ==> FatCopy(l, img', copy) == FatCopy(l, img, copy)
  {
    FatCopiesFrame(l, img, img', lo, hi);
    SectorRunFrame(img, img', lo, hi, l.RootStart(), l.RootSectors());
  }

  /** The last loop of `write_directory`: the finished directory goes to the
      sectors that follow each other from its first cluster on. */
  method RewriteRun(fat: FatVolume, k: nat, n: nat, data: seq<byte>)
    requires fat.Ready() && 2 <= k && 0 < n && k + n <= fat.l.Limit() && |data| == n * fat.l.ClusterSize()
    modifies fat.disk
    ensures fat.Ready()
    ensures fat.Vol()
      == old(fat.Vol()).(clusters := Overwritten(old(fat.Vol()).clusters, k, n, data, fat.l.ClusterSize()))
  {
    hide FatCopy, RootBytes, ClustersOf, Overwritten, SectorRun, SlotsOf, ParseRoot, Layout.TotalClusters,
         Layout.RootStart, Layout.RootSectors, Layout.DataStart;
    var l := fat.l;
    l.Regions();
    var sectors := n * l.sectorsPerCluster;
    assert sectors * SECTOR == |data|;
    RunFitsDisk(l, k, n, sectors);
    var start := l.SectorOf(k);
    ghost var img := fat.disk.sectors;
    WriteRun(fat.disk, start, sectors, data);
    SectorsAreClusters(l, img, fat.disk.sectors, k, n, sectors);
    FatAndRootFrame(l, img, fat.disk.sectors, start, start + sectors);
  }

  // ---- Trees ----

  lemma DirDataStart(items: seq<Node>, self: nat, parent: nat, cs: nat)
    requires cs > 0
    ensures 64 <= DirClusters(|items|, cs) * cs
    ensures DirData(items, self, parent, cs, 0) ==
            DotEntry(1, 0) + DotEntry(2, parent) + Zeros(DirClusters(|items|, cs) * cs - 64)
  {
    hide DotEntry, DirClusters;
    DirFits(|items|, cs);
  }

  lemma DirDataNext(items: seq<Node>, self: nat, parent: nat, cs: nat, i: nat)
    requires cs > 0 && i < |items|
    ensures var data := DirData(items, self, parent, cs, i);
      && 96 + i * 32 <= |data|
      && DirData(items, self, parent, cs, i + 1) ==
         data[..64 + i * 32]
         + EntryOf(items[i], PlaceOf(items, i, self + DirClusters(|items|, cs), cs)) + data[96 + i * 32..]
  {
    hide DotEntry, DirClusters, EntryOf, PlaceOf;
    DirFits(|items|, cs);
  }

  /** A node that was placed from k on in a packed volume. */
  ghost predicate NodePlaced(l: Layout, v: Volume, v': Volume, node: Node, k: nat, parent: nat)
    requires l.Valid()
  {
    && Grown(v, v', k) && Packed(l, v'.table, k + Need(node, l.ClusterSize()))
    && NodeAt(l, v', node, k, parent)
  }

  ghost predicate DirPlaced(l: Layout, v: Volume, v': Volume, items: seq<Node>, k: nat, parent: nat)
    requires l.Valid()
  {
    && Grown(v, v', k) && Packed(l, v'.table, k + DirNeed(items, l.ClusterSize()))
    && DirAt(l, v', items, k, parent)
  }

  /** Placing one more item keeps those already in place. */
  lemma ItemsGrow(l: Layout, v: Volume, v': Volume, items: seq<Node>, k: nat, parent: nat, i: nat)
    requires l.Valid() && i < |items| && ItemsAt(l, v, items, k, parent, i)
    requires |v.table| == |v.clusters| && PlaceOf(items, i, k, l.ClusterSize()) <= |v.table|
    requires NodePlaced(l, v, v', items[i], PlaceOf(items, i, k, l.ClusterSize()), parent)
    ensures ItemsAt(l, v', items, k, parent, i + 1)
    ensures Packed(l, v'.table, PlaceOf(items, i + 1, k, l.ClusterSize()))
  {
    hide PlaceOf, NodeAt, Need, Layout.TotalClusters;
    PlaceNext(items, i, k, l.ClusterSize());
    ItemsFrame(l, v, v', items, k, parent, i);
  }

  /** A directory at k whose clusters are allocated and whose first i items are in place. */
  ghost predicate Filling(l: Layout, v: Volume, v': Volume, items: seq<Node>, k: nat, i: nat)
    requires l.Valid() && i <= |items|
  {
    var n := DirClusters(|items|, l.ClusterSize());
    && Grown(v, v', k) && 2 <= k && k + n <= |v'.table| && IsRun(l, v'.table, k, n)
    && Packed(l, v'.table, PlaceOf(items, i, k + n, l.ClusterSize()))
    && ItemsAt(l, v', items, k + n, k, i)
  }

  lemma FillingStarts(l: Layout, v: Volume, v': Volume, items: seq<Node>, data: seq<byte>, k: nat)
    requires Sized(l, v') && 2 <= k && k + DirClusters(|items|, l.ClusterSize()) <= l.Limit()
    requires DataPlaced(l, v, v', data, k, DirClusters(|items|, l.ClusterSize()))
    ensures Filling(l, v, v', items, k, 0)
  {
  }

  lemma FillingStep(l: Layout, v: Volume, v1: Volume, v2: Volume, items: seq<Node>, k: nat, i: nat)
    requires Sized(l, v1) && i < |items| && Filling(l, v, v1, items, k, i)
    requires var place := PlaceOf(items, i, k + DirClusters(|items|, l.ClusterSize()), l.ClusterSize());
      NodePlaced(l, v1, v2, items[i], place, k)
    ensures Filling(l, v, v2, items, k, i + 1)
  {
    hide IsRun, NodeAt, PlaceOf, ItemsAt, Need, DirClusters, Layout.TotalClusters;
    var n, cs := DirClusters(|items|, l.ClusterSize()), l.ClusterSize();
    PlaceMonotone(items, 0, i, k + n, cs);
    ItemsGrow(l, v1, v2, items, k + n, k, i);
    RunFrame(l, v1, v2, k, n);
  }

  lemma FillingEnds(l: Layout, v: Volume, v1: Volume, v2: Volume, items: seq<Node>, k: nat, parent: nat,
                    data: seq<byte>)
    requires Sized(l, v1) && Filling(l, v, v1, items, k, |items|)
    requires data == DirData(items, k, parent, l.ClusterSize(), |items|)
    requires v2
      == v1.(clusters := Overwritten(v1.clusters, k, DirClusters(|items|, l.ClusterSize()), data, l.ClusterSize()))
    ensures DirPlaced(l, v, v2, items, k, parent)
  {
    hide IsRun, NodeAt, Need, DirClusters, DirData, RunBytes, NeedAll, Layout.TotalClusters;
    var n, cs := DirClusters(|items|, l.ClusterSize()), l.ClusterSize();
    PlaceEnds(items, k + n, cs);
    ItemsFrame(l, v1, v2, items, k + n, k, |items|);
    OverwrittenRun(v1.clusters, k, n, data, cs, n);
    assert data[..n * cs] == data;
  }

  lemma CountExact(n: nat, cs: nat)
    requires cs > 0 && n > 0
    ensures CountFor(n * cs, cs) == n
  {
    DivModUnique(n * cs + cs - 1, cs, n, cs - 1);
  }

  /** Placing item i takes part of what the whole directory needs. */
  lemma NeedsRoom(items: seq<Node>, i: nat, k: nat, cs: nat)
    requires cs > 0 && i < |items|
    ensures PlaceOf(items, i, k, cs) + Need(items[i], cs) <= k + NeedAll(items, cs)
  {
    hide Need, NeedAll, PlaceOf;
    PlaceNext(items, i, k, cs);
    PlaceMonotone(items, i + 1, |items|, k, cs);
    PlaceEnds(items, k, cs);
  }

  /** The body of both item loops: the entry for a node, whose data or directory
      is written first; None when the volume is full. */
  method WriteItem(fat: FatVolume, node: Node, parent: nat, ghost k: nat) returns (entry: Option<Slot>)
    requires fat.Ready() && Packed(fat.l, fat.Vol().table, k)
    modifies fat.Repr()
    ensures fat.Ready() && fresh(fat.Repr() - old(fat.Repr()))
    ensures entry.Some? <==> k + Need(node, fat.l.ClusterSize()) <= fat.l.Limit()
    ensures entry.Some? ==> entry.value == EntryOf(node, k)
    ensures entry.Some? ==> NodePlaced(fat.l, old(fat.Vol()), fat.Vol(), node, k, parent)
    decreases node
  {
    hide VolumeOf, Mirrored, FatCopy, RootBytes, SlotsOf, ParseRoot, Packed, MakeDirEntry, DirNeed, NodePlaced,
         DirPlaced, DataPlaced, Layout.TotalClusters, Layout.RootStart, Layout.RootSectors, Layout.DataStart;
    ghost var v := fat.Vol();
    PackedBound(fat.l, v.table, k);
    match node
    case Dir(name, items) =>
      var first := WriteDirectory(fat, items, parent, k);
      if first.None? {
        return None;
      }
      DirIsNode(fat.l, v, fat.Vol(), node, k, parent);
      entry := Some(MakeDirEntry(Split83(name), first.value, 0, ATTR_DIRECTORY));
    case File(name, data) =>
      if data == [] {
        NothingIsNode(fat.l, v, node, k, parent);
        return Some(MakeDirEntry(Split83(name), 0, |data|, ATTR_ARCHIVE));
      }
      CountIsNeed(fat.l, data);
      var first := WriteData(fat, data, k);
      if first.None? {
        return None;
      }
      DataIsNode(fat.l, v, fat.Vol(), node, k, parent);
      entry := Some(MakeDirEntry(Split83(name), first.value, |data|, ATTR_ARCHIVE));
  }

  lemma DirIsNode(l: Layout, v: Volume, v': Volume, node: Node, k: nat, parent: nat)
    requires l.Valid() && node.Dir? && DirPlaced(l, v, v', node.items, k, parent)
    ensures NodePlaced(l, v, v', node, k, parent)
  {
    hide DirAt, DirNeed, Packed, Layout.TotalClusters;
  }

  lemma NothingIsNode(l: Layout, v: Volume, node: Node, k: nat, parent: nat)
    requires Sized(l, v) && node.File? && node.data == [] && Packed(l, v.table, k)
    ensures Need(node, l.ClusterSize()) == 0 && NodePlaced(l, v, v, node, k, parent)
  {
    DivModUnique(l.ClusterSize() - 1, l.ClusterSize(), 0, l.ClusterSize() - 1);
  }

  lemma CountIsNeed(l: Layout, data: seq<byte>)
    requires l.Valid() && data != []
    ensures CountFor(|data|, l.ClusterSize()) == ClustersFor(|data|, l.ClusterSize())
  {
  }

  lemma DataIsNode(l: Layout, v: Volume, v': Volume, node: Node, k: nat, parent: nat)
    requires Sized(l, v') && node.File? && node.data != [] && k + CountFor(|node.data|, l.ClusterSize()) <= l.Limit()
    requires DataPlaced(l, v, v', node.data, k, CountFor(|node.data|, l.ClusterSize()))
    ensures NodePlaced(l, v, v', node, k, parent)
  {
    hide IsRun, RunBytes, CountFor, ClustersFor, Packed, Layout.TotalClusters;
    CountIsNeed(l, node.data);
    ClustersForCovers(|node.data|, l.ClusterSize());
  }

  /** `write_directory`: allocates the directory, writes its items behind it and
      then the finished directory over its own clusters. */
  method WriteDirectory(fat: FatVolume, items: seq<Node>, parent: nat, ghost k: nat) returns (cluster: Option<nat>)
    requires fat.Ready() && Packed(fat.l, fat.Vol().table, k)
    modifies fat.Repr()
    ensures fat.Ready() && fresh(fat.Repr() - old(fat.Repr()))
    ensures cluster.Some? <==> k + DirNeed(items, fat.l.ClusterSize()) <= fat.l.Limit()
    ensures cluster.Some? ==> cluster.value == k
    ensures cluster.Some? ==> DirPlaced(fat.l, old(fat.Vol()), fat.Vol(), items, k, parent)
    decreases items
  {
    hide VolumeOf, Mirrored, FatCopy, RootBytes, SlotsOf, ParseRoot, Packed, DotEntry, EntryOf, IsRun, RunBytes, DirAt,
         DirData, Filling, NodePlaced, DirPlaced, DataPlaced, DirClusters, Need, NeedAll, PlaceOf, CountFor,
         Layout.TotalClusters, Layout.RootStart, Layout.RootSectors, Layout.DataStart;
    var l := fat.l;
    var cs := l.ClusterSize();
    var n := DirClusters(|items|, cs);
    ghost var v := fat.Vol();
    PackedBound(l, v.table, k);
    DirDataStart(items, k, parent, cs);
    CountExact(n, cs);
    var data := DotEntry(1, 0) + DotEntry(2, parent) + Zeros(n * cs - 64);
    var first := WriteData(fat, data, k);
    if first.None? {
      return None;
    }
    FillingStarts(l, v, fat.Vol(), items, data, k);
    for index := 0 to |items|
      invariant fat.Ready() && fresh(fat.Repr() - old(fat.Repr()))
      invariant Filling(l, v, fat.Vol(), items, k, index)
      invariant data == DirData(items, k, parent, cs, index)
    {
      ghost var place := PlaceOf(items, index, k + n, cs);
      NeedsRoom(items, index, k + n, cs);
      FillingIsPacked(l, v, fat.Vol(), items, k, index);
      ghost var v1 := fat.Vol();
      var entry := WriteItem(fat, items[index], first.value, place);
      if entry.None? {
        return None;
      }
      FillingStep(l, v, v1, fat.Vol(), items, k, index);
      DirDataNext(items, k, parent, cs, index);
      data := data[..64 + index * 32] + entry.value + data[96 + index * 32..];
    }
    FillingIsPacked(l, v, fat.Vol(), items, k, |items|);
    PlaceEnds(items, k + n, cs);
    ghost var v1 := fat.Vol();
    RewriteRun(fat, first.value, n, data);
    FillingEnds(l, v, v1, fat.Vol(), items, k, parent, data);
    cluster := first;
  }

  lemma FillingIsPacked(l: Layout, v: Volume, v': Volume, items: seq<Node>, k: nat, i: nat)
    requires Sized(l, v') && i <= |items| && Filling(l, v, v', items, k, i)
    ensures Packed(l, v'.table, PlaceOf(items, i, k + DirClusters(|items|, l.ClusterSize()), l.ClusterSize()))
    ensures PlaceOf(items, i, k + DirClusters(|items|, l.ClusterSize()), l.ClusterSize()) <= l.Limit()
    ensures 2 <= k && k + DirClusters(|items|, l.ClusterSize()) <= l.Limit()
  {
    hide IsRun, NodeAt, PlaceOf, ItemsAt, DirClusters, Layout.TotalClusters;
  }

  // ---- Building the volume ----

  /** The root entries written so far, zeros behind them. */
  ghost predicate RootFilled(root: seq<byte>, items: seq<Node>, cs: nat, n: nat)
    requires cs > 0 && n <= |items|
  {
    && n * 32 <= |root| && (forall i :: 0 <= i < n ==> SlotAt(root, i) == EntryOf(items[i], PlaceOf(items, i, 2, cs)))
    && (forall j :: n * 32 <= j < |root| ==> root[j] == 0)
  }

  /** `root_bytes[n * 32:(n + 1) * 32] = entry`, which appends behind the end. */
  function PutAt(root: seq<byte>, n: nat, raw: Slot): (r: seq<byte>)
    requires n * 32 <= |root| && |root| % 32 == 0
    ensures |r| == if (n + 1) * 32 <= |root| then |root| else |root| + 32
  {
    root[..n * 32] + raw + (if (n + 1) * 32 <= |root| then root[(n + 1) * 32..] else [])
  }

  lemma RootFilledNext(root: seq<byte>, items: seq<Node>, cs: nat, n: nat, raw: Slot)
    requires cs > 0 && n < |items| && RootFilled(root, items, cs, n) && |root| % 32 == 0
    requires raw == EntryOf(items[n], PlaceOf(items, n, 2, cs))
    ensures RootFilled(PutAt(root, n, raw), items, cs, n + 1)
  {
    hide EntryOf, PlaceOf;
    var root' := PutAt(root, n, raw);
    forall i | 0 <= i < n + 1
      ensures SlotAt(root', i) == EntryOf(items[i], PlaceOf(items, i, 2, cs))
    {
      assert i < n ==> SlotAt(root', i) == SlotAt(root, i);
    }
  }

  /** Writes the whole sectors of a buffer; those behind the end of the disk are lost. */
  method WriteWholeSectors(disk: Disk, start: nat, data: seq<byte>)
    requires disk.Valid() && !disk.readOnly
    modifies disk
    ensures disk.Valid() && !disk.readOnly && Outside(old(disk.sectors), disk.sectors, start, start + |data| / SECTOR)
    ensures forall j :: 0 <= j < |data| / SECTOR && start + j < |disk.sectors| ==>
      disk.sectors[start + j] == Slice(data, j * SECTOR, (j + 1) * SECTOR)
  {
    ghost var img := disk.sectors;
    for j := 0 to |data| / SECTOR
      invariant disk.Valid() && !disk.readOnly && Outside(img, disk.sectors, start, start + j)
      invariant forall i :: 0 <= i < j && start + i < |img| ==>
        disk.sectors[start + i] == Slice(data, i * SECTOR, (i + 1) * SECTOR)
    {
      var buf := Slice(data, j * SECTOR, (j + 1) * SECTOR);
      assert buf[..SECTOR] == buf;
      var _ := disk.WriteSector(start + j, buf);
    }
  }

  /** A buffer that fills the root sectors replaces the slots and nothing else. */
  lemma RootReplaced(l: Layout, img: Image, img': Image, root: seq<byte>)
    requires ImageOk(l, img) && ImageOk(l, img') && |root| == l.RootSectors() * SECTOR
    requires Outside(img, img', l.RootStart(), l.RootStart() + |root| / SECTOR)
    requires forall j :: 0 <= j < |root| / SECTOR && l.RootStart() + j < |img'| ==>
      img'[l.RootStart() + j] == Slice(root, j * SECTOR, (j + 1) * SECTOR)
    ensures VolumeOf(l, img') == VolumeOf(l, img).(slots := SlotsOf(l, root))
  {
    hide ClustersOf, SlotsOf, SectorRun, TableOf, Layout.TotalClusters, Layout.RootStart, Layout.RootSectors,
         Layout.DataStart;
    l.Regions();
    l.RootFits();
    DivModUnique(|root|, SECTOR, l.RootSectors(), 0);
    PiecesMakeRun(img', l.RootStart(), l.RootSectors(), root);
    FatCopiesFrame(l, img, img', l.RootStart(), l.DataStart());
    ClustersFrame(l, img, img', l.RootStart(), l.DataStart());
  }

  /** Writes the root directory from its first sector on, however long the buffer has
      become; true when a last sector that is too short raises. */
  method WriteRoot(fat: FatVolume, root: seq<byte>) returns (raised: bool)
    requires fat.Ready() && |root| >= fat.l.RootSectors() * SECTOR
    modifies fat.disk
    ensures fat.Writable() && Mirrored(fat.l, fat.disk.sectors) && |fat.disk.sectors| == |old(fat.disk.sectors)|
    ensures raised <==> |root| % SECTOR != 0 && fat.l.RootStart() + |root| / SECTOR < |fat.disk.sectors|
    ensures |root| == fat.l.RootSectors() * SECTOR ==> fat.Vol() == old(fat.Vol()).(slots := SlotsOf(fat.l, root))
    ensures forall j :: 0 <= j < |root| / SECTOR && fat.l.RootStart() + j < |fat.disk.sectors| ==>
      fat.disk.sectors[fat.l.RootStart() + j] == Slice(root, j * SECTOR, (j + 1) * SECTOR)
  {
    hide FatCopy, VolumeOf, RootBytes, SlotsOf, SectorRun, ParseRoot, Layout.TotalClusters, Layout.RootStart,
         Layout.RootSectors, Layout.DataStart;
    var l := fat.l;
    l.Regions();
    l.RootFits();
    ghost var img := fat.disk.sectors;
    WriteWholeSectors(fat.disk, l.RootStart(), root);
    FatCopiesFrame(l, img, fat.disk.sectors, l.RootStart(), l.RootStart() + |root| / SECTOR);
    if |root| == l.RootSectors() * SECTOR {
      RootReplaced(l, img, fat.disk.sectors, root);
    }
    raised := |root| % SECTOR != 0 && l.RootStart() + |root| / SECTOR < |fat.disk.sectors|;
  }

  /** The first entry behind the root directory lies over the start of cluster 2. */
  lemma SpillsOver(l: Layout, img: Image, root: seq<byte>, items: seq<Node>)
    requires ImageOk(l, img) && l.Limit() > 2 && RootFilled(root, items, l.ClusterSize(), |items|)
    requires |root| >= (l.RootSectors() + 1) * SECTOR && |items| > 16 * l.RootSectors() && l.DataStart() < |img|
    requires img[l.DataStart()] == Slice(root, l.RootSectors() * SECTOR, (l.RootSectors() + 1) * SECTOR)
    ensures SpillsOnto(l, VolumeOf(l, img), items)
  {
    hide EntryOf, PlaceOf, TableOf, FatCopy, SlotsOf, RootBytes, SectorRun, Layout.TotalClusters, Layout.DataStart,
         Layout.RootSectors;
    var n := l.RootSectors();
    l.ClusterFits(2);
    SectorRunPiece(img, l.SectorOf(2), l.sectorsPerCluster, 0);
    var cluster := ClusterAt(l, img, 2);
    assert cluster[..SECTOR] == img[l.DataStart()];
    assert cluster[..32] == cluster[..SECTOR][..32] == root[n * SECTOR..(n + 1) * SECTOR][..32] == SlotAt(root, 16 * n);
  }

  lemma SpillSize(n: nat, sectors: nat)
    ensures var size := if n * 32 > sectors * SECTOR then n * 32 else sectors * SECTOR;
      && (size % SECTOR != 0 <==> n > 16 * sectors && n % 16 != 0) && (n > 16 * sectors ==> size / SECTOR == n / 16)
  {
    DivModUnique(n * 32, SECTOR, n / 16, n % 16 * 32);
    DivModUnique(sectors * SECTOR, SECTOR, sectors, 0);
  }

  ghost predicate SpillsOnto(l: Layout, v: Volume, items: seq<Node>)
    requires Sized(l, v) && l.Limit() > 2 && |items| > 16 * l.RootSectors()
  {
    v.clusters[2][..32]
      == EntryOf(items[16 * l.RootSectors()], PlaceOf(items, 16 * l.RootSectors(), 2, l.ClusterSize()))
  }

  /** The root items that get a slot. */
  function Listed(l: Layout, items: seq<Node>): seq<Node> {
    if |items| <= l.rootEntries then items else items[..l.rootEntries]
  }

  lemma ListedPlace(l: Layout, items: seq<Node>, i: nat, k: nat)
    requires l.Valid() && i <= |Listed(l, items)|
    ensures PlaceOf(Listed(l, items), i, k, l.ClusterSize()) == PlaceOf(items, i, k, l.ClusterSize())
  {
    assert Listed(l, items)[..i] == items[..i];
  }

  lemma RootIsAt(l: Layout, v: Volume, items: seq<Node>, root: seq<byte>)
    requires Sized(l, v) && |root| == l.RootSectors() * SECTOR
    requires RootFilled(root, items, l.ClusterSize(), |items|) && ItemsAt(l, v, items, 2, 0, |items|)
    requires PlaceOf(items, |items|, 2, l.ClusterSize()) <= l.Limit() && |root| >= l.rootEntries * 32
    ensures RootAt(l, v.(slots := SlotsOf(l, root)), Listed(l, items))
  {
    hide EntryOf, PlaceOf, NodeAt, Layout.RootSectors, Layout.TotalClusters, Layout.DataStart;
    var v', listed := v.(slots := SlotsOf(l, root)), Listed(l, items);
    ItemsFrame(l, v, v', items, 2, 0, |items|);
    forall i | 0 <= i < |listed|
      ensures PlaceOf(listed, i, 2, l.ClusterSize()) == PlaceOf(items, i, 2, l.ClusterSize())
    {
      ListedPlace(l, items, i, 2);
    }
    forall i | |items| <= i < l.rootEntries
      ensures v'.slots[i][0] == END_MARK
    {
      assert SlotAt(root, i)[0] == root[i * 32];
    }
  }

  /** The loop over the root entries: their data is placed, and the buffer holds them;
      None when the volume is full. */
  method PlaceRootItems(fat: FatVolume, items: seq<Node>) returns (root: Option<seq<byte>>)
    requires fat.Ready() && Packed(fat.l, fat.Vol().table, 2)
    modifies fat.Repr()
    ensures fat.Ready() && fresh(fat.Repr() - old(fat.Repr()))
    ensures root.Some? <==> 2 + NeedAll(items, fat.l.ClusterSize()) <= fat.l.Limit()
    ensures root.Some? ==> Grown(old(fat.Vol()), fat.Vol(), 2) && ItemsAt(fat.l, fat.Vol(), items, 2, 0, |items|)
    ensures root.Some? ==> Packed(fat.l, fat.Vol().table, 2 + NeedAll(items, fat.l.ClusterSize()))
    ensures root.Some? ==> PlaceOf(items, |items|, 2, fat.l.ClusterSize()) == 2 + NeedAll(items, fat.l.ClusterSize())
    ensures root.Some? ==> var size := fat.l.RootSectors() * SECTOR;
      && |root.value| == (if |items| * 32 > size then |items| * 32 else size)
      && RootFilled(root.value, items, fat.l.ClusterSize(), |items|)
  {
    hide VolumeOf, FatCopy, RootBytes, SlotsOf, ParseRoot, Packed, EntryOf, NodePlaced, PlaceOf, Need, NeedAll,
         RootFilled, ItemsAt, PutAt, Grown, RootFilling, Layout.TotalClusters, Layout.RootStart, Layout.RootSectors,
         Layout.DataStart;
    var l := fat.l;
    l.Regions();
    var cs := l.ClusterSize();
    ghost var v := fat.Vol();
    var bytes := Zeros(l.RootSectors() * SECTOR);
    RootStarts(l, v, items, bytes);
    for index := 0 to |items|
      invariant fat.Ready() && fresh(fat.Repr() - old(fat.Repr()))
      invariant RootFilling(l, v, fat.Vol(), items, bytes, index)
    {
      ghost var v1, place := fat.Vol(), PlaceOf(items, index, 2, cs);
      RootRoom(l, v, v1, items, bytes, index);
      var entry := WriteItem(fat, items[index], 0, place);
      if entry.None? {
        return None;
      }
      RootNext(l, v, v1, fat.Vol(), items, bytes, index, entry.value);
      bytes := PutAt(bytes, index, entry.value);
    }
    RootEnds(l, v, fat.Vol(), items, bytes);
    root := Some(bytes);
  }

  /** The first n root items are in place, and the buffer holds their entries. */
  ghost predicate RootFilling(l: Layout, v: Volume, v': Volume, items: seq<Node>, bytes: seq<byte>, n: nat)
    requires l.Valid() && n <= |items|
  {
    var size := l.RootSectors() * SECTOR;
    && Grown(v, v', 2) && |bytes| == (if n * 32 > size then n * 32 else size)
    && Packed(l, v'.table, PlaceOf(items, n, 2, l.ClusterSize()))
    && ItemsAt(l, v', items, 2, 0, n) && RootFilled(bytes, items, l.ClusterSize(), n)
  }

  lemma RootLength(n: nat, sectors: nat)
    ensures var size := sectors * SECTOR;
      var length := if n * 32 > size then n * 32 else size;
      n * 32 <= length && length % 32 == 0
  {
  }

  lemma RootRoom(l: Layout, v: Volume, v1: Volume, items: seq<Node>, bytes: seq<byte>, n: nat)
    requires Sized(l, v1) && n < |items| && RootFilling(l, v, v1, items, bytes, n)
    ensures n * 32 <= |bytes| && |bytes| % 32 == 0
    ensures var place := PlaceOf(items, n, 2, l.ClusterSize());
      Packed(l, v1.table, place) && place + Need(items[n], l.ClusterSize()) <= 2 + NeedAll(items, l.ClusterSize())
  {
    hide PlaceOf, Packed, Need, NeedAll, ItemsAt, RootFilled, Grown, Layout.RootSectors, Layout.TotalClusters,
         Layout.DataStart;
    RootLength(n, l.RootSectors());
    NeedsRoom(items, n, 2, l.ClusterSize());
  }

  lemma RootNext(l: Layout, v: Volume, v1: Volume, v2: Volume, items: seq<Node>, bytes: seq<byte>, n: nat, raw: Slot)
    requires Sized(l, v1) && n < |items| && RootFilling(l, v, v1, items, bytes, n)
    requires n * 32 <= |bytes| && |bytes| % 32 == 0
    requires var place := PlaceOf(items, n, 2, l.ClusterSize());
      raw == EntryOf(items[n], place) && NodePlaced(l, v1, v2, items[n], place, 0)
    ensures RootFilling(l, v, v2, items, PutAt(bytes, n, raw), n + 1)
  {
    hide EntryOf, PlaceOf, Packed, Need, NeedAll, NodePlaced, ItemsAt, RootFilled, Grown, PutAt, Layout.RootSectors,
         Layout.TotalClusters, Layout.DataStart;
    var place := PlaceOf(items, n, 2, l.ClusterSize());
    PackedBound(l, v1.table, place);
    NeedsRoom(items, n, 2, l.ClusterSize());
    ItemsGrow(l, v1, v2, items, 2, 0, n);
    RootFilledNext(bytes, items, l.ClusterSize(), n, raw);
    GrownTwice(l, v, v1, v2, items[n], place);
  }

  lemma RootEnds(l: Layout, v: Volume, v': Volume, items: seq<Node>, bytes: seq<byte>)
    requires Sized(l, v') && RootFilling(l, v, v', items, bytes, |items|)
    ensures Grown(v, v', 2) && ItemsAt(l, v', items, 2, 0, |items|)
    ensures RootFilled(bytes, items, l.ClusterSize(), |items|)
    ensures PlaceOf(items, |items|, 2, l.ClusterSize()) == 2 + NeedAll(items, l.ClusterSize()) <= l.Limit()
    ensures Packed(l, v'.table, 2 + NeedAll(items, l.ClusterSize()))
    ensures var size := l.RootSectors() * SECTOR; |bytes| == if |items| * 32 > size then |items| * 32 else size
  {
    hide PlaceOf, Packed, NeedAll, ItemsAt, RootFilled, Grown, Layout.RootSectors, Layout.TotalClusters,
         Layout.DataStart;
    PlaceEnds(items, 2, l.ClusterSize());
    PackedBound(l, v'.table, PlaceOf(items, |items|, 2, l.ClusterSize()));
  }

  /** Every ".." in the tree below the first root slots names the directory above it. */
  ghost predicate DotsLinked(l: Layout, v: Volume, items: seq<Node>)
    requires Sized(l, v) && |items| <= |v.slots|
  {
    forall i :: 0 <= i < |items| ==> LinksUp(l, v, v.slots[i], 0, HeightAll(items, |items|))
  }

  lemma ListedIsNamed(l: Layout, items: seq<Node>)
    requires NamedAll(items)
    ensures NamedAll(Listed(l, items))
  {
    hide Named;
  }

  lemma BuiltLinks(l: Layout, v: Volume, items: seq<Node>)
    requires Sized(l, v) && RootAt(l, v, Listed(l, items)) && NamedAll(items)
    ensures DotsLinked(l, v, Listed(l, items))
  {
    hide RootAt, NamedAll, LinksUp, HeightAll;
    ListedIsNamed(l, items);
    RootLinks(l, v, Listed(l, items));
  }

  /** `IndexError` is raised for a root directory that ends within a sector. */
  datatype BuildResult = Built | DoesNotFit | IndexError

  /** `build_host_directory_disk` on a freshly formatted disk, which is read-only
      when it is built. The number of root entries is not checked: those behind the last
      slot are not found again, and those behind the last sector are written over data. */
  method BuildHostDirectory(l: Layout, disk: Disk, items: seq<Node>) returns (r: BuildResult)
    requires ImageOk(l, disk.sectors) && Mirrored(l, disk.sectors) && !disk.readOnly
    requires Packed(l, VolumeOf(l, disk.sectors).table, 2)
    modifies disk
    ensures ImageOk(l, disk.sectors) && Mirrored(l, disk.sectors)
    ensures r.DoesNotFit? <==> 2 + NeedAll(items, l.ClusterSize()) > l.Limit()
    ensures r.IndexError? <==>
      (!r.DoesNotFit? && |items| > 16 * l.RootSectors() && |items| % 16 != 0
       && l.RootStart() + |items| / 16 < |disk.sectors|)
    ensures r.Built? ==> !disk.dirty && disk.readOnly
    ensures !r.DoesNotFit? && |items| <= 16 * l.RootSectors() ==> var v := VolumeOf(l, disk.sectors);
      && r.Built? && RootAt(l, v, Listed(l, items)) && Packed(l, v.table, 2 + NeedAll(items, l.ClusterSize()))
      && v.table[0] == VolumeOf(l, old(disk.sectors)).table[0]
      && (NamedAll(items) ==> DotsLinked(l, v, Listed(l, items)))
    ensures r.Built? && |items| > 16 * l.RootSectors() && l.Limit() > 2 ==>
      SpillsOnto(l, VolumeOf(l, disk.sectors), items)
  {
    hide VolumeOf, FatCopy, RootBytes, SlotsOf, ParseRoot, Packed, EntryOf, PlaceOf, Need, NeedAll, RootFilled, ItemsAt,
         RootAt, DotsLinked, NamedAll, SpillsOnto, Grown, Layout.TotalClusters, Layout.RootStart, Layout.RootSectors,
         Layout.DataStart;
    l.Regions();
    l.RootFits();
    var fat := new FatVolume(l, disk);
    ghost var v := fat.Vol();
    var root := PlaceRootItems(fat, items);
    if root.None? {
      return DoesNotFit;
    }
    GrownKeepsMedia(v, fat.Vol());
    if |items| <= 16 * l.RootSectors() {
      RootIsAt(l, fat.Vol(), items, root.value);
      if NamedAll(items) {
        BuiltLinks(l, fat.Vol().(slots := SlotsOf(l, root.value)), items);
      }
    }
    SpillSize(|items|, l.RootSectors());
    var raised := WriteRoot(fat, root.value);
    if raised {
      return IndexError;
    }
    if |items| > 16 * l.RootSectors() && l.Limit() > 2 {
      l.ClusterFits(2);
      SpillsOver(l, disk.sectors, root.value, items);
    }
    disk.dirty := false;
    disk.readOnly := true;
    r := Built;
  }

  lemma GrownKeepsMedia(v: Volume, v': Volume)
    requires Grown(v, v', 2) && |v.table| >= 2
    ensures |v'.table| == |v.table| && v'.table[0] == v.table[0]
  {
  }

  lemma RootStarts(l: Layout, v: Volume, items: seq<Node>, root: seq<byte>)
    requires Sized(l, v) && Packed(l, v.table, 2) && root == Zeros(l.RootSectors() * SECTOR)
    ensures RootFilling(l, v, v, items, root, 0)
  {
    hide Layout.RootSectors;
    PlaceEnds(items, 2, l.ClusterSize());
  }

  lemma GrownTwice(l: Layout, v: Volume, v1: Volume, v2: Volume, node: Node, place: nat)
    requires l.Valid() && Grown(v, v1, 2) && NodePlaced(l, v1, v2, node, place, 0) && place >= 2
    ensures Grown(v, v2, 2)
  {
    hide NodeAt, Packed;
  }

  // ---- Walking the volume ----

  /** The walk ends, and within the data area. */
  ghost predicate Ends<T>(w: Walk<T>) {
    w.Done? || w.Raised?
  }

  /** A method returns what the walk function says; None stands for the error of a
      chain that leaves the volume. */
  ghost predicate Returns<T>(r: Option<T>, w: Walk<T>) {
    Ends(w) && r == if w.Done? then Some(w.value) else None
  }

  /** The tree below one entry. */
  method SyncEntry(fat: FatVolume, raw: Slot, ghost depth: nat) returns (node: Option<Node>)
    requires fat.Valid() && Ends(WalkEntry(fat.l, fat.Vol(), raw, depth))
    modifies fat
    ensures fat.Valid() && fresh(fat.Repr() - old(fat.Repr()))
    ensures Returns(node, WalkEntry(fat.l, fat.Vol(), raw, depth))
    decreases depth, 0
  {
    hide VolumeOf, Mirrored, FatCopy, RootBytes, SlotsOf, ParseRoot, FullName, IsDir, FirstCluster, SizeOf, WalkDir,
         ReadAt;
    if IsDir(raw) {
      var items := SyncDir(fat, FirstCluster(raw), depth - 1);
      node := if items.Some? then Some(Dir(FullName(raw), items.value)) else None;
    } else {
      ReadHalts(fat.l, fat.Vol(), FirstCluster(raw), SizeOf(raw));
      var data := fat.ReadFile(FirstCluster(raw), SizeOf(raw));
      node := if data.Some? then Some(File(FullName(raw), data.value)) else None;
    }
  }

  lemma ReadHalts(l: Layout, v: Volume, c: nat, size: nat)
    requires |v.clusters| == |v.table| && !ReadAt(l, v, c, size).Endless?
    ensures Halts(v.table, l.kind.Bad(), c)
  {
  }

  method SyncEntries(fat: FatVolume, entries: seq<Slot>, dots: bool, ghost depth: nat)
    returns (nodes: Option<seq<Node>>)
    requires fat.Valid() && Ends(WalkEntries(fat.l, fat.Vol(), entries, dots, depth))
    modifies fat
    ensures fat.Valid() && fresh(fat.Repr() - old(fat.Repr()))
    ensures Returns(nodes, WalkEntries(fat.l, fat.Vol(), entries, dots, depth))
    decreases depth, 1
  {
    hide VolumeOf, Mirrored, FatCopy, RootBytes, SlotsOf, ParseRoot, WalkEntry, Skipped;
    var found: seq<Node> := [];
    for i := 0 to |entries|
      invariant fat.Valid() && fresh(fat.Repr() - old(fat.Repr()))
      invariant WalkEntries(fat.l, fat.Vol(), entries[..i], dots, depth) == Done(found)
    {
      WalkPrefix(fat.l, fat.Vol(), entries, dots, depth, i + 1);
      assert entries[..i + 1][..i] == entries[..i];
      if !Skipped(entries[i], dots) {
        var node := SyncEntry(fat, entries[i], depth);
        if node.None? {
          return None;
        }
        found := found + [node.value];
      }
    }
    assert entries[..|entries|] == entries;
    nodes := Some(found);
  }

  /** A walk fails where a part of it does. */
  lemma {:induction false} WalkPrefix(l: Layout, v: Volume, entries: seq<Slot>, dots: bool, depth: nat, i: nat)
    requires Sized(l, v) && i <= |entries|
    ensures var part, whole := WalkEntries(l, v, entries[..i], dots, depth), WalkEntries(l, v, entries, dots, depth);
      part.Done? || whole == part
    decreases |entries|
  {
    if i < |entries| {
      WalkPrefix(l, v, entries[..|entries| - 1], dots, depth, i);
      assert entries[..|entries| - 1][..i] == entries[..i];
    } else {
      assert entries[..i] == entries;
    }
  }

  method SyncDir(fat: FatVolume, cluster: nat, ghost depth: nat) returns (items: Option<seq<Node>>)
    requires fat.Valid() && Ends(WalkDir(fat.l, fat.Vol(), cluster, depth))
    modifies fat
    ensures fat.Valid() && fresh(fat.Repr() - old(fat.Repr()))
    ensures Returns(items, WalkDir(fat.l, fat.Vol(), cluster, depth))
    decreases depth, 2
  {
    hide VolumeOf, Mirrored, FatCopy, RootBytes, SlotsOf, ParseRoot, WalkEntries, DirEntries;
    var entries := fat.ReadDir(cluster);
    if entries.None? {
      return None;
    }
    items := SyncEntries(fat, entries.value, true, depth);
  }

  /** `sync_host_directory_disk`, returning the tree it would write. */
  method SyncRoot(fat: FatVolume, ghost depth: nat) returns (items: Option<seq<Node>>)
    requires fat.Valid() && Ends(WalkRoot(fat.l, fat.Vol(), depth))
    modifies fat
    ensures fat.Valid() && fresh(fat.Repr() - old(fat.Repr()))
    ensures Returns(items, WalkRoot(fat.l, fat.Vol(), depth))
  {
    hide VolumeOf, Mirrored, FatCopy, RootBytes, SlotsOf, ParseRoot, WalkEntries;
    var entries := fat.ReadRootDirectory();
    items := SyncEntries(fat, entries, false, depth);
  }

  // ---- Round trip ----

  /** Walking a built volume finds the tree with its names trimmed, unless it has an
      empty file and following the media byte fails. It returns the tree the volume was
      built from if and only if every name is preserved and that does not happen. */
  lemma WalkOfBuilt(l: Layout, v: Volume, items: seq<Node>, k: nat)
    requires Sized(l, v) && RootAt(l, v, items) && NamedAll(items)
    requires Packed(l, v.table, k) && 2 <= v.table[0]
    ensures var walk, media := WalkRoot(l, v, HeightAll(items, |items|)), v.table[0];
      && walk == (if !AnyEmpty(items, |items|) || media >= l.kind.Bad() || media < k then Done(ReturnedAll(items))
                  else if media < |v.table| then Endless
                  else Raised)
      && (walk == Done(items) <==> walk.Done? && KeepsAll(items))
  {
    hide RootAt, NamedAll, WalkRoot, AnyEmpty, Followable, HeightAll, KeepsAll, ReturnedAll;
    WalkFindsTree(l, v, items);
    AllSame(items);
    EmptyFileReads(l, v, k);
  }

  /** A floppy whose only file is empty. */
  const EMPTY_FILE := File([0x41], [])

  function OneSlot(): seq<Slot> {
    [EntryOf(EMPTY_FILE, 2)] + seq(223, _ => Zeros(32))
  }

  lemma FloppyHolds()
    ensures Sized(FLOPPY, FloppyWith(OneSlot())) && Packed(FLOPPY, FloppyTable(), 2)
    ensures RootAt(FLOPPY, FloppyWith(OneSlot()), [EMPTY_FILE])
  {
    hide EntryOf, NeedAll, PlaceOf, Layout.Valid, Layout.Limit, Layout.ClusterSize;
    FloppyLayout();
    FloppySized(OneSlot());
    assert |OneSlot()| == 224 && forall i :: 1 <= i < 224 ==> OneSlot()[i] == Zeros(32);
    assert PlaceOf([EMPTY_FILE], 0, 2, SECTOR) == 2 by {
      PlaceEnds([EMPTY_FILE], 2, SECTOR);
    }
    assert ItemsAt(FLOPPY, FloppyWith(OneSlot()), [EMPTY_FILE], 2, 0, 1) by {
      assert NodeAt(FLOPPY, FloppyWith(OneSlot()), EMPTY_FILE, 2, 0);
    }
  }

  lemma EmptyFileNamed()
    ensures NamedAll([EMPTY_FILE]) && AnyEmpty([EMPTY_FILE], 1)
  {
    assert BaseOf([0x41]) == [0x41];
    assert ShortName(EMPTY_FILE.name);
  }

  /** So the round trip does fail: this volume holds its tree in place, but the walk
      of it never gets past the empty file. */
  lemma EmptyFileIsNotRead()
    ensures Sized(FLOPPY, FloppyWith(OneSlot())) && RootAt(FLOPPY, FloppyWith(OneSlot()), [EMPTY_FILE])
    ensures NamedAll([EMPTY_FILE]) && Packed(FLOPPY, FloppyTable(), 2)
    ensures WalkRoot(FLOPPY, FloppyWith(OneSlot()), HeightAll([EMPTY_FILE], 1)) == Endless
  {
    hide RootAt, EntryOf, OneSlot, WalkRoot, Packed, HeightAll, Layout.Valid, Layout.Limit, Layout.ClusterSize,
         Sized, NamedAll, AnyEmpty, KeepsAll, ReturnedAll;
    FloppyLayout();
    FloppyHolds();
    EmptyFileNamed();
    WalkOfBuilt(FLOPPY, FloppyWith(OneSlot()), [EMPTY_FILE], 2);
  }

  /** The media byte of a disk, taken for a link, when the tree is in place: following
      it returns, or raises, or never ends. */
  ghost predicate EmptyFilesEnd(l: Layout, media: nat, items: seq<Node>)
    requires l.Valid()
  {
    !AnyEmpty(Listed(l, items), |Listed(l, items)|) || media < 2 + NeedAll(items, l.ClusterSize()) || media >= l.Limit()
  }

  /** Build a disk from a tree, mount it anew and walk it: the root items that have a
      slot, with all names trimmed. That is the same tree if and only if every root item
      has a slot and every name is preserved. None
      stands for an error: the tree does not fit, or the media byte of an empty file
      leaves the volume. */
  method BuildThenSync(l: Layout, disk: Disk, items: seq<Node>) returns (back: Option<seq<Node>>)
    requires ImageOk(l, disk.sectors) && Mirrored(l, disk.sectors) && !disk.readOnly
    requires Packed(l, VolumeOf(l, disk.sectors).table, 2) && 2 <= VolumeOf(l, disk.sectors).table[0]
    requires |items| <= 16 * l.RootSectors() && NamedAll(items)
    requires EmptyFilesEnd(l, VolumeOf(l, disk.sectors).table[0], items)
    modifies disk
    ensures var media, listed := old(VolumeOf(l, disk.sectors)).table[0], Listed(l, items);
      back.None? <==>
        (2 + NeedAll(items, l.ClusterSize()) > l.Limit()
         || (AnyEmpty(listed, |listed|) && l.Limit() <= media < l.kind.Bad()))
    ensures back.Some? ==> back.value == ReturnedAll(Listed(l, items))
    ensures back.Some? ==> (back.value == items <==> |items| <= l.rootEntries && KeepsAll(items))
  {
    hide VolumeOf, Mirrored, Packed, RootAt, NamedAll, WalkRoot, AnyEmpty, HeightAll, NeedAll, KeepsAll, ReturnedAll,
         Layout.RootSectors, Layout.TotalClusters, Layout.DataStart;
    var listed := Listed(l, items);
    ListedIsNamed(l, items);
    var built := BuildHostDirectory(l, disk, items);
    if !built.Built? {
      return None;
    }
    var fat := new FatVolume(l, disk);
    WalkOfBuilt(l, fat.Vol(), listed, 2 + NeedAll(items, l.ClusterSize()));
    AllSame(items);
    back := SyncRoot(fat, HeightAll(listed, |listed|));
  }
}
