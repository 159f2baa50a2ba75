/** The mounted volume of `fat12.py`: it changes the disk sectors and its FAT
    cache in place, and every method is proved against the volume operations. */
module FatVolumes {
  import opened Bytes
  import opened Disks
  import opened FatCodec
  import opened FatTable
  import opened FatLayout
  import opened DosNames
  import opened Volumes
  import opened VolumeOps
  import opened VolumeTheorems
  import opened VolumeRuns
  import opened FatImage

  /** `follow_chain` returns the chain or raises on a cluster past the end. */
  datatype ChainResult = Chain(clusters: seq<nat>) | Exceeds(cluster: nat)

  ghost function Follow(l: Layout, t: Table, c: nat): ChainResult {
    var last := Final(t, l.kind.Bad(), c, |t|);
    if last >= l.kind.Bad() then Chain(ChainOf(l, t, c)) else Exceeds(last)
  }

  /** Packs entry c into the FAT bytes, in place. */
  method PackEntry(kind: Kind, fat: array<byte>, c: nat, v: nat)
    requires InFat(kind, fat[..], c)
    modifies fat
    ensures fat[..] == PutEntry(kind, old(fat[..]), c, v)
  {
    var off := kind.Offset(c);
    if kind == Fat16 {
      fat[off], fat[off + 1] := v % 0x100, v / 0x100 % 0x100;
    } else if c % 2 == 0 {
      fat[off] := v % 0x100;
      var high: int := fat[off + 1];
      fat[off + 1] := high / 0x10 * 0x10 + v / 0x100 % 0x10;
    } else {
      var low: int := fat[off];
      fat[off] := low % 0x10 + v % 0x10 * 0x10;
      fat[off + 1] := v / 0x10 % 0x100;
    }
  }

  /** The assignment of a buffer to a slice of the same length. */
  method AssignSlice(a: array<byte>, at: nat, piece: seq<byte>)
    requires at + |piece| <= a.Length
    modifies a
    ensures a[..at] == old(a[..at]) && a[at..at + |piece|] == piece && a[at + |piece|..] == old(a[at + |piece|..])
  {
    forall j | 0 <= j < |piece| {
      a[at + j] := piece[j];
    }
  }

  lemma AppendPiece(whole: seq<byte>, i: nat, j: nat, data: seq<byte>, piece: seq<byte>)
    requires i <= j <= |whole| && j <= |data| && j - i == |piece|
    requires data[..i] == whole[..i] && data[i..j] == piece && whole[i..j] == piece
    ensures data[..j] == whole[..j]
  {
  }

  class FatVolume {
    const l: Layout
    const disk: Disk
    var cache: array?<byte>
    var rootCache: Option<seq<Slot>>

    ghost function Repr(): set<object>
      reads this
    {
      {this, disk} + if cache == null then {} else {cache}
    }

    /** The disk is big enough for the layout. */
    ghost predicate Mounted()
      reads disk
    {
      ImageOk(l, disk.sectors)
    }

    ghost predicate Writable()
      reads disk
    {
      Mounted() && !disk.readOnly
    }

    /** The cached FAT, if loaded, equals every copy on disk byte for byte; the
        cached directory, if loaded, is what parsing the disk would give. */
    ghost predicate Valid()
      reads Repr()
    {
      && Mounted() && Mirrored(l, disk.sectors)
      && (cache != null ==> cache[..] == FatCopy(l, disk.sectors, 0))
      && (rootCache.Some? ==> rootCache.value == ParseRoot(SlotsOf(l, RootBytes(l, disk.sectors)), 0))
    }

    /** Valid, on a disk that accepts writes. */
    ghost predicate Ready()
      reads Repr()
    {
      Valid() && !disk.readOnly
    }

    ghost function Vol(): (v: Volume)
      reads disk
      requires Mounted()
      ensures Sized(l, v)
    {
      VolumeOf(l, disk.sectors)
    }

    constructor (l: Layout, disk: Disk)
      requires ImageOk(l, disk.sectors) && Mirrored(l, disk.sectors)
      ensures Valid() && this.l == l && this.disk == disk && fresh(Repr() - {disk})
    {
      this.l := l;
      this.disk := disk;
      cache := null;
      rootCache := None;
    }

    // ---- FAT entries ----

    method ReadFat() returns (fat: array<byte>)
      requires Valid()
      modifies this
      ensures Valid() && cache == fat && rootCache == old(rootCache)
      ensures if old(cache) == null then fresh(fat) else fat == old(cache)
      ensures fat[..] == FatCopy(l, disk.sectors, 0)
    {
      hide SectorRun, ParseRoot, SlotsOf, RootBytes, Layout.TotalClusters, Layout.DataStart, Layout.RootStart,
           Layout.RootSectors;
      l.Regions();
      if cache != null {
        return cache;
      }
      fat := new byte[l.sectorsPerFat * SECTOR](_ => 0);
      l.CopyFits(0);
      ghost var whole := FatCopy(l, disk.sectors, 0);
      for i := 0 to l.sectorsPerFat
        invariant cache == null && Valid() && rootCache == old(rootCache) && disk.sectors == old(disk.sectors)
        invariant fresh(fat) && fat[..i * SECTOR] == whole[..i * SECTOR]
      {
        var _, buf := disk.ReadSector(l.FatStart() + i, Zeros(SECTOR));
        SectorRunPiece(disk.sectors, l.FatStart(), l.sectorsPerFat, i);
        AssignSlice(fat, i * SECTOR, buf);
        AppendPiece(whole, i * SECTOR, (i + 1) * SECTOR, fat[..], buf);
        assert fat[..(i + 1) * SECTOR] == fat[..][..(i + 1) * SECTOR];
      }
      cache := fat;
    }

    /** None stands for the source's out-of-range errors. */
    method GetFatEntry(c: nat) returns (v: Option<nat>)
      requires Valid()
      modifies this
      ensures Valid() && fresh(Repr() - old(Repr()))
      ensures v.Some? <==> l.kind.Offset(c) + 1 < l.FatBytes()
      ensures c < l.Limit() ==> v == Some(Vol().table[c])
    {
      var fat := ReadFat();
      if l.kind.Offset(c) + 1 >= fat.Length {
        return None;
      }
      v := Some(GetEntry(l.kind, fat[..], c));
    }

    /** A FAT copy differs from the cache at most in the two bytes at off. */
    ghost predicate StaleAt(copy: nat, off: nat)
      reads Repr()
    {
      && Mounted() && cache != null && cache.Length == l.FatBytes() && copy < l.numFats
      && forall i :: 0 <= i < l.FatBytes() && i != off && i != off + 1 ==> FatCopy(l, disk.sectors, copy)[i] == cache[i]
    }

    /** Writes one sector of the cache to one FAT copy. */
    method WriteFatSector(copy: nat, s: nat)
      requires Writable() && cache != null && cache.Length == l.FatBytes()
      requires copy < l.numFats && s < l.sectorsPerFat
      modifies disk
      ensures Writable() && Outside(old(disk.sectors), disk.sectors, l.FatStart(), l.RootStart())
      ensures forall k :: 0 <= k < l.numFats && k != copy ==>
        FatCopy(l, disk.sectors, k) == FatCopy(l, old(disk.sectors), k)
      ensures forall i :: 0 <= i < l.FatBytes() ==>
        FatCopy(l, disk.sectors, copy)[i] ==
        if s * SECTOR <= i < (s + 1) * SECTOR then cache[i] else FatCopy(l, old(disk.sectors), copy)[i]
    {
      assert (s + 1) * SECTOR <= l.FatBytes();
      var buf := cache[s * SECTOR..(s + 1) * SECTOR];
      assert buf[..SECTOR] == buf;
      CopyWrite(l, disk.sectors, copy, s, buf);
      var _ := disk.WriteSector(l.CopyStart(copy) + s, buf);
    }

    method FlushCopy(copy: nat, off: nat)
      requires Writable() && cache != null && cache.Length == l.FatBytes() && off + 1 < l.FatBytes()
      requires copy < l.numFats && StaleAt(copy, off)
      modifies disk
      ensures Writable() && Outside(old(disk.sectors), disk.sectors, l.FatStart(), l.RootStart())
      ensures forall k :: 0 <= k < l.numFats && k != copy ==>
        FatCopy(l, disk.sectors, k) == FatCopy(l, old(disk.sectors), k)
      ensures FatCopy(l, disk.sectors, copy) == cache[..]
    {
      var s0, s1 := off / SECTOR, (off + 1) / SECTOR;
      WriteFatSector(copy, s0);
      if s1 != s0 {
        WriteFatSector(copy, s1);
      }
    }

    /** Writes the one or two sectors that hold entry c to every FAT copy, after
        which all copies equal the cache again. */
    method FlushFatEntry(c: nat)
      requires Writable() && cache != null && cache.Length == l.FatBytes() && l.kind.Offset(c) + 1 < l.FatBytes()
      requires forall copy :: 0 <= copy < l.numFats ==> StaleAt(copy, l.kind.Offset(c))
      modifies disk
      ensures Writable() && Outside(old(disk.sectors), disk.sectors, l.FatStart(), l.RootStart())
      ensures forall copy :: 0 <= copy < l.numFats ==> FatCopy(l, disk.sectors, copy) == cache[..]
    {
      for copy := 0 to l.numFats
        invariant Writable() && Outside(old(disk.sectors), disk.sectors, l.FatStart(), l.RootStart())
        invariant forall k :: 0 <= k < copy ==> FatCopy(l, disk.sectors, k) == cache[..]
        invariant forall k :: copy <= k < l.numFats ==> FatCopy(l, disk.sectors, k) == FatCopy(l, old(disk.sectors), k)
      {
        assert old(StaleAt(copy, l.kind.Offset(c)));
        FlushCopy(copy, l.kind.Offset(c));
      }
    }

    /** False stands for the source's out-of-range error. */
    method SetFatEntry(c: nat, v: nat) returns (ok: bool)
      requires Ready()
      modifies Repr()
      ensures Ready() && fresh(Repr() - old(Repr()))
      ensures ok <==> l.kind.Offset(c) + 1 < l.FatBytes()
      ensures Outside(old(disk.sectors), disk.sectors, l.FatStart(), l.RootStart())
      ensures Vol() == old(Vol()).(table :=
        if !ok || c >= l.Limit() then old(Vol()).table
        else old(Vol()).table[c := if l.kind == Fat12 && c == 0 then v % 0x100 else v % l.kind.Modulus()])
    {
      var fat := ReadFat();
      var off := l.kind.Offset(c);
      if off + 1 >= fat.Length {
        return false;
      }
      ghost var was := fat[..];
      PackEntry(l.kind, fat, c, v);
      FlushFatEntry(c);
      TableWrite(l, was, c, v);
      FatWriteFrame(l, old(disk.sectors), disk.sectors);
      ok := true;
    }

    // ---- Chains ----

    /** Follows a chain. The source has no cycle guard, so callers must not ask
        for a walk that never ends. */
    method FollowChain(first: nat) returns (r: ChainResult)
      requires Valid() && Halts(Vol().table, l.kind.Bad(), first)
      modifies this
      ensures Valid() && fresh(Repr() - old(Repr()))
      ensures r == Follow(l, Vol().table, first)
    {
      hide VolumeOf, Mirrored, FatCopy, SlotsOf, RootBytes, ParseRoot, Layout.TotalClusters, Layout.RootStart,
           Layout.RootSectors, Layout.DataStart;
      l.Regions();
      var chain: seq<nat> := [];
      var cluster: nat := first;
      ghost var t, bad := Vol().table, l.kind.Bad();
      ghost var fuel: nat := |t|;
      while cluster < l.kind.Bad()
        invariant Valid() && fresh(Repr() - old(Repr())) && Vol().table == t
        invariant chain + Steps(t, bad, cluster, fuel) == Steps(t, bad, first, |t|)
        invariant Final(t, bad, cluster, fuel) == Final(t, bad, first, |t|)
        decreases fuel
      {
        if cluster >= l.Limit() {
          return Exceeds(cluster);
        }
        chain := chain + [cluster];
        var next := GetFatEntry(cluster);
        cluster := next.value;
        fuel := fuel - 1;
      }
      r := Chain(chain);
    }

    /** A link between data clusters: the value fits the entry. */
    method StoreLink(c: nat, v: nat)
      requires Ready() && 0 < c < l.Limit() && v < l.kind.Modulus()
      modifies Repr()
      ensures Ready() && fresh(Repr() - old(Repr()))
      ensures Outside(old(disk.sectors), disk.sectors, l.FatStart(), l.RootStart())
      ensures Vol() == old(Vol()).(table := old(Vol()).table[c := v])
    {
      hide VolumeOf, Mirrored, FatCopy, SlotsOf, RootBytes, ParseRoot, Layout.TotalClusters, Layout.RootStart,
           Layout.RootSectors, Layout.DataStart;
      l.Regions();
      l.EntriesFit(c);
      var _ := SetFatEntry(c, v);
    }

    /** The first n free clusters, or all of them when there are fewer. */
    method CollectFree(n: nat) returns (chain: seq<nat>)
      requires Valid()
      modifies this
      ensures Valid() && fresh(Repr() - old(Repr()))
      ensures chain == Take(FreeFrom(Vol().table, 2), n)
    {
      hide VolumeOf, Mirrored, FatCopy, SlotsOf, RootBytes, ParseRoot, Layout.TotalClusters, Layout.RootStart,
           Layout.RootSectors, Layout.DataStart;
      l.Regions();
      ghost var t := Vol().table;
      chain := [];
      var cluster: nat := 2;
      while cluster < l.Limit() && |chain| < n
        invariant Valid() && fresh(Repr() - old(Repr()))
        invariant 2 <= cluster <= l.Limit() && |chain| <= n
        invariant chain + FreeFrom(t, cluster) == FreeFrom(t, 2)
      {
        var entry := GetFatEntry(cluster);
        if entry.value == 0 {
          chain := chain + [cluster];
        }
        cluster := cluster + 1;
      }
    }

    /** Stores the links of an allocated chain and its end mark. */
    method LinkChain(chain: seq<nat>)
      requires Ready() && |chain| > 0 && Distinct(chain)
      requires forall i :: 0 <= i < |chain| ==> 2 <= chain[i] < l.Limit()
      modifies Repr()
      ensures Ready() && fresh(Repr() - old(Repr()))
      ensures Outside(old(disk.sectors), disk.sectors, l.FatStart(), l.RootStart())
      ensures Vol() == old(Vol()).(table := Allocated(old(Vol()).table, l.kind.Eoc(), chain))
    {
      hide VolumeOf, Mirrored, FatCopy, SlotsOf, RootBytes, ParseRoot, Layout.TotalClusters, Layout.RootStart,
           Layout.RootSectors, Layout.DataStart, Linked, Allocated;
      l.Regions();
      ghost var v, img := Vol(), disk.sectors;
      LinkedEnds(v.table, l.kind.Eoc(), chain);
      for i := 1 to |chain|
        invariant Ready() && fresh(Repr() - old(Repr()))
        invariant Outside(img, disk.sectors, l.FatStart(), l.RootStart())
        invariant Vol() == v.(table := Linked(v.table, chain, i - 1))
      {
        LinkedNext(v.table, chain, i);
        StoreLink(chain[i - 1], chain[i]);
      }
      StoreLink(chain[|chain| - 1], l.kind.Eoc());
    }

    /** First-fit allocation of n clusters; None when too few are free. */
    method AllocClusters(n: int) returns (r: Option<seq<nat>>)
      requires Ready()
      modifies Repr()
      ensures Ready() && fresh(Repr() - old(Repr()))
      ensures Outside(old(disk.sectors), disk.sectors, l.FatStart(), l.RootStart())
      ensures n <= 0 ==> r == Some([]) && Vol() == old(Vol())
      ensures n > 0 && n <= FreeCount(old(Vol()).table) ==>
        && r == Some(FirstFit(old(Vol()).table, n))
        && Vol() == old(Vol()).(table := Allocated(old(Vol()).table, l.kind.Eoc(), r.value))
      ensures n > 0 && n > FreeCount(old(Vol()).table) ==> r == None && Vol() == old(Vol())
    {
      hide VolumeOf, Mirrored, FatCopy, SlotsOf, RootBytes, ParseRoot, Allocated, Layout.TotalClusters,
           Layout.RootStart, Layout.RootSectors, Layout.DataStart;
      l.Regions();
      if n <= 0 {
        return Some([]);
      }
      var chain := CollectFree(n);
      if |chain| < n {
        return None;
      }
      assert chain == FirstFit(old(Vol()).table, n);
      LinkChain(chain);
      r := Some(chain);
    }

    method FreeChain(chain: seq<nat>)
      requires Ready() && forall i :: 0 <= i < |chain| ==> chain[i] < l.Limit()
      modifies Repr()
      ensures Ready() && fresh(Repr() - old(Repr()))
      ensures Outside(old(disk.sectors), disk.sectors, l.FatStart(), l.RootStart())
      ensures Vol() == old(Vol()).(table := Freed(old(Vol()).table, chain, |chain|))
    {
      hide VolumeOf, Mirrored, FatCopy, SlotsOf, RootBytes, ParseRoot, Layout.TotalClusters, Layout.RootStart,
           Layout.RootSectors, Layout.DataStart;
      l.Regions();
      for i := 0 to |chain|
        invariant Ready() && fresh(Repr() - old(Repr()))
        invariant Outside(old(disk.sectors), disk.sectors, l.FatStart(), l.RootStart())
        invariant Vol() == old(Vol()).(table := Freed(old(Vol()).table, chain, i))
      {
        l.EntriesFit(chain[i]);
        var _ := SetFatEntry(chain[i], 0);
      }
    }

    method FreeClusterCount() returns (free: nat)
      requires Valid()
      modifies this
      ensures Valid() && fresh(Repr() - old(Repr()))
      ensures free == FreeCount(Vol().table)
    {
      hide VolumeOf, Mirrored, FatCopy, SlotsOf, RootBytes, ParseRoot, Layout.TotalClusters, Layout.RootStart,
           Layout.RootSectors, Layout.DataStart;
      l.Regions();
      free := 0;
      for cluster := 2 to l.Limit()
        invariant Valid() && fresh(Repr() - old(Repr()))
        invariant free + |FreeFrom(Vol().table, cluster)| == FreeCount(Vol().table)
      {
        var entry := GetFatEntry(cluster);
        if entry.value == 0 {
          free := free + 1;
        }
      }
    }

    // ---- Cluster data ----

    /** Reads n sectors into one buffer; sectors that are not on the disk read as zeros. */
    method ReadSectors(start: int, n: nat) returns (data: seq<byte>)
      requires Mounted()
      ensures data == RawRun(disk.sectors, start, n)
      ensures 0 <= start && start + n <= |disk.sectors| ==> data == SectorRun(disk.sectors, start, n)
    {
      ghost var whole := RawRun(disk.sectors, start, n);
      data := Zeros(n * SECTOR);
      for i := 0 to n
        invariant |data| == n * SECTOR && data[..i * SECTOR] == whole[..i * SECTOR]
      {
        var _, buf := disk.ReadSector(start + i, Zeros(SECTOR));
        RawRunPiece(disk.sectors, start, n, i);
        data := data[..i * SECTOR] + buf + data[(i + 1) * SECTOR..];
        AppendPiece(whole, i * SECTOR, (i + 1) * SECTOR, data, buf);
      }
      assert data[..n * SECTOR] == data && whole[..n * SECTOR] == whole;
      if 0 <= start && start + n <= |disk.sectors| {
        RawRunInside(disk.sectors, start, n);
      }
    }

    method ReadCluster(c: nat) returns (data: seq<byte>)
      requires Mounted()
      ensures data == RawRun(disk.sectors, l.SectorOf(c), l.sectorsPerCluster)
      ensures 2 <= c < l.Limit() ==> data == Vol().clusters[c]
    {
      data := ReadSectors(l.SectorOf(c), l.sectorsPerCluster);
      if 2 <= c < l.Limit() {
        RawCluster(l, disk.sectors, c);
      }
    }

    /** Writes a whole cluster, sector by sector. */
    method WriteCluster(c: nat, buf: seq<byte>)
      requires Ready() && 2 <= c < l.Limit() && |buf| == l.ClusterSize()
      modifies disk
      ensures Ready()
      ensures Outside(old(disk.sectors), disk.sectors, l.DataStart(), l.totalSectors)
      ensures Vol() == old(Vol()).(clusters := old(Vol()).clusters[c := buf])
    {
      hide SectorRun, ClustersOf, FatCopy, RootBytes, SlotsOf, ParseRoot, Layout.TotalClusters, Layout.DataStart,
           Layout.RootStart, Layout.RootSectors;
      l.Regions();
      l.ClusterFits(c);
      WriteRun(disk, l.SectorOf(c), l.sectorsPerCluster, buf);
      ClusterWriteFrame(l, old(disk.sectors), disk.sectors, c);
    }

    /** The bytes of the clusters of a list. */
    method ReadChain(chain: seq<nat>) returns (data: seq<byte>)
      requires Mounted()
      ensures data == RawBytes(l, disk.sectors, chain)
      ensures (forall i :: 0 <= i < |chain| ==> 2 <= chain[i] < l.Limit()) ==> data == ChainBytes(Vol().clusters, chain)
    {
      hide VolumeOf, RawRun;
      data := [];
      for i := 0 to |chain|
        invariant data == RawBytes(l, disk.sectors, chain[..i])
      {
        var bytes := ReadCluster(chain[i]);
        data := data + bytes;
        assert chain[..i + 1][..i] == chain[..i];
      }
      assert chain[..|chain|] == chain;
      if forall i :: 0 <= i < |chain| ==> 2 <= chain[i] < l.Limit() {
        RawBytesOfData(l, disk.sectors, chain);
      }
    }

    /** `read_file`; None stands for the error of a chain that leaves the volume. */
    method ReadFile(first: nat, size: nat) returns (r: Option<seq<byte>>)
      requires Valid() && Halts(Vol().table, l.kind.Bad(), first)
      modifies this
      ensures Valid() && fresh(Repr() - old(Repr()))
      ensures r == if Follow(l, Vol().table, first).Exceeds? then None
                   else Some(Take(RawBytes(l, disk.sectors, ChainOf(l, Vol().table, first)), size))
      ensures match ReadAt(l, Vol(), first, size)
        case Done(data) => r == Some(data)
        case Raised => r == None
        case _ => r.Some?
    {
      hide VolumeOf, Mirrored, FatCopy, SlotsOf, RootBytes, ParseRoot, RawBytes, Layout.TotalClusters,
           Layout.RootStart, Layout.RootSectors, Layout.DataStart;
      l.Regions();
      var walk := FollowChain(first);
      if walk.Exceeds? {
        return None;
      }
      var chain := walk.clusters;
      var data := ReadChain(chain);
      r := Some(Take(data, size));
      if DataOnly(l, Vol().table, first) {
        ChainInData(l, Vol().table, first);
      }
    }

    // ---- Root directory ----

    method ReadRootBytes() returns (root: seq<byte>)
      requires Mounted()
      ensures root == RootBytes(l, disk.sectors)
    {
      root := ReadSectors(l.RootStart(), l.RootSectors());
    }

    /** Writes back the one root sector that holds slot idx, the only slot in
        which `root` differs from the disk, and drops the parsed entries. */
    method WriteRootSector(root: seq<byte>, idx: nat, raw: Slot)
      requires Ready() && idx < l.rootEntries
      requires var was := RootBytes(l, disk.sectors); root == was[..idx * 32] + raw + was[(idx + 1) * 32..]
      modifies disk, this`rootCache
      ensures Ready() && rootCache == None
      ensures Outside(old(disk.sectors), disk.sectors, l.RootStart(), l.DataStart())
      ensures Vol() == old(Vol()).(slots := old(Vol()).slots[idx := raw])
    {
      hide VolumeOf, FatCopy, SlotsOf, RootBytes, ParseRoot, Layout.TotalClusters, Layout.DataStart, Layout.RootStart,
           Layout.RootSectors;
      var s := idx * 32 / SECTOR;
      RootWrite(l, disk.sectors, root, idx, raw);
      var buf := root[s * SECTOR..(s + 1) * SECTOR];
      assert buf[..SECTOR] == buf;
      var _ := disk.WriteSector(l.RootStart() + s, buf);
      rootCache := None;
    }

    /** The scan of `_put_root_entry`. */
    method ScanForPut(root: seq<byte>, n: Name83) returns (idx: Option<nat>, existing: bool)
      requires Mounted() && root == RootBytes(l, disk.sectors)
      ensures (idx, existing) == PutSlot(Vol().slots, n, 0, None)
      ensures idx.Some? ==> SlotAt(root, idx.value) == Vol().slots[idx.value]
    {
      hide TableOf, ClustersOf, FatCopy, RootBytes, NamesMatch;
      idx, existing := None, false;
      for i := 0 to l.rootEntries
        invariant idx.Some? ==> idx.value < l.rootEntries
        invariant PutSlot(SlotsOf(l, root), n, 0, None) == PutSlot(SlotsOf(l, root), n, i, idx)
      {
        var raw := SlotAt(root, i);
        if raw[0] == END_MARK {
          return Some(i), false;
        }
        if raw[0] == DELETED {
          if idx.None? {
            idx := Some(i);
          }
        } else if NamesMatch(raw, n) {
          return Some(i), true;
        }
      }
      existing := false;
    }

    /** The scan of `delete_file`. */
    method ScanForDelete(root: seq<byte>, n: Name83) returns (found: Option<nat>)
      requires Mounted() && root == RootBytes(l, disk.sectors)
      ensures found == DeleteSlot(Vol().slots, n, 0)
      ensures found.Some? ==> SlotAt(root, found.value) == Vol().slots[found.value]
    {
      hide TableOf, ClustersOf, FatCopy, RootBytes, NamesMatch, IsDir;
      for i := 0 to l.rootEntries
        invariant DeleteSlot(SlotsOf(l, root), n, 0) == DeleteSlot(SlotsOf(l, root), n, i)
      {
        var raw := SlotAt(root, i);
        if raw[0] == END_MARK {
          return None;
        }
        if raw[0] != DELETED && NamesMatch(raw, n) && !IsDir(raw) {
          return Some(i);
        }
      }
      found := None;
    }

    /** Frees the chain a directory entry points to, if it points to one. False stands
        for the error of a chain that leaves the volume. */
    method ReleaseEntry(raw: Slot) returns (ok: bool)
      requires Ready() && Walks(l, Vol().table, raw)
      modifies Repr()
      ensures Ready() && fresh(Repr() - old(Repr()))
      ensures Outside(old(disk.sectors), disk.sectors, l.FatStart(), l.RootStart())
      ensures ok == Releases(l, old(Vol()).table, raw)
      ensures Vol() == if ok then old(Vol()).(table := Release(l, old(Vol()), raw)) else old(Vol())
    {
      hide VolumeOf, Mirrored, FatCopy, SlotsOf, RootBytes, ParseRoot, FirstCluster, Layout.TotalClusters,
           Layout.RootStart, Layout.RootSectors, Layout.DataStart;
      l.Regions();
      if FirstCluster(raw) < 2 {
        return true;
      }
      OldChainInRange(l, Vol(), raw);
      var walk := FollowChain(FirstCluster(raw));
      if walk.Exceeds? {
        return false;
      }
      assert walk.clusters == OldChain(l, Vol(), raw);
      FreeChain(walk.clusters);
      ok := true;
    }

    /** Places an entry: `RootFull` stands for "root directory full". */
    method PutRootEntry(n: Name83, first: nat, size: nat, attr: byte) returns (r: WriteOutcome)
      requires Ready() && |n.base| == 8 && |n.ext| == 3 && PutWalks(l, Vol(), n)
      modifies Repr()
      ensures Ready() && fresh(Repr() - old(Repr()))
      ensures Outside(old(disk.sectors), disk.sectors, l.FatStart(), l.DataStart())
      ensures match Put(l, old(Vol()), n, first, size, attr)
        case Placed(v') => r == Written(first) && Vol() == v'
        case NoSlot => r == RootFull && Vol() == old(Vol())
        case NotFreed => r == BadChain && Vol() == old(Vol())
    {
      hide VolumeOf, Mirrored, FatCopy, ParseRoot, MakeDirEntry, RootBytes, SlotsOf, Release, NamesMatch, Walks,
           Releases, Layout.TotalClusters, Layout.RootStart, Layout.RootSectors, Layout.DataStart;
      l.Regions();
      var root := ReadRootBytes();
      var idx, existing := ScanForPut(root, n);
      if idx.None? {
        return RootFull;
      }
      if existing {
        var ok := ReleaseEntry(SlotAt(root, idx.value));
        if !ok {
          return BadChain;
        }
        root := ReadRootBytes();
      }
      var raw := MakeDirEntry(n, first, size, attr);
      WriteRootSector(root[..idx.value * 32] + raw + root[(idx.value + 1) * 32..], idx.value, raw);
      r := Written(first);
    }

    // ---- Files ----

    /** Writes data along a chain, chunk by chunk. */
    method StoreData(chain: seq<nat>, data: seq<byte>)
      requires Ready() && forall i :: 0 <= i < |chain| ==> 2 <= chain[i] < l.Limit()
      modifies disk
      ensures Ready() && Outside(old(disk.sectors), disk.sectors, l.DataStart(), l.totalSectors)
      ensures Vol() == old(Vol()).(clusters := Stored(old(Vol()).clusters, chain, data, l.ClusterSize(), |chain|))
    {
      hide VolumeOf, Mirrored, FatCopy, RootBytes, SlotsOf, ParseRoot, Chunk, PadTo, Layout.TotalClusters,
           Layout.RootStart, Layout.RootSectors, Layout.DataStart;
      l.Regions();
      ghost var v, img := Vol(), disk.sectors;
      for i := 0 to |chain|
        invariant Ready() && Outside(img, disk.sectors, l.DataStart(), l.totalSectors)
        invariant Vol() == v.(clusters := Stored(v.clusters, chain, data, l.ClusterSize(), i))
      {
        var chunk := Chunk(data, i, l.ClusterSize());
        WriteCluster(chain[i], PadTo(chunk, l.ClusterSize()));
      }
    }

    /** Creates or replaces a root file. */
    method WriteFile(name: seq<byte>, data: seq<byte>) returns (r: WriteOutcome)
      requires Ready() && WriteWalks(l, Vol(), name, data)
      modifies Repr()
      ensures Ready() && fresh(Repr() - old(Repr()))
      ensures Outside(old(disk.sectors), disk.sectors, l.FatStart(), l.totalSectors)
      ensures (r, Vol()) == Write(l, old(Vol()), name, data)
    {
      hide VolumeOf, Mirrored, FatCopy, RootBytes, SlotsOf, ParseRoot, Put, PutWalks, Stored, Allocated, FirstFit,
           Split83, FreeFrom, IsChain, HasChain, Layout.TotalClusters, Layout.RootStart, Layout.RootSectors,
           Layout.DataStart;
      l.Regions();
      var n := Split83(name);
      if data == [] {
        r := PutRootEntry(n, 0, 0, ATTR_ARCHIVE);
        return;
      }
      ghost var v := Vol();
      var need := ClustersFor(|data|, l.ClusterSize());
      ClustersForCovers(|data|, l.ClusterSize());
      var chain := AllocClusters(need);
      if chain.None? {
        return DiskFull;
      }
      ClaimMakesChain(l, v, data);
      assert forall i :: 0 <= i < |chain.value| ==> chain.value[i] in chain.value;
      StoreData(chain.value, data);
      assert Vol() == Claim(l, v, data);
      r := PutRootEntry(n, chain.value[0], |data|, ATTR_ARCHIVE);
    }

    /** Marks the entry deleted and frees its chain; directories are not matched. */
    method DeleteFile(name: seq<byte>) returns (r: DeleteResult)
      requires Ready() && DeleteWalks(l, Vol(), name)
      modifies Repr()
      ensures Ready() && fresh(Repr() - old(Repr()))
      ensures Outside(old(disk.sectors), disk.sectors, l.FatStart(), l.DataStart())
      ensures (r, Vol()) == Delete(l, old(Vol()), name)
    {
      hide VolumeOf, Mirrored, FatCopy, RootBytes, SlotsOf, ParseRoot, Release, Walks, Releases, Split83, NameOf,
           FirstCluster, DeleteSlot, Layout.TotalClusters, Layout.RootStart, Layout.RootSectors, Layout.DataStart;
      l.Regions();
      var root := ReadRootBytes();
      var found := ScanForDelete(root, Split83(name));
      if found.None? {
        return NotFound;
      }
      var i := found.value;
      var raw := SlotAt(root, i);
      var ok := ReleaseEntry(raw);
      if !ok {
        return StaysLive;
      }
      root := ReadRootBytes();
      var marked := raw[0 := DELETED];
      WriteRootSector(root[..i * 32] + marked + root[(i + 1) * 32..], i, marked);
      r := Deleted;
    }

    /** The entries of one root sector, up to its end mark. */
    method ParseRootSector(root: seq<byte>, lo: nat, hi: nat) returns (entries: seq<Slot>)
      requires l.rootEntries * 32 <= |root| && lo <= hi <= l.rootEntries
      ensures entries == ParseSector(SlotsOf(l, root), lo, hi)
    {
      entries := [];
      for i := lo to hi
        invariant entries + ParseSector(SlotsOf(l, root), i, hi) == ParseSector(SlotsOf(l, root), lo, hi)
      {
        var raw := SlotAt(root, i);
        if raw[0] == END_MARK {
          return;
        }
        entries := entries + [raw];
      }
    }

    method ParseRootSectors(root: seq<byte>) returns (entries: seq<Slot>)
      requires l.rootEntries * 32 <= |root|
      ensures entries == ParseRoot(SlotsOf(l, root), 0)
    {
      hide SlotsOf, ParseSector;
      ghost var slots := SlotsOf(l, root);
      entries := [];
      var next: nat := 0;
      while next < l.rootEntries
        invariant next <= l.rootEntries
        invariant entries + ParseRoot(slots, next) == ParseRoot(slots, 0)
      {
        var hi := if next + 16 <= l.rootEntries then next + 16 else l.rootEntries;
        var piece := ParseRootSector(root, next, hi);
        entries := entries + piece;
        next := hi;
      }
    }

    /** Parses the root directory, or returns the entries parsed before. */
    method ReadRootDirectory() returns (entries: seq<Slot>)
      requires Valid()
      modifies this
      ensures Valid() && cache == old(cache) && entries == ParseRoot(Vol().slots, 0)
    {
      hide FatCopy, RootBytes, SlotsOf, ParseRoot, Mirrored;
      if rootCache.Some? {
        return rootCache.value;
      }
      var root := ReadRootBytes();
      entries := ParseRootSectors(root);
      rootCache := Some(entries);
    }

    method FindFile(name: seq<byte>) returns (r: Option<Slot>)
      requires Valid()
      modifies this
      ensures Valid() && cache == old(cache) && r == Find(Vol(), name)
    {
      hide VolumeOf, Mirrored, FatCopy, RootBytes, SlotsOf, ParseRoot, FindMatches, Live, FindTarget,
           Layout.TotalClusters, Layout.RootStart, Layout.RootSectors, Layout.DataStart;
      l.Regions();
      var target := FindTarget(name);
      var entries := ReadRootDirectory();
      for i := 0 to |entries|
        invariant FindIn(entries, target) == FindIn(entries[i..], target)
      {
        assert entries[i..][0] == entries[i] && entries[i..][1..] == entries[i + 1..];
        if Live(entries[i]) && FindMatches(entries[i], target) {
          return Some(entries[i]);
        }
      }
      r := None;
    }

    /** The bytes along the walk of an entry, the reserved cluster numbers included. */
    ghost function RawFile(raw: Slot): seq<byte>
      reads disk
      requires Mounted()
    {
      Take(RawBytes(l, disk.sectors, ChainOf(l, Vol().table, FirstCluster(raw))), SizeOf(raw))
    }

    /** The bytes of a root file; None when there is no such file. The outer None
        stands for the error of a chain that leaves the volume. */
    method ReadFileByName(name: seq<byte>) returns (r: Option<Option<seq<byte>>>)
      requires Valid() && !ReadByName(l, Vol(), name).Endless?
      modifies this
      ensures Valid() && fresh(Repr() - old(Repr()))
      ensures match ReadByName(l, Vol(), name)
        case Done(data) => r == Some(data)
        case Raised => r == None
        case _ => var raw := Find(Vol(), name); raw.Some? && r == Some(Some(RawFile(raw.value)))
    {
      hide VolumeOf, Mirrored, FatCopy, RootBytes, SlotsOf, ParseRoot, Find, RawBytes, Layout.TotalClusters,
           Layout.RootStart, Layout.RootSectors, Layout.DataStart;
      l.Regions();
      var e := FindFile(name);
      if e.None? || IsDir(e.value) {
        return Some(None);
      }
      var data := ReadFile(FirstCluster(e.value), SizeOf(e.value));
      if data.None? {
        return None;
      }
      r := Some(data);
    }

    /** The entries of a subdirectory, up to its end mark; None stands for the error
        of a chain that leaves the volume. */
    method ReadDir(cluster: nat) returns (r: Option<seq<Slot>>)
      requires Valid() && !DirEntries(l, Vol(), cluster).Endless?
      modifies this
      ensures Valid() && fresh(Repr() - old(Repr()))
      ensures cluster < 2 ==> r == Some([])
      ensures match DirEntries(l, Vol(), cluster)
        case Done(entries) => r == Some(entries)
        case Raised => r == None
        case _ => r == Some(ParseEntries(RawBytes(l, disk.sectors, ChainOf(l, Vol().table, cluster)), 0))
    {
      hide VolumeOf, Mirrored, FatCopy, SlotsOf, RootBytes, ParseRoot, RawBytes, Layout.TotalClusters,
           Layout.RootStart, Layout.RootSectors, Layout.DataStart;
      if cluster < 2 {
        return Some([]);
      }
      if DataOnly(l, Vol().table, cluster) {
        ChainInData(l, Vol().table, cluster);
      }
      var walk := FollowChain(cluster);
      if walk.Exceeds? {
        return None;
      }
      var data := ReadChain(walk.clusters);
      var entries := ParseDirectory(data);
      r := Some(entries);
    }

    method ParseDirectory(data: seq<byte>) returns (entries: seq<Slot>)
      requires |data| % 32 == 0
      ensures entries == ParseEntries(data, 0)
    {
      entries := [];
      for i := 0 to |data| / 32
        invariant entries + ParseEntries(data, i) == ParseEntries(data, 0)
      {
        var raw := SlotAt(data, i);
        if raw[0] == END_MARK {
          return;
        }
        entries := entries + [raw];
      }
    }

    /** Any run of operations: the volume stays well formed, the cached FAT and every
        FAT copy on disk stay equal (`Valid`). */
    method Perform(ops: seq<Op>) returns (done: seq<bool>)
      requires Ready() && WF(l, Vol()) && AllPermitted(l, Vol(), ops)
      modifies Repr()
      ensures Ready() && fresh(Repr() - old(Repr()))
      ensures Outside(old(disk.sectors), disk.sectors, l.FatStart(), l.totalSectors)
      ensures (done, Vol()) == Run(l, old(Vol()), ops)
    {
      hide VolumeOf, Mirrored, FatCopy, RootBytes, SlotsOf, ParseRoot, WF, Apply, Permitted, AllPermitted, Run,
           Layout.TotalClusters, Layout.RootStart, Layout.RootSectors, Layout.DataStart;
      l.Regions();
      ghost var img, whole := disk.sectors, Run(l, Vol(), ops);
      assert ops[0..] == ops;
      done := [];
      for i := 0 to |ops|
        invariant Ready() && fresh(Repr() - old(Repr())) && WF(l, Vol())
        invariant Outside(img, disk.sectors, l.FatStart(), l.totalSectors)
        invariant |done| == i && AllPermitted(l, Vol(), ops[i..])
        invariant done + Run(l, Vol(), ops[i..]).0 == whole.0 && Run(l, Vol(), ops[i..]).1 == whole.1
      {
        RunNext(l, Vol(), ops, i);
        var ok := PerformOne(ops[i]);
        done := done + [ok];
      }
      RunIsOver(l, Vol());
      assert ops[|ops|..] == [] && done + [] == done;
    }

    method PerformOne(op: Op) returns (ok: bool)
      requires Ready() && WF(l, Vol()) && Permitted(l, Vol(), op)
      modifies Repr()
      ensures Ready() && fresh(Repr() - old(Repr()))
      ensures Outside(old(disk.sectors), disk.sectors, l.FatStart(), l.totalSectors)
      ensures (ok, Vol()) == Apply(l, old(Vol()), op)
    {
      hide VolumeOf, Mirrored, FatCopy, RootBytes, SlotsOf, ParseRoot, Chained, Ended, Write, Delete, WriteWalks,
           DeleteWalks, Freed, Layout.TotalClusters, Layout.RootStart, Layout.RootSectors, Layout.DataStart;
      l.Regions();
      match op
      case WriteOp(name, data) =>
        WriteOutcomes(l, Vol(), name, data);
        var r := WriteFile(name, data);
        ok := r.Written?;
      case DeleteOp(name) =>
        DeleteOutcomes(l, Vol(), name);
        var r := DeleteFile(name);
        ok := r.Deleted?;
      case AllocOp(n) =>
        var r := AllocClusters(n);
        ok := r.Some?;
      case FreeOp(chain) =>
        FreeChain(chain);
        ok := true;
    }
  }
}
