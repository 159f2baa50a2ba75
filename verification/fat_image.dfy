/** The volume that a disk image holds. */
module FatImage {
  import opened Bytes
  import opened Disks
  import opened FatCodec
  import opened FatTable
  import opened FatLayout
  import opened DosNames
  import opened Volumes

  ghost predicate ImageOk(l: Layout, img: Image) {
    l.Valid() && WholeSectors(img) && |img| >= l.totalSectors
  }

  /** The bytes of n consecutive sectors. */
  ghost function SectorRun(img: Image, start: nat, n: nat): (r: seq<byte>)
    requires WholeSectors(img) && start + n <= |img|
    ensures |r| == n * SECTOR
  {
    seq(n * SECTOR, i requires 0 <= i < n * SECTOR => img[start + i / SECTOR][i % SECTOR])
  }

  ghost function FatCopy(l: Layout, img: Image, copy: nat): (r: seq<byte>)
    requires ImageOk(l, img) && copy < l.numFats
    ensures |r| == l.FatBytes()
  {
    l.CopyFits(copy);
    SectorRun(img, l.CopyStart(copy), l.sectorsPerFat)
  }

  ghost function TableOf(l: Layout, fat: seq<byte>): (t: Table)
    requires l.Valid() && |fat| == l.FatBytes()
    ensures |t| == l.Limit()
  {
    seq(l.Limit(), c requires 0 <= c < l.Limit() => l.EntriesFit(c); GetEntry(l.kind, fat, c))
  }

  ghost function RootBytes(l: Layout, img: Image): (r: seq<byte>)
    requires ImageOk(l, img)
    ensures |r| == l.RootSectors() * SECTOR >= l.rootEntries * 32
  {
    SectorRun(img, l.RootStart(), l.RootSectors())
  }

  ghost function SlotsOf(l: Layout, root: seq<byte>): (s: seq<Slot>)
    requires l.rootEntries * 32 <= |root|
    ensures |s| == l.rootEntries
  {
    seq(l.rootEntries, i requires 0 <= i < l.rootEntries => SlotAt(root, i))
  }

  ghost function ClusterAt(l: Layout, img: Image, c: nat): (r: seq<byte>)
    requires ImageOk(l, img) && 2 <= c < l.Limit()
    ensures |r| == l.ClusterSize()
  {
    l.ClusterFits(c);
    SectorRun(img, l.SectorOf(c), l.sectorsPerCluster)
  }

  ghost function ClustersOf(l: Layout, img: Image): (r: seq<seq<byte>>)
    requires ImageOk(l, img)
    ensures |r| == l.Limit()
  {
    seq(l.Limit(), c requires 0 <= c < l.Limit() => if c < 2 then [] else ClusterAt(l, img, c))
  }

  ghost function VolumeOf(l: Layout, img: Image): (v: Volume)
    requires ImageOk(l, img)
    ensures Sized(l, v)
  {
    Volume(TableOf(l, FatCopy(l, img, 0)), SlotsOf(l, RootBytes(l, img)), ClustersOf(l, img))
  }

  ghost predicate Mirrored(l: Layout, img: Image)
    requires ImageOk(l, img)
  {
    forall copy :: 0 <= copy < l.numFats ==> FatCopy(l, img, copy) == FatCopy(l, img, 0)
  }

  /** The images differ at most in the sectors [lo, hi). */
  ghost predicate Outside(img: Image, img': Image, lo: int, hi: int) {
    |img| == |img'| && forall s :: 0 <= s < |img| && !(lo <= s < hi) ==> img[s] == img'[s]
  }

  lemma SectorRunFrame(img: Image, img': Image, lo: int, hi: int, start: nat, n: nat)
    requires WholeSectors(img) && WholeSectors(img') && Outside(img, img', lo, hi)
    requires start + n <= |img| && (start + n <= lo || hi <= start)
    ensures SectorRun(img, start, n) == SectorRun(img', start, n)
  {
  }

  /** The i-th piece of a run is its i-th sector. */
  lemma SectorRunPiece(img: Image, start: nat, n: nat, i: nat)
    requires WholeSectors(img) && start + n <= |img| && i < n
    ensures (i + 1) * SECTOR <= n * SECTOR
    ensures SectorRun(img, start, n)[i * SECTOR..(i + 1) * SECTOR] == img[start + i]
  {
    var piece := SectorRun(img, start, n)[i * SECTOR..(i + 1) * SECTOR];
    forall j | 0 <= j < |piece|
      ensures piece[j] == img[start + i][j]
    {
      DivModUnique(i * SECTOR + j, SECTOR, i, j);
    }
  }

  /** What reading a sector number gives; outside the disk the buffer stays zero. */
  ghost function SectorAt(img: Image, s: int): (r: seq<byte>)
    requires WholeSectors(img)
    ensures |r| == SECTOR
  {
    if 0 <= s < |img| then img[s] else Zeros(SECTOR)
  }

  ghost function RawRun(img: Image, start: int, n: nat): (r: seq<byte>)
    requires WholeSectors(img)
    ensures |r| == n * SECTOR
  {
    seq(n * SECTOR, i requires 0 <= i < n * SECTOR => SectorAt(img, start + i / SECTOR)[i % SECTOR])
  }

  lemma RawRunPiece(img: Image, start: int, n: nat, i: nat)
    requires WholeSectors(img) && i < n
    ensures (i + 1) * SECTOR <= n * SECTOR
    ensures RawRun(img, start, n)[i * SECTOR..(i + 1) * SECTOR] == SectorAt(img, start + i)
  {
    var piece := RawRun(img, start, n)[i * SECTOR..(i + 1) * SECTOR];
    forall j | 0 <= j < |piece|
      ensures piece[j] == SectorAt(img, start + i)[j]
    {
      DivModUnique(i * SECTOR + j, SECTOR, i, j);
    }
  }

  lemma RawRunInside(img: Image, start: nat, n: nat)
    requires WholeSectors(img) && start + n <= |img|
    ensures RawRun(img, start, n) == SectorRun(img, start, n)
  {
  }

  /** The bytes read along any list of cluster numbers, the reserved ones included. */
  ghost function RawBytes(l: Layout, img: Image, chain: seq<nat>): (r: seq<byte>)
    requires ImageOk(l, img)
    ensures |r| % 32 == 0
    decreases |chain|
  {
    if chain == [] then []
    else
      var front := RawBytes(l, img, chain[..|chain| - 1]);
      var last := RawRun(img, l.SectorOf(chain[|chain| - 1]), l.sectorsPerCluster);
      DivModUnique(|front| + |last|, 32, |front| / 32 + 16 * l.sectorsPerCluster, 0);
      front + last
  }

  lemma {:induction false} RawBytesOfData(l: Layout, img: Image, chain: seq<nat>)
    requires ImageOk(l, img) && forall i :: 0 <= i < |chain| ==> 2 <= chain[i] < l.Limit()
    ensures RawBytes(l, img, chain) == ChainBytes(VolumeOf(l, img).clusters, chain)
    decreases |chain|
  {
    hide TableOf, SlotsOf, Layout.SectorOf, SectorRun, RawRun, ImageOk, Layout.DataStart, Layout.Limit;
    if chain != [] {
      var last := chain[|chain| - 1];
      RawBytesOfData(l, img, chain[..|chain| - 1]);
      RawCluster(l, img, last);
    }
  }

  lemma RawCluster(l: Layout, img: Image, c: nat)
    requires ImageOk(l, img) && 2 <= c < l.Limit()
    ensures RawRun(img, l.SectorOf(c), l.sectorsPerCluster) == VolumeOf(l, img).clusters[c]
  {
    hide TableOf, SlotsOf, SectorRun, RawRun;
    l.ClusterFits(c);
    RawRunInside(img, l.SectorOf(c), l.sectorsPerCluster);
  }

  lemma PiecesMakeRun(img: Image, start: nat, n: nat, data: seq<byte>)
    requires WholeSectors(img) && start + n <= |img| && |data| == n * SECTOR
    requires forall j :: 0 <= j < n ==> img[start + j] == Slice(data, j * SECTOR, (j + 1) * SECTOR)
    ensures SectorRun(img, start, n) == data
  {
    var run := SectorRun(img, start, n);
    forall i | 0 <= i < n * SECTOR
      ensures run[i] == data[i]
    {
      var j := i / SECTOR;
      assert img[start + j] == Slice(data, j * SECTOR, (j + 1) * SECTOR);
    }
  }

  /** Writes a buffer to consecutive sectors, sector by sector. */
  method WriteRun(disk: Disk, start: nat, n: nat, data: seq<byte>)
    requires disk.Valid() && !disk.readOnly && start + n <= |disk.sectors| && |data| == n * SECTOR
    modifies disk
    ensures disk.Valid() && !disk.readOnly && Outside(old(disk.sectors), disk.sectors, start, start + n)
    ensures SectorRun(disk.sectors, start, n) == data
  {
    hide SectorRun;
    ghost var img := disk.sectors;
    for j := 0 to n
      invariant disk.Valid() && !disk.readOnly && Outside(img, disk.sectors, start, start + j)
      invariant forall i :: 0 <= i < j ==> disk.sectors[start + i] == Slice(data, i * SECTOR, (i + 1) * SECTOR)
    {
      var buf := Slice(data, j * SECTOR, (j + 1) * SECTOR);
      assert buf[..SECTOR] == buf;
      var _ := disk.WriteSector(start + j, buf);
    }
    PiecesMakeRun(disk.sectors, start, n, data);
  }

  /** A run inside a run. */
  lemma SectorRunPart(img: Image, start: nat, n: nat, off: nat, m: nat)
    requires WholeSectors(img) && start + n <= |img| && off + m <= n
    ensures SectorRun(img, start + off, m) == SectorRun(img, start, n)[off * SECTOR..(off + m) * SECTOR]
  {
    var part, whole := SectorRun(img, start + off, m), SectorRun(img, start, n);
    forall i | 0 <= i < m * SECTOR
      ensures part[i] == whole[off * SECTOR + i]
    {
      DivModUnique(off * SECTOR + i, SECTOR, off + i / SECTOR, i % SECTOR);
    }
  }

  /** Overwriting sector s of a run replaces those 512 bytes of it. */
  lemma SectorRunWrite(img: Image, start: nat, n: nat, s: nat, buf: seq<byte>)
    requires WholeSectors(img) && start + n <= |img| && s < n && |buf| == SECTOR
    ensures var img' := img[start + s := buf];
            && WholeSectors(img')
            && forall i :: 0 <= i < n * SECTOR ==>
                 SectorRun(img', start, n)[i]
                   == if s * SECTOR <= i < (s + 1) * SECTOR then buf[i - s * SECTOR] else SectorRun(img, start, n)[i]
  {
    var img' := img[start + s := buf];
    forall i | 0 <= i < n * SECTOR
      ensures SectorRun(img', start, n)[i]
        == if s * SECTOR <= i < (s + 1) * SECTOR then buf[i - s * SECTOR] else SectorRun(img, start, n)[i]
    {
      if s * SECTOR <= i < (s + 1) * SECTOR {
        DivModUnique(i, SECTOR, s, i - s * SECTOR);
      }
    }
  }

  /** A write inside the FAT area reaches neither the root nor the data. */
  lemma FatWriteFrame(l: Layout, img: Image, img': Image)
    requires ImageOk(l, img) && ImageOk(l, img') && Outside(img, img', l.FatStart(), l.RootStart())
    ensures RootBytes(l, img') == RootBytes(l, img) && ClustersOf(l, img') == ClustersOf(l, img)
  {
    SectorRunFrame(img, img', l.FatStart(), l.RootStart(), l.RootStart(), l.RootSectors());
    forall c | 2 <= c < l.Limit()
      ensures ClusterAt(l, img', c) == ClusterAt(l, img, c)
    {
      l.ClusterFits(c);
      SectorRunFrame(img, img', l.FatStart(), l.RootStart(), l.SectorOf(c), l.sectorsPerCluster);
    }
  }

  lemma FatCopiesFrame(l: Layout, img: Image, img': Image, lo: int, hi: int)
    requires ImageOk(l, img) && ImageOk(l, img') && Outside(img, img', lo, hi) && l.RootStart() <= lo
    ensures forall copy :: 0 <= copy < l.numFats ==> FatCopy(l, img', copy) == FatCopy(l, img, copy)
  {
    forall copy | 0 <= copy < l.numFats
      ensures FatCopy(l, img', copy) == FatCopy(l, img, copy)
    {
      l.CopyFits(copy);
      SectorRunFrame(img, img', lo, hi, l.CopyStart(copy), l.sectorsPerFat);
    }
  }

  lemma ClustersFrame(l: Layout, img: Image, img': Image, lo: int, hi: int)
    requires ImageOk(l, img) && ImageOk(l, img') && Outside(img, img', lo, hi) && hi <= l.DataStart()
    ensures ClustersOf(l, img') == ClustersOf(l, img)
  {
    forall c | 2 <= c < l.Limit()
      ensures ClusterAt(l, img', c) == ClusterAt(l, img, c)
    {
      l.ClusterFits(c);
      SectorRunFrame(img, img', lo, hi, l.SectorOf(c), l.sectorsPerCluster);
    }
  }

  /** Overwriting the sectors of cluster c replaces that cluster and nothing else. */
  lemma ClusterWriteFrame(l: Layout, img: Image, img': Image, c: nat)
    requires ImageOk(l, img) && ImageOk(l, img') && 2 <= c < l.Limit()
    requires Outside(img, img', l.SectorOf(c), l.SectorOf(c) + l.sectorsPerCluster)
    ensures RootBytes(l, img') == RootBytes(l, img)
    ensures forall copy :: 0 <= copy < l.numFats ==> FatCopy(l, img', copy) == FatCopy(l, img, copy)
    ensures ClustersOf(l, img') == ClustersOf(l, img)[c := ClusterAt(l, img', c)]
  {
    var lo, hi := l.SectorOf(c), l.SectorOf(c) + l.sectorsPerCluster;
    l.ClusterFits(c);
    FatCopiesFrame(l, img, img', lo, hi);
    SectorRunFrame(img, img', lo, hi, l.RootStart(), l.RootSectors());
    forall d | 2 <= d < l.Limit() && d != c
      ensures ClusterAt(l, img', d) == ClusterAt(l, img, d)
    {
      l.ClusterFits(d);
      if d < c { l.ClustersApart(d, c); } else { l.ClustersApart(c, d); }
      SectorRunFrame(img, img', lo, hi, l.SectorOf(d), l.sectorsPerCluster);
    }
  }

  /** Writing sector s of one FAT copy leaves the other copy alone. */
  lemma CopyWrite(l: Layout, img: Image, copy: nat, s: nat, buf: seq<byte>)
    requires ImageOk(l, img) && copy < l.numFats && s < l.sectorsPerFat && |buf| == SECTOR
    ensures l.CopyStart(copy) + s < |img|
    ensures var img' := img[l.CopyStart(copy) + s := buf];
      && ImageOk(l, img') && Outside(img, img', l.FatStart(), l.RootStart())
      && (forall k :: 0 <= k < l.numFats && k != copy ==> FatCopy(l, img', k) == FatCopy(l, img, k))
      && (forall i :: 0 <= i < l.FatBytes() ==>
            FatCopy(l, img', copy)[i] ==
            if s * SECTOR <= i < (s + 1) * SECTOR then buf[i - s * SECTOR] else FatCopy(l, img, copy)[i])
  {
    l.CopyFits(copy);
    var img' := img[l.CopyStart(copy) + s := buf];
    SectorRunWrite(img, l.CopyStart(copy), l.sectorsPerFat, s, buf);
    forall k | 0 <= k < l.numFats && k != copy
      ensures FatCopy(l, img', k) == FatCopy(l, img, k)
    {
      l.CopyFits(k);
      var start := l.CopyStart(copy);
      SectorRunFrame(img, img', start, start + l.sectorsPerFat, l.CopyStart(k), l.sectorsPerFat);
    }
  }

  /** Packing one entry changes that entry of the table. */
  lemma TableWrite(l: Layout, fat: seq<byte>, c: nat, v: nat)
    requires l.Valid() && |fat| == l.FatBytes() && InFat(l.kind, fat, c)
    ensures TableOf(l, PutEntry(l.kind, fat, c, v)) ==
            if c >= l.Limit() then TableOf(l, fat)
            else TableOf(l, fat)[c := if l.kind == Fat12 && c == 0 then v % 0x100 else v % l.kind.Modulus()]
  {
    var fat' := PutEntry(l.kind, fat, c, v);
    forall d | 0 <= d < l.Limit()
      ensures TableOf(l, fat')[d] == if d != c then TableOf(l, fat)[d]
              else if l.kind == Fat12 && c == 0 then v % 0x100 else v % l.kind.Modulus()
    {
      l.EntriesFit(d);
      if d == c {
        PutThenGet(l.kind, fat, c, v);
      } else {
        PutKeepsOthers(l.kind, fat, c, v, d);
      }
    }
  }

  /** Overwriting slot idx in the root bytes changes that slot of the directory. */
  lemma SlotWrite(l: Layout, root: seq<byte>, idx: nat, raw: Slot)
    requires l.rootEntries * 32 <= |root| && idx < l.rootEntries
    ensures SlotsOf(l, root[..idx * 32] + raw + root[(idx + 1) * 32..]) == SlotsOf(l, root)[idx := raw]
  {
    var root' := root[..idx * 32] + raw + root[(idx + 1) * 32..];
    forall i | 0 <= i < l.rootEntries
      ensures SlotAt(root', i) == if i == idx then raw else SlotAt(root, i)
    {
    }
  }

  /** The images agree on FAT and clusters, and the new one has these root bytes. */
  ghost predicate RootChanged(l: Layout, img: Image, img': Image, root: seq<byte>)
    requires ImageOk(l, img)
  {
    && ImageOk(l, img') && Outside(img, img', l.RootStart(), l.DataStart()) && RootBytes(l, img') == root
    && forall copy :: 0 <= copy < l.numFats ==> FatCopy(l, img', copy) == FatCopy(l, img, copy)
  }

  /** Writing back the root sector of slot idx changes that slot alone. */
  lemma RootWrite(l: Layout, img: Image, root: seq<byte>, idx: nat, raw: Slot)
    requires ImageOk(l, img) && idx < l.rootEntries
    requires var was := RootBytes(l, img); root == was[..idx * 32] + raw + was[(idx + 1) * 32..]
    ensures var s := idx * 32 / SECTOR;
      && s < l.RootSectors() && (s + 1) * SECTOR <= |root| && l.RootStart() + s < |img|
      && var img' := img[l.RootStart() + s := root[s * SECTOR..(s + 1) * SECTOR]];
      && RootChanged(l, img, img', root)
      && VolumeOf(l, img') == VolumeOf(l, img).(slots := VolumeOf(l, img).slots[idx := raw])
  {
    hide SectorRun, Layout.RootStart, Layout.RootSectors, Layout.DataStart, Layout.TotalClusters;
    l.Regions();
    l.SlotSector(idx);
    var s := idx * 32 / SECTOR;
    var img' := img[l.RootStart() + s := root[s * SECTOR..(s + 1) * SECTOR]];
    RootSectorWrite(l, img, root, idx, raw, l.RootStart(), s);
    FatCopiesFrame(l, img, img', l.RootStart(), l.DataStart());
    ClustersFrame(l, img, img', l.RootStart(), l.DataStart());
    SlotWrite(l, RootBytes(l, img), idx, raw);
  }

  /** Replacing 32 aligned bytes of a run amounts to replacing the sector they lie in. */
  lemma PatchSector(was: seq<byte>, now: seq<byte>, root: seq<byte>, lo: nat, raw: Slot, s: nat)
    requires lo + 32 <= |was| == |now| && root == was[..lo] + raw + was[lo + 32..]
    requires s * SECTOR <= lo && lo + 32 <= (s + 1) * SECTOR <= |was|
    requires forall i :: 0 <= i < |now| ==>
               now[i]
                 == if s * SECTOR <= i < (s + 1) * SECTOR then root[s * SECTOR..(s + 1) * SECTOR][i - s * SECTOR]
                    else was[i]
    ensures now == root
  {
  }

  lemma RootSectorWrite(l: Layout, img: Image, root: seq<byte>, idx: nat, raw: Slot, at: nat, s: nat)
    requires ImageOk(l, img) && idx < l.rootEntries && at == l.RootStart() && s == idx * 32 / SECTOR
    requires at + s < |img| && (s + 1) * SECTOR <= |root|
    requires var was := RootBytes(l, img); root == was[..idx * 32] + raw + was[(idx + 1) * 32..]
    ensures var img' := img[at + s := root[s * SECTOR..(s + 1) * SECTOR]];
      ImageOk(l, img') && Outside(img, img', at, l.DataStart()) && RootBytes(l, img') == root
  {
    hide SectorRun, Layout.RootStart, Layout.RootSectors, Layout.DataStart, Layout.TotalClusters;
    l.Regions();
    l.SlotSector(idx);
    var buf := root[s * SECTOR..(s + 1) * SECTOR];
    SectorRunWrite(img, l.RootStart(), l.RootSectors(), s, buf);
    PatchSector(RootBytes(l, img), RootBytes(l, img[l.RootStart() + s := buf]), root, idx * 32, raw, s);
  }
}
