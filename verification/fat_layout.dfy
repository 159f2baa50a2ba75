/** Where the regions of a mounted volume lie on the disk. */
module FatLayout {
  import opened Bytes
  import opened FatCodec
  import opened Disks

  datatype Layout = Layout(
    kind: Kind,
    reservedSectors: nat,
    numFats: nat,
    sectorsPerFat: nat,
    rootEntries: nat,
    totalSectors: nat,
    sectorsPerCluster: nat
  ) {
    function FatStart(): nat { reservedSectors }

    /** First sector of a FAT copy. */
    function CopyStart(copy: nat): nat { FatStart() + copy * sectorsPerFat }

    function RootStart(): nat
      requires numFats >= 1
    {
      FatStart() + sectorsPerFat + sectorsPerFat * (numFats - 1)
    }

    function RootSectors(): nat { (rootEntries * 32 + (SECTOR - 1)) / SECTOR }

    function DataStart(): nat
      requires numFats >= 1
    {
      RootStart() + RootSectors()
    }

    function ClusterSize(): nat { SECTOR * sectorsPerCluster }

    function TotalClusters(): nat
      requires numFats >= 1 && sectorsPerCluster >= 1
    {
      if totalSectors > DataStart() then (totalSectors - DataStart()) / sectorsPerCluster else 0
    }

    /** One more than the largest cluster number. */
    function Limit(): nat
      requires numFats >= 1 && sectorsPerCluster >= 1
    {
      TotalClusters() + 2
    }

    function FatBytes(): nat { sectorsPerFat * SECTOR }

    /** A parsed BPB with 512-byte sectors whose FAT has room for every cluster
        and whose cluster numbers stay below the chain-end marks. */
    ghost predicate Valid() {
      && (numFats == 1 || numFats == 2)
      && 1 <= sectorsPerCluster <= 128
      && DataStart() <= totalSectors
      && kind.Offset(TotalClusters() + 1) + 1 < FatBytes()
      && Limit() <= kind.Bad()
    }

    /** `_cluster_to_sector`; negative for the reserved numbers of some layouts. */
    function SectorOf(c: nat): int
      requires numFats >= 1
    {
      DataStart() + (c - 2) * sectorsPerCluster
    }

    /** The regions follow one another. */
    lemma Regions()
      requires Valid()
      ensures FatStart() <= RootStart() <= DataStart() <= totalSectors && ClusterSize() > 0
    {
    }

    /** The root sector that holds a slot. */
    lemma SlotSector(idx: nat)
      requires Valid() && idx < rootEntries
      ensures var s := idx * 32 / SECTOR;
        && s < RootSectors() && s * SECTOR <= idx * 32 && (idx + 1) * 32 <= (s + 1) * SECTOR <= RootSectors() * SECTOR
        && RootStart() + s < DataStart() == RootStart() + RootSectors()
    {
    }

    lemma RootFits()
      requires Valid()
      ensures RootStart() + RootSectors() == DataStart() && rootEntries * 32 <= RootSectors() * SECTOR
    {
    }

    lemma EntriesFit(c: nat)
      requires Valid() && c < Limit()
      ensures kind.Offset(c) + 1 < FatBytes()
    {
    }

    lemma ClusterFits(c: nat)
      requires Valid() && 2 <= c < Limit()
      ensures DataStart() <= SectorOf(c) && SectorOf(c) + sectorsPerCluster <= totalSectors
    {
      hide Layout.DataStart, Kind.Offset, Kind.Bad;
      DivTimes(totalSectors - DataStart(), sectorsPerCluster);
      MulLe(c - 2 + 1, TotalClusters(), sectorsPerCluster);
      assert (c - 2 + 1) * sectorsPerCluster == (c - 2) * sectorsPerCluster + sectorsPerCluster;
      assert (c - 2) * sectorsPerCluster >= 0;
    }

    lemma ClustersApart(c: nat, d: nat)
      requires Valid() && c < d
      ensures SectorOf(c) + sectorsPerCluster <= SectorOf(d)
    {
      MulLe(c - 2 + 1, d - 2, sectorsPerCluster);
      assert (c - 2 + 1) * sectorsPerCluster == (c - 2) * sectorsPerCluster + sectorsPerCluster;
    }

    /** Every FAT copy lies between the reserved sectors and the root directory. */
    lemma CopyFits(copy: nat)
      requires Valid() && copy < numFats
      ensures FatStart() <= CopyStart(copy) && CopyStart(copy) + sectorsPerFat <= RootStart()
      ensures copy == 0 ==> CopyStart(copy) == FatStart()
      ensures copy == 1 ==> CopyStart(copy) == FatStart() + sectorsPerFat
    {
    }
  }

  lemma DivTimes(a: nat, b: nat)
    requires b > 0
    ensures a / b * b <= a
  {
  }
}
