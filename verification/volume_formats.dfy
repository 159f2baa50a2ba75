/** The formats a FAT volume is made of, byte by byte and slot by slot: where the regions
    lie, how names, dates and marks are written, and what ends a chain or a directory. */
module VolumeFormats {
  import opened Bytes
  import opened Disks
  import opened FatCodec
  import opened FatTable
  import opened FatLayout
  import opened DosNames
  import opened Volumes
  import opened VolumeOps

  // ---- Regions ----

  /** The FAT copies follow the reserved sectors, then comes the root directory in as few
      sectors as hold it, then cluster 2. */
  lemma RegionsMean(l: Layout)
    requires l.Valid()
    ensures SECTOR == 512 && l.CopyStart(0) == l.reservedSectors
    ensures l.RootStart() == l.reservedSectors + l.numFats * l.sectorsPerFat
    ensures (l.RootSectors() - 1) * 512 < l.rootEntries * 32 <= l.RootSectors() * 512
    ensures l.SectorOf(2) == l.RootStart() + l.RootSectors()
  {
    hide Layout.Limit, Layout.TotalClusters, Layout.FatBytes, Kind.Offset, Kind.Bad;
    if l.numFats == 1 {} else {}
  }

  /** The clusters follow one another, and as many are counted as fit. */
  lemma ClustersMean(l: Layout, c: nat)
    requires l.Valid()
    ensures l.SectorOf(c + 1) == l.SectorOf(c) + l.sectorsPerCluster
    ensures l.SectorOf(l.Limit()) <= l.totalSectors < l.SectorOf(l.Limit()) + l.sectorsPerCluster
  {
    hide Layout.DataStart, Layout.FatBytes, Kind.Offset, Kind.Bad;
    OneFurther(c - 2, l.sectorsPerCluster);
    Quotient(l.totalSectors - l.DataStart(), l.sectorsPerCluster);
  }

  lemma OneFurther(k: int, n: nat)
    ensures (k + 1) * n == k * n + n
  {
  }

  lemma Quotient(a: nat, n: nat)
    requires n > 0
    ensures a / n * n <= a < a / n * n + n
  {
    assert a == n * (a / n) + a % n;
  }

  // ---- Names ----

  lemma UpperLetters(b: byte)
    ensures 0x61 <= b <= 0x7A ==> UpperByte(b) == 0x41 + (b - 0x61)
    ensures !(0x61 <= b <= 0x7A) ==> UpperByte(b) == b
  {
  }

  lemma {:induction false} UpperDots(s: seq<byte>)
    ensures LastDot(Upper(s)) == LastDot(s) && FirstDot(Upper(s)) == FirstDot(s)
  {
    var u := Upper(s);
    assert forall i :: 0 <= i < |s| ==> u[i] == UpperByte(s[i]) && (u[i] == DOT <==> s[i] == DOT);
    OneLastDot(s, u);
    OneFirstDot(s, u);
  }

  lemma OneLastDot(s: seq<byte>, u: seq<byte>)
    requires |s| == |u| && forall i :: 0 <= i < |s| ==> (u[i] == DOT <==> s[i] == DOT)
    ensures LastDot(u) == LastDot(s)
  {
  }

  lemma OneFirstDot(s: seq<byte>, u: seq<byte>)
    requires |s| == |u| && forall i :: 0 <= i < |s| ==> (u[i] == DOT <==> s[i] == DOT)
    ensures FirstDot(u) == FirstDot(s)
  {
  }

  lemma PaddedPart(s: seq<byte>, width: nat)
    ensures forall i :: 0 <= i < width ==> LJust(Take(s, width), width)[i] == if i < |s| then s[i] else 0x20
  {
  }

  lemma UpperParts(name: seq<byte>, d: nat)
    requires d <= |name|
    ensures var base, ext := Before(Upper(name), d), After(Upper(name), d);
      && |base| == d && |ext| == (if d < |name| then |name| - d - 1 else 0)
      && (forall i :: 0 <= i < |base| ==> base[i] == UpperByte(name[i]))
      && (forall i :: 0 <= i < |ext| ==> ext[i] == UpperByte(name[d + 1 + i]))
  {
    hide UpperByte;
  }

  /** Where a name is stored: the part before the last dot in eight bytes and the part
      behind it in three, in upper case, cut off or filled up with blanks. */
  lemma StoredName(name: seq<byte>)
    ensures var n, d := Split83(name), LastDot(name);
      && (d < |name| ==> name[d] == 0x2E) && (forall i :: d < i < |name| ==> name[i] != 0x2E)
      && (forall i :: 0 <= i < 8 ==> n.base[i] == if i < d then UpperByte(name[i]) else 0x20)
      && (forall i :: 0 <= i < 3 ==> n.ext[i] == if d + 1 + i < |name| then UpperByte(name[d + 1 + i]) else 0x20)
  {
    hide LastDot, UpperByte, Upper, Before, After, LJust, Take;
    LastIsBehind(name);
    UpperParts(name, LastDot(name));
    var u, d := Upper(name), LastDot(name);
    UpperDots(name);
    PaddedPart(Before(u, d), 8);
    PaddedPart(After(u, d), 3);
  }

  lemma LastIsBehind(name: seq<byte>)
    ensures forall i :: LastDot(name) < i < |name| ==> name[i] != 0x2E
  {
    var d := LastDot(name);
    forall i | d < i < |name|
      ensures name[i] != 0x2E
    {
      assert name[i] == name[d + 1..][i - d - 1];
    }
  }

  /** What a search looks for: the same with the first dot, and nothing filled up. */
  lemma SoughtName(name: seq<byte>)
    ensures var n, d := FindTarget(name), FirstDot(name);
      && (d < |name| ==> name[d] == 0x2E) && (forall i :: 0 <= i < d ==> name[i] != 0x2E)
      && |n.base| == (if d < 8 then d else 8)
      && |n.ext| == (if d + 1 >= |name| then 0 else if d + 4 <= |name| then 3 else |name| - d - 1)
      && (forall i :: 0 <= i < |n.base| ==> n.base[i] == UpperByte(name[i]))
      && (forall i :: 0 <= i < |n.ext| ==> n.ext[i] == UpperByte(name[d + 1 + i]))
  {
    hide FirstDot, UpperByte, Upper, Before, After;
    UpperDots(name);
    UpperParts(name, FirstDot(name));
    assert forall i :: 0 <= i < FirstDot(name) ==> name[i] == name[..FirstDot(name)][i];
  }

  /** A name is read up to its last byte that is neither blank nor zero. */
  lemma {:induction false} StrippedName(s: seq<byte>)
    ensures var r := RStrip(s);
      && r <= s && (r != [] ==> r[|r| - 1] !in {0x20, 0x00})
      && forall i :: |r| <= i < |s| ==> s[i] in {0x20, 0x00}
  {
    if s != [] && (s[|s| - 1] == SPACE || s[|s| - 1] == 0) {
      StrippedName(s[..|s| - 1]);
    }
  }

  // ---- Directory entries ----

  /** Every entry is dated the first of January 1980, midnight, in all three dates and
      both times; the bytes that later systems use are zero. */
  lemma EntryIsDated(n: Name83, first: nat, size: nat, attr: byte)
    requires |n.base| == 8 && |n.ext| == 3
    ensures var raw := MakeDirEntry(n, first, size, attr);
      && (forall at :: at in {16, 18, 24} ==>
            Le16(raw, at) % 32 == 1 && Le16(raw, at) / 32 % 16 == 1 && 1980 + Le16(raw, at) / 512 == 1980)
      && Le16(raw, 14) == 0 && Le16(raw, 22) == 0 && Le16(raw, 12) == 0 && Le16(raw, 20) == 0
  {
  }

  /** A successful `delete_file` marks the first file of the name, and frees its chain. */
  lemma DeleteMarks(l: Layout, v: Volume, name: seq<byte>)
    requires WF(l, v) && Delete(l, v, name).0.Deleted?
    ensures var v' := Delete(l, v, name).1;
      exists k :: DeleteOutcome(v.slots, Split83(name), Some(k)) && MarkedAt(l, v, v', k)
  {
    hide NameOf, Stripped, DeleteSlot, Split83, FirstCluster, ChainOf;
    DeleteSlotMeaning(v.slots, Split83(name), 0);
    var k := DeleteSlot(v.slots, Split83(name), 0).value;
    assert MarkedAt(l, v, Delete(l, v, name).1, k);
  }

  ghost predicate MarkedAt(l: Layout, v: Volume, v': Volume, k: nat) {
    && k < |v.slots| == |v'.slots| && v'.clusters == v.clusters && |v'.table| == |v.table|
    && (forall i :: 0 <= i < |v.slots| && i != k ==> v'.slots[i] == v.slots[i])
    && v'.slots[k][0] == 0xE5 && v'.slots[k][1..] == v.slots[k][1..]
    && var first := FirstCluster(v.slots[k]);
    && (forall c :: 0 <= c < |v.table| ==>
          v'.table[c] == if first >= 2 && c in ChainOf(l, v.table, first) then 0 else v.table[c])
  }

  // ---- Chains ----

  /** The smallest link that ends a chain, and the one that is written to end it. */
  function EndOf(kind: Kind): nat {
    if kind == Fat12 then 0xFF7 else 0xFFF7
  }

  lemma ClaimedEnds(l: Layout, v: Volume, data: seq<byte>)
    requires CanClaim(l, v, data)
    ensures var chain, t' := ClaimedChain(l, v, data), Claim(l, v, data).table;
      chain[|chain| - 1] < |t'| && t'[chain[|chain| - 1]] == EndOf(l.kind) + 1
  {
    ClaimMakesChain(l, v, data);
  }

  /** Whether a walk returns, from one cluster to the next: it does at a link that ends a
      chain, and raises at one past the last cluster. */
  lemma WalkGoesOn(l: Layout, t: Table, c: nat)
    requires |t| <= EndOf(l.kind)
    ensures c >= EndOf(l.kind) ==> Followable(l, t, c) && ChainOf(l, t, c) == []
    ensures |t| <= c < EndOf(l.kind) ==> Halts(t, l.kind.Bad(), c) && !Followable(l, t, c)
    ensures c < |t| ==> (Followable(l, t, c) <==> Followable(l, t, t[c]))
    ensures c < |t| && Followable(l, t, c) ==> ChainOf(l, t, c) == [c] + ChainOf(l, t, t[c])
  {
    var bad := l.kind.Bad();
    assert bad == EndOf(l.kind);
    if c < |t| {
      HaltsDecided(t, bad, c, |t| + 1);
      if Followable(l, t, c) {
        StepsBounded(t, bad, c);
        FuelIrrelevant(t, bad, c, |t|, |t| + 1);
      }
    }
  }

  lemma StepsBounded(t: Table, bad: nat, c: nat)
    ensures |Steps(t, bad, c, |t|)| <= |t|
  {
    StepsInRange(t, bad, c, |t|);
  }

  // ---- The root directory ----

  /** No end mark lies before slot i in its sector of sixteen entries, or on it. */
  ghost predicate Visible(slots: seq<Slot>, i: nat)
    requires i < |slots|
  {
    forall j :: i - i % 16 <= j <= i ==> slots[j][0] != 0x00
  }

  /** The visible slots from i on, in order. */
  ghost function VisibleFrom(slots: seq<Slot>, i: nat): seq<Slot>
    decreases |slots| - i
  {
    if i >= |slots| then []
    else (if Visible(slots, i) then [slots[i]] else []) + VisibleFrom(slots, i + 1)
  }

  lemma {:induction false} SectorShows(slots: seq<Slot>, start: nat, i: nat, hi: nat)
    requires start % 16 == 0 && start <= i <= hi <= |slots| && hi <= start + 16
    requires forall j :: start <= j < i ==> slots[j][0] != 0x00
    ensures VisibleFrom(slots, i) == ParseSector(slots, i, hi) + VisibleFrom(slots, hi)
    decreases hi - i
  {
    if i < hi {
      InSector(start, i);
      if slots[i][0] == END_MARK {
        NoneShow(slots, start, i, i, hi);
      } else {
        SectorShows(slots, start, i + 1, hi);
        assert ParseSector(slots, i, hi) == [slots[i]] + ParseSector(slots, i + 1, hi);
      }
    }
  }

  lemma InSector(start: nat, i: nat)
    requires start % 16 == 0 && start <= i < start + 16
    ensures i - i % 16 == start
  {
  }

  lemma {:induction false} NoneShow(slots: seq<Slot>, start: nat, mark: nat, i: nat, hi: nat)
    requires start % 16 == 0 && start <= mark <= i <= hi <= |slots| && hi <= start + 16 && mark < hi
    requires slots[mark][0] == 0x00
    ensures VisibleFrom(slots, i) == VisibleFrom(slots, hi)
    decreases hi - i
  {
    if i < hi {
      InSector(start, i);
      assert !Visible(slots, i);
      NoneShow(slots, start, mark, i + 1, hi);
    }
  }

  lemma NothingShows(slots: seq<Slot>, i: nat)
    requires i >= |slots|
    ensures ParseRoot(slots, i) == VisibleFrom(slots, i) == []
  {
  }

  /** An end mark hides what follows it in its own sector and nothing else. */
  lemma {:induction false} RootShows(slots: seq<Slot>, i: nat)
    requires i % 16 == 0
    ensures ParseRoot(slots, i) == VisibleFrom(slots, i)
    decreases |slots| - i
  {
    hide ParseSector, VisibleFrom;
    if i + 16 <= |slots| {
      SectorShows(slots, i, i, i + 16);
      RootShows(slots, i + 16);
    } else if i < |slots| {
      SectorShows(slots, i, i, |slots|);
      NothingShows(slots, |slots|);
    } else {
      NothingShows(slots, i);
    }
  }
}
