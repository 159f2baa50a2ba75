/** What creating, replacing and deleting root files promise. */
module VolumeTheorems {
  import opened Bytes
  import opened FatCodec
  import opened FatTable
  import opened FatLayout
  import opened DosNames
  import opened Volumes
  import opened VolumeOps

  /** A chain stays the same chain in a table that changes only outside it. */
  lemma ChainKept(l: Layout, t: Table, t': Table, c: nat, changed: seq<nat>)
    requires HasChain(l, t, c) && |t'| == |t| && |t| <= l.kind.Bad()
    requires forall x :: 0 <= x < |t| && x !in changed ==> t'[x] == t[x]
    requires Disjoint(changed, ChainOf(l, t, c))
    ensures HasChain(l, t', c) && ChainOf(l, t', c) == ChainOf(l, t, c)
  {
    var chain := ChainOf(l, t, c);
    forall i | 0 <= i < |chain|
      ensures t'[chain[i]] == t[chain[i]]
    {
      assert chain[i] in chain;
    }
    ChainFrame(t, t', l.kind.Bad(), chain);
    ChainIsChainOf(l, t', chain);
  }

  /** A first cluster a new entry may point to: none, or a chain no root file owns. */
  ghost predicate Fresh(l: Layout, v: Volume, first: nat) {
    first >= 2 ==>
      && HasChain(l, v.table, first)
      && forall i :: 0 <= i < |v.slots| && HasData(v.slots[i]) ==>
           && Disjoint(ChainOf(l, v.table, first), FileChain(l, v.table, v.slots[i]))
           && Disjoint(FileChain(l, v.table, v.slots[i]), ChainOf(l, v.table, first))
  }

  ghost predicate EntryName(n: Name83) {
    && |n.base| == 8 && |n.ext| == 3 && Printable(n.base) && Upper(n.base) == n.base && Upper(n.ext) == n.ext
  }

  /** The slot that `_put_root_entry` overwrites. */
  ghost function PutIndex(v: Volume, n: Name83): Option<nat> {
    PutSlot(v.slots, n, 0, None).0
  }

  /** The chain it releases: that of the entry it replaces, if any. */
  ghost function Replaced(l: Layout, v: Volume, n: Name83): seq<nat> {
    var (idx, existing) := PutSlot(v.slots, n, 0, None);
    if existing then OldChain(l, v, v.slots[idx.value]) else []
  }

  lemma PutShape(l: Layout, v: Volume, n: Name83, first: nat, size: nat, attr: byte)
    requires WF(l, v) && EntryName(n) && Put(l, v, n, first, size, attr).Placed?
    ensures var v' := Put(l, v, n, first, size, attr).value;
      && PutIndex(v, n).Some? && PutIndex(v, n).value < |v.slots|
      && v'.slots == v.slots[PutIndex(v, n).value := MakeDirEntry(n, first, size, attr)]
      && v'.clusters == v.clusters && |v'.table| == |v.table|
      && (forall x :: 0 <= x < |v.table| && x !in Replaced(l, v, n) ==> v'.table[x] == v.table[x])
      && (forall x :: 0 <= x < |v.table| && x in Replaced(l, v, n) ==> v'.table[x] == 0)
  {
  }

  /** What a replaced entry owned touches neither the other files nor a fresh chain. */
  lemma ReplacedApart(l: Layout, v: Volume, n: Name83, first: nat)
    requires WF(l, v) && Fresh(l, v, first) && PutIndex(v, n).Some?
    ensures first >= 2 ==> Disjoint(Replaced(l, v, n), ChainOf(l, v.table, first))
    ensures forall i :: 0 <= i < |v.slots| && i != PutIndex(v, n).value && HasData(v.slots[i]) ==>
              Disjoint(Replaced(l, v, n), FileChain(l, v.table, v.slots[i]))
  {
    PutSlotMeaning(v.slots, n, 0, None);
    var idx := PutIndex(v, n).value;
    forall i | 0 <= i < |v.slots| && i != idx && HasData(v.slots[i])
      ensures Disjoint(Replaced(l, v, n), FileChain(l, v.table, v.slots[i]))
    {
      if HasData(v.slots[idx]) {
        assert if i < idx then Disjoint(FileChain(l, v.table, v.slots[i]), FileChain(l, v.table, v.slots[idx]))
               else Disjoint(FileChain(l, v.table, v.slots[idx]), FileChain(l, v.table, v.slots[i]));
      }
    }
  }

  lemma LiveSlotKeepsEnd(slots: seq<Slot>, n: Name83, idx: nat, raw: Slot)
    requires Ended(slots) && idx < |slots| && Passed(slots, n, idx) && Live(raw)
    ensures Ended(slots[idx := raw])
  {
  }

  /** The new directory is well formed again, and its names are upper case if they were. */
  lemma PutKeepsDirectory(l: Layout, v: Volume, n: Name83, first: nat, size: nat, attr: byte)
    requires WF(l, v) && EntryName(n) && Put(l, v, n, first, size, attr).Placed?
    ensures var slots := Put(l, v, n, first, size, attr).value.slots;
            Ended(slots) && (UpperNames(v.slots) ==> UpperNames(slots))
  {
    hide MakeDirEntry, NameOf, Holds, PutSlot, Release;
    PutSlotMeaning(v.slots, n, 0, None);
    MadeEntry(n, first, size, attr);
    StripUpper(n.base);
    StripUpper(n.ext);
    LiveSlotKeepsEnd(v.slots, n, PutIndex(v, n).value, MakeDirEntry(n, first, size, attr));
  }

  /** Every other root file keeps its slot and chain; the fresh chain stays too. */
  lemma PutKeepsChains(l: Layout, v: Volume, n: Name83, first: nat, size: nat, attr: byte)
    requires WF(l, v) && EntryName(n) && Fresh(l, v, first) && Put(l, v, n, first, size, attr).Placed?
    ensures var v' := Put(l, v, n, first, size, attr).value;
            forall i :: 0 <= i < |v.slots| && i != PutIndex(v, n).value && HasData(v.slots[i]) ==>
              && v'.slots[i] == v.slots[i] && HasChain(l, v'.table, FirstCluster(v.slots[i]))
              && FileChain(l, v'.table, v'.slots[i]) == FileChain(l, v.table, v.slots[i])
    ensures var t' := Put(l, v, n, first, size, attr).value.table;
            first >= 2 ==> HasChain(l, t', first) && ChainOf(l, t', first) == ChainOf(l, v.table, first)
  {
    var v' := Put(l, v, n, first, size, attr).value;
    PutShape(l, v, n, first, size, attr);
    ReplacedApart(l, v, n, first);
    if first >= 2 {
      ChainKept(l, v.table, v'.table, first, Replaced(l, v, n));
    }
    forall i | 0 <= i < |v.slots| && i != PutIndex(v, n).value && HasData(v.slots[i])
      ensures v'.slots[i] == v.slots[i] && HasChain(l, v'.table, FirstCluster(v.slots[i]))
      ensures FileChain(l, v'.table, v'.slots[i]) == FileChain(l, v.table, v.slots[i])
    {
      ChainKept(l, v.table, v'.table, FirstCluster(v.slots[i]), Replaced(l, v, n));
    }
  }

  lemma ChainedUpdate(l: Layout, t: Table, t': Table, slots: seq<Slot>, idx: nat, raw: Slot)
    requires Chained(l, t, slots) && idx < |slots|
    requires forall i :: 0 <= i < |slots| && i != idx && HasData(slots[i]) ==>
               HasChain(l, t', FirstCluster(slots[i])) && FileChain(l, t', slots[i]) == FileChain(l, t, slots[i])
    requires HasData(raw) ==> HasChain(l, t', FirstCluster(raw))
    requires HasData(raw) ==> forall i :: 0 <= i < |slots| && i != idx && HasData(slots[i]) ==>
               && Disjoint(FileChain(l, t', raw), FileChain(l, t, slots[i]))
               && Disjoint(FileChain(l, t, slots[i]), FileChain(l, t', raw))
    ensures Chained(l, t', slots[idx := raw])
  {
  }

  /** After `_put_root_entry` the root files own disjoint terminated chains again. */
  lemma PutKeepsWF(l: Layout, v: Volume, n: Name83, first: nat, size: nat, attr: byte)
    requires WF(l, v) && EntryName(n) && Fresh(l, v, first) && first < 0x1_0000
    requires Put(l, v, n, first, size, attr).Placed?
    ensures WF(l, Put(l, v, n, first, size, attr).value)
  {
    hide MakeDirEntry, Put, PutIndex, Replaced, Chained, HasChain, ChainOf, FirstCluster, Disjoint, NameOf;
    PutShape(l, v, n, first, size, attr);
    PutKeepsDirectory(l, v, n, first, size, attr);
    PutKeepsChains(l, v, n, first, size, attr);
    MadeEntry(n, first, size, attr);
    ChainedUpdate(l, v.table, Put(l, v, n, first, size, attr).value.table, v.slots, PutIndex(v, n).value,
                  MakeDirEntry(n, first, size, attr));
  }

  // ---- Allocation leaves a well-formed volume ----

  lemma ClaimKeepsChain(l: Layout, v: Volume, data: seq<byte>, c: nat)
    requires CanClaim(l, v, data) && HasChain(l, v.table, c)
    ensures var v1, chain := Claim(l, v, data), ChainOf(l, v.table, c);
      && HasChain(l, v1.table, c) && ChainOf(l, v1.table, c) == chain
      && Disjoint(ClaimedChain(l, v, data), chain) && Disjoint(chain, ClaimedChain(l, v, data))
      && ChainBytes(v1.clusters, chain) == ChainBytes(v.clusters, chain)
  {
    ClaimFrame(l, v, data, ChainOf(l, v.table, c));
    ChainIsChainOf(l, Claim(l, v, data).table, ChainOf(l, v.table, c));
  }

  lemma ClaimKeepsWF(l: Layout, v: Volume, data: seq<byte>)
    requires WF(l, v) && CanClaim(l, v, data)
    ensures var v1 := Claim(l, v, data);
      && WF(l, v1) && Fresh(l, v1, ClaimedChain(l, v, data)[0])
      && forall i :: 0 <= i < |v.slots| && HasData(v.slots[i]) ==>
           FileChain(l, v1.table, v.slots[i]) == FileChain(l, v.table, v.slots[i])
  {
    var v1 := Claim(l, v, data);
    ClaimMakesChain(l, v, data);
    ClaimStoresData(l, v, data);
    forall i | 0 <= i < |v.slots| && HasData(v.slots[i])
      ensures HasChain(l, v1.table, FirstCluster(v.slots[i]))
      ensures FileChain(l, v1.table, v.slots[i]) == FileChain(l, v.table, v.slots[i])
      ensures Disjoint(ClaimedChain(l, v, data), FileChain(l, v.table, v.slots[i]))
      ensures Disjoint(FileChain(l, v.table, v.slots[i]), ClaimedChain(l, v, data))
    {
      ClaimKeepsChain(l, v, data, FirstCluster(v.slots[i]));
    }
  }

  /** Cluster numbers fit the 16-bit field and sizes the 32-bit field of an entry. */
  lemma ClaimFits(l: Layout, v: Volume, data: seq<byte>)
    requires CanClaim(l, v, data)
    ensures 2 <= ClaimedChain(l, v, data)[0] < 0x1_0000 && |data| < 0x1_0000_0000
  {
    var chain := ClaimedChain(l, v, data);
    ClaimMakesChain(l, v, data);
    assert chain[0] in chain;
    assert forall i :: 0 <= i < |chain| ==> chain[i] in chain;
    DistinctBound(chain, |v.table|);
    ClustersForCovers(|data|, l.ClusterSize());
    MulLe(|chain|, 0xFFF7, l.ClusterSize());
  }

  lemma SplitIsEntryName(name: seq<byte>)
    requires Printable(name)
    ensures EntryName(Split83(name))
  {
    SplitIsLive(name);
  }

  /** `write_file` keeps a volume well formed, whatever its outcome. */
  lemma WriteKeepsWF(l: Layout, v: Volume, name: seq<byte>, data: seq<byte>)
    requires WF(l, v) && Printable(name)
    ensures WF(l, Write(l, v, name, data).1)
  {
    var n := Split83(name);
    SplitIsEntryName(name);
    if data == [] {
      if Put(l, v, n, 0, 0, ATTR_ARCHIVE).Placed? {
        PutKeepsWF(l, v, n, 0, 0, ATTR_ARCHIVE);
      }
    } else if CanClaim(l, v, data) {
      ClaimKeepsWF(l, v, data);
      ClaimFits(l, v, data);
      var first := ClaimedChain(l, v, data)[0];
      if Put(l, Claim(l, v, data), n, first, |data|, ATTR_ARCHIVE).Placed? {
        PutKeepsWF(l, Claim(l, v, data), n, first, |data|, ATTR_ARCHIVE);
      }
    }
  }

  // ---- Reading back ----

  /** A live slot before slot k looks to `find_file` as if it had the name. */
  ghost predicate Shadowed(v: Volume, name: seq<byte>, k: nat) {
    exists j :: 0 <= j < k && j < |v.slots| && Live(v.slots[j]) && FindMatches(v.slots[j], FindTarget(name))
  }

  /** `find_file` finds the entry that was just put if and only if it splits the
      name as `_split_83` did and no slot ahead of the entry shadows it. */
  lemma PutIsFound(l: Layout, v: Volume, name: seq<byte>, first: nat, size: nat, attr: byte)
    requires WF(l, v) && Printable(name) && Put(l, v, Split83(name), first, size, attr).Placed?
    ensures PutIndex(v, Split83(name)).Some?
    ensures var v' := Put(l, v, Split83(name), first, size, attr).value;
      var raw := MakeDirEntry(Split83(name), first, size, attr);
      Find(v', name) == Some(raw) <==> Findable(name) && !Shadowed(v, name, PutIndex(v, Split83(name)).value)
  {
    hide Sized, Chained, Ended, Split83, FindTarget, MakeDirEntry, NameOf, Find, PutSlot, Findable, FindMatches;
    var n := Split83(name);
    var raw := MakeDirEntry(n, first, size, attr);
    SplitIsEntryName(name);
    PutShape(l, v, n, first, size, attr);
    FoundSlot(l, v, n, name, first, size, attr);
    MadeMatches(name, first, size, attr);
    PutSlotMeaning(v.slots, n, 0, None);
    PutIsFirst(v, n, name, PutIndex(v, n).value, raw);
  }

  /** Whether a slot that was just filled is the first one that matches a search. */
  lemma PutIsFirst(v: Volume, n: Name83, name: seq<byte>, idx: nat, raw: Slot)
    requires idx < |v.slots| && Passed(v.slots, n, idx) && Holds(raw, n)
    ensures var slots := v.slots[idx := raw];
      var k := FirstMatch(slots, FindTarget(name), 0, |slots|);
      (k < |slots| && slots[k] == raw) <==> (FindMatches(raw, FindTarget(name)) && !Shadowed(v, name, idx))
  {
    hide FindTarget, NamesMatch, FindMatches, FirstMatch;
    var slots := v.slots[idx := raw];
    var k := FirstMatch(slots, FindTarget(name), 0, |slots|);
    assert forall j :: 0 <= j < idx ==> slots[j] == v.slots[j];
    if FindMatches(raw, FindTarget(name)) && !Shadowed(v, name, idx) {
      assert slots[idx] == raw && !(idx < k);
    } else if k < idx {
      assert !Holds(v.slots[k], n);
    }
  }

  lemma FoundSlot(l: Layout, v: Volume, n: Name83, name: seq<byte>, first: nat, size: nat, attr: byte)
    requires WF(l, v) && Printable(name) && n == Split83(name) && Put(l, v, n, first, size, attr).Placed?
    ensures var v' := Put(l, v, n, first, size, attr).value;
      var k := FirstMatch(v'.slots, FindTarget(name), 0, |v'.slots|);
      Find(v', name) == if k < |v'.slots| then Some(v'.slots[k]) else None
  {
    SplitIsEntryName(name);
    PutKeepsDirectory(l, v, n, first, size, attr);
    FindInRoot(Put(l, v, n, first, size, attr).value.slots, FindTarget(name), 0);
  }

  /** The new entry holds the stored name; it is what `find_file` looks for exactly
      when the two ways of splitting agree. */
  lemma MadeMatches(name: seq<byte>, first: nat, size: nat, attr: byte)
    requires Printable(name)
    ensures var raw := MakeDirEntry(Split83(name), first, size, attr);
      Live(raw) && Holds(raw, Split83(name)) && (FindMatches(raw, FindTarget(name)) <==> Findable(name))
  {
    hide MakeDirEntry, Split83, FindTarget, NameOf;
    SplitIsEntryName(name);
    MadeEntry(Split83(name), first, size, attr);
    StripUpper(Split83(name).base);
    StripUpper(Split83(name).ext);
  }

  /** Where all names are upper case no slot shadows a new entry. */
  lemma UpperIsUnshadowed(v: Volume, name: seq<byte>)
    requires Ended(v.slots) && UpperNames(v.slots) && Findable(name) && PutIndex(v, Split83(name)).Some?
    ensures !Shadowed(v, name, PutIndex(v, Split83(name)).value)
  {
    hide Split83, FindTarget, NameOf, PutSlot;
    PutSlotMeaning(v.slots, Split83(name), 0, None);
  }

  /** "A", and the stored name "a". */
  const UPPER_A: seq<byte> := [0x41]
  const LOWER_A := Name83(LJust([0x61], 8), LJust([], 3))

  lemma UpperASplit()
    ensures Stripped(Split83(UPPER_A)) == FindTarget(UPPER_A) == Name83(UPPER_A, [])
  {
    hide LJust, RStrip;
    assert Upper(UPPER_A) == UPPER_A && FirstDot(UPPER_A) == LastDot(UPPER_A) == 1;
    StripPadding(UPPER_A, 8);
    StripPadding([], 3);
    assert RStrip(UPPER_A) == UPPER_A && RStrip([]) == [] by {
      StripShort();
    }
  }

  lemma StripShort()
    ensures RStrip(UPPER_A) == UPPER_A && RStrip([]) == [] && RStrip([0x61]) == [0x61]
  {
  }

  /** The entry of a file that was stored as "a" shadows "A": `write_file` does not
      take it for the same name, `find_file` does. */
  lemma LowerCaseShadows()
    ensures var raw := MakeDirEntry(LOWER_A, 0, 0, ATTR_ARCHIVE);
      Live(raw) && !NamesMatch(raw, Split83(UPPER_A)) && FindMatches(raw, FindTarget(UPPER_A)) && Findable(UPPER_A)
  {
    hide MakeDirEntry, Split83, FindTarget, NameOf, RStrip, LJust, FirstCluster, SizeOf;
    UpperASplit();
    MadeEntry(LOWER_A, 0, 0, ATTR_ARCHIVE);
    StripPadding([0x61], 8);
    StripPadding([], 3);
    StripShort();
    LowerAIsLive();
    assert Upper([0x61]) == UPPER_A && Upper([]) == [];
  }

  lemma LowerAIsLive()
    ensures LOWER_A.base[0] == 0x61
  {
  }

  lemma PutThenRead(l: Layout, v: Volume, name: seq<byte>, first: nat, size: nat)
    requires WF(l, v) && Printable(name) && Findable(name)
    requires 2 <= first < 0x1_0000 && size < 0x1_0000_0000 && Fresh(l, v, first)
    requires Put(l, v, Split83(name), first, size, ATTR_ARCHIVE).Placed?
    requires PutIndex(v, Split83(name)).Some? && !Shadowed(v, name, PutIndex(v, Split83(name)).value)
    ensures var v' := Put(l, v, Split83(name), first, size, ATTR_ARCHIVE).value;
            |v'.clusters| == |v'.table| && ReadByName(l, v', name) == Done(Some(Read(l, v, first, size)))
  {
    hide MakeDirEntry, Split83, FindTarget, Findable, Put, PutIndex, Replaced, Find, Read, FirstCluster, SizeOf,
         NameOf, Fresh, Chained, Ended, UpperNames;
    var n := Split83(name);
    var raw := MakeDirEntry(n, first, size, ATTR_ARCHIVE);
    var v' := Put(l, v, n, first, size, ATTR_ARCHIVE).value;
    SplitIsEntryName(name);
    assert Find(v', name) == Some(raw) by {
      PutIsFound(l, v, name, first, size, ATTR_ARCHIVE);
    }
    assert FirstCluster(raw) == first && SizeOf(raw) == size && !IsDir(raw) by {
      MadeEntry(n, first, size, ATTR_ARCHIVE);
    }
    assert |v'.table| == |v.table| && v'.clusters == v.clusters by {
      PutShape(l, v, n, first, size, ATTR_ARCHIVE);
    }
    assert HasChain(l, v'.table, first) && ChainOf(l, v'.table, first) == ChainOf(l, v.table, first) by {
      PutKeepsChains(l, v, n, first, size, ATTR_ARCHIVE);
    }
    ReadFrame(l, v, v', first, size);
    ChainIsRead(l, v', first, size);
  }

  lemma ReadFrame(l: Layout, v: Volume, v': Volume, c: nat, size: nat)
    requires |v.clusters| == |v.table| == |v'.table| && v'.clusters == v.clusters
    requires ChainOf(l, v'.table, c) == ChainOf(l, v.table, c)
    ensures Read(l, v', c, size) == Read(l, v, c, size)
  {
  }

  /** After `write_file` of non-empty data, reading the name returns the data. */
  lemma WriteThenRead(l: Layout, v: Volume, name: seq<byte>, data: seq<byte>)
    requires WF(l, v) && Printable(name) && Findable(name) && data != []
    requires Write(l, v, name, data).0.Written?
    requires PutIndex(v, Split83(name)).Some? && !Shadowed(v, name, PutIndex(v, Split83(name)).value)
    ensures var v' := Write(l, v, name, data).1;
            |v'.clusters| == |v'.table| && ReadByName(l, v', name) == Done(Some(data))
  {
    hide Put, Split83, Claim, ClaimedChain, Read, ReadByName, Findable, Fresh, Chained, Ended, PutSlot;
    var v1, chain := Claim(l, v, data), ClaimedChain(l, v, data);
    ClaimKeepsWF(l, v, data);
    ClaimFits(l, v, data);
    ClaimIsRead(l, v, data);
    PutThenRead(l, v1, name, chain[0], |data|);
  }

  lemma ClaimIsRead(l: Layout, v: Volume, data: seq<byte>)
    requires CanClaim(l, v, data)
    ensures Sized(l, Claim(l, v, data)) && Claim(l, v, data).slots == v.slots
    ensures Read(l, Claim(l, v, data), ClaimedChain(l, v, data)[0], |data|) == data
  {
    hide Claim, ClaimedChain;
    ClaimMakesChain(l, v, data);
    ClaimStoresData(l, v, data);
  }

  // ---- The slot of an entry ----

  /** The slot that `write_file` fills: that of the entry of the name, or the slot of a
      new entry when there is none. */
  ghost predicate EntrySlot(slots: seq<Slot>, n: Name83, k: nat) {
    if NoneHolds(slots, n) then NewSlot(slots, k)
    else k < |slots| && Holds(slots[k], n) && forall j :: 0 <= j < k ==> !Holds(slots[j], n)
  }

  /** There is at most one such slot, and the scan settles on it. */
  lemma PutIndexIs(l: Layout, v: Volume, n: Name83, k: nat)
    requires Ended(v.slots)
    ensures EntrySlot(v.slots, n, k) <==> PutIndex(v, n) == Some(k)
  {
    hide NameOf, Stripped, PutSlot;
    PutSlotMeaning(v.slots, n, 0, None);
    if EntrySlot(v.slots, n, k) && !NoneHolds(v.slots, n) {
      var j :| 0 <= j < |v.slots| && Holds(v.slots[j], n);
      assert Holds(v.slots[k], n);
    }
  }

  /** The directory differs in slot k only, which now holds an archive entry of the
      name, the first cluster and the size. */
  ghost predicate FilledAt(slots: seq<Slot>, slots': seq<Slot>, k: nat, n: Name83, first: nat, size: nat) {
    && k < |slots| == |slots'|
    && (forall i :: 0 <= i < |slots| && i != k ==> slots'[i] == slots[i])
    && Holds(slots'[k], n) && slots'[k][11] == 0x20 && FirstCluster(slots'[k]) == first && SizeOf(slots'[k]) == size
  }

  lemma PutFillsSlot(l: Layout, v: Volume, n: Name83, first: nat, size: nat)
    requires WF(l, v) && EntryName(n) && first < 0x1_0000 && size < 0x1_0000_0000
    requires Put(l, v, n, first, size, ATTR_ARCHIVE).Placed?
    ensures PutIndex(v, n).Some? && EntrySlot(v.slots, n, PutIndex(v, n).value)
    ensures FilledAt(v.slots, Put(l, v, n, first, size, ATTR_ARCHIVE).value.slots, PutIndex(v, n).value, n, first, size)
  {
    hide MakeDirEntry, NameOf, PutIndex, PutSlot, Put, Stripped, EntrySlot, FirstCluster, SizeOf, Chained;
    PutShape(l, v, n, first, size, ATTR_ARCHIVE);
    MadeEntry(n, first, size, ATTR_ARCHIVE);
    PutIndexIs(l, v, n, PutIndex(v, n).value);
  }

  /** What a successful `write_file` does to the directory: it fills that slot and no
      other. */
  lemma WriteFillsSlot(l: Layout, v: Volume, name: seq<byte>, data: seq<byte>)
    requires WF(l, v) && Printable(name) && Write(l, v, name, data).0.Written?
    ensures var (outcome, v') := Write(l, v, name, data);
      exists k :: EntrySlot(v.slots, Split83(name), k) &&
                  FilledAt(v.slots, v'.slots, k, Split83(name), outcome.first, |data|)
  {
    hide Split83, PutIndex, Put, EntrySlot, FilledAt, Claim, ClaimedChain, Chained, Ended, EntryName;
    var n := Split83(name);
    SplitIsEntryName(name);
    if data == [] {
      PutFillsSlot(l, v, n, 0, 0);
    } else {
      ClaimKeepsWF(l, v, data);
      ClaimFits(l, v, data);
      ClaimIsRead(l, v, data);
      PutFillsSlot(l, Claim(l, v, data), n, ClaimedChain(l, v, data)[0], |data|);
    }
  }

  // ---- Everything else is left alone ----

  lemma ClaimKeepsReplaced(l: Layout, v: Volume, n: Name83, data: seq<byte>)
    requires WF(l, v) && CanClaim(l, v, data)
    ensures Replaced(l, Claim(l, v, data), n) == Replaced(l, v, n)
  {
    ClaimKeepsWF(l, v, data);
    PutSlotMeaning(v.slots, n, 0, None);
  }

  /** Any chain on the volume that is not the replaced one, a file of a
      subdirectory for instance, keeps its links and its bytes. */
  lemma WriteKeepsChains(l: Layout, v: Volume, name: seq<byte>, data: seq<byte>, c: nat)
    requires WF(l, v) && Printable(name) && HasChain(l, v.table, c)
    requires Disjoint(Replaced(l, v, Split83(name)), ChainOf(l, v.table, c))
    ensures var v', chain := Write(l, v, name, data).1, ChainOf(l, v.table, c);
      && |v'.table| == |v.table| && |v'.clusters| == |v.clusters|
      && HasChain(l, v'.table, c) && ChainOf(l, v'.table, c) == chain
      && ChainBytes(v'.clusters, chain) == ChainBytes(v.clusters, chain)
  {
    var n, v' := Split83(name), Write(l, v, name, data).1;
    SplitIsEntryName(name);
    if data == [] {
      if Put(l, v, n, 0, 0, ATTR_ARCHIVE).Placed? {
        PutShape(l, v, n, 0, 0, ATTR_ARCHIVE);
        ChainKept(l, v.table, v'.table, c, Replaced(l, v, n));
      }
    } else if CanClaim(l, v, data) {
      var v1, first := Claim(l, v, data), ClaimedChain(l, v, data)[0];
      ClaimKeepsWF(l, v, data);
      ClaimKeepsChain(l, v, data, c);
      ClaimKeepsReplaced(l, v, n, data);
      if Put(l, v1, n, first, |data|, ATTR_ARCHIVE).Placed? {
        PutShape(l, v1, n, first, |data|, ATTR_ARCHIVE);
        ChainKept(l, v1.table, v'.table, c, Replaced(l, v, n));
      }
    }
  }

  /** Every other root file reads as before. */
  lemma WriteKeepsFiles(l: Layout, v: Volume, name: seq<byte>, data: seq<byte>, i: nat, size: nat)
    requires WF(l, v) && Printable(name) && Write(l, v, name, data).0.Written?
    requires i < |v.slots| && PutIndex(v, Split83(name)) != Some(i) && HasData(v.slots[i])
    ensures var v', c := Write(l, v, name, data).1, FirstCluster(v.slots[i]);
      && |v'.slots| == |v.slots| && v'.slots[i] == v.slots[i] && |v'.clusters| == |v'.table|
      && ChainOf(l, v'.table, c) == ChainOf(l, v.table, c)
      && Read(l, v', c, size) == Read(l, v, c, size)
  {
    hide Split83, MakeDirEntry, Release, Stored, Allocated, FirstFit, PutSlot, Releases, FirstCluster, Ended, HasChain,
         ChainOf;
    var n := Split83(name);
    SplitIsEntryName(name);
    ReplacedApart(l, v, n, 0);
    WriteKeepsChains(l, v, name, data, FirstCluster(v.slots[i]));
  }

  // ---- Failures and counting ----

  ghost predicate NoRoomInRoot(v: Volume, n: Name83) {
    AllLive(v.slots, |v.slots|) && NoneHolds(v.slots, n)
  }

  lemma PutFails(l: Layout, v: Volume, n: Name83, first: nat, size: nat, attr: byte)
    requires WF(l, v) && EntryName(n)
    ensures Put(l, v, n, first, size, attr).NoSlot? <==> NoRoomInRoot(v, n)
    ensures !Put(l, v, n, first, size, attr).NotFreed? && PutWalks(l, v, n)
  {
    hide MakeDirEntry, NameOf, Stripped, Release, Walks, Releases;
    PutSlotMeaning(v.slots, n, 0, None);
    var (idx, existing) := PutSlot(v.slots, n, 0, None);
    if existing {
      EntryWalks(l, v, idx.value);
    }
  }

  /** When `write_file` fails: too few free clusters, or no slot to put the entry
      in. The second failure is noticed late and keeps the clusters. The walk along
      the chain of a replaced entry always ends, and never fails. */
  lemma WriteOutcomes(l: Layout, v: Volume, name: seq<byte>, data: seq<byte>)
    requires WF(l, v) && Printable(name)
    ensures var (outcome, v') := Write(l, v, name, data);
      var need := ClustersFor(|data|, l.ClusterSize());
      && WriteWalks(l, v, name, data) && !outcome.BadChain?
      && (outcome.DiskFull? <==> need > FreeCount(v.table))
      && (outcome.RootFull? <==> (need <= FreeCount(v.table) && NoRoomInRoot(v, Split83(name))))
      && (outcome.DiskFull? ==> v' == v)
      && (outcome.RootFull? ==> v'.slots == v.slots && FreeCount(v'.table) == FreeCount(v.table) - need)
  {
    hide Split83, MakeDirEntry, Put, PutWalks, Chained, Ended, AllLive, NoneHolds;
    var n := Split83(name);
    SplitIsEntryName(name);
    DivModUnique(l.ClusterSize() - 1, l.ClusterSize(), 0, l.ClusterSize() - 1);
    if data == [] {
      PutFails(l, v, n, 0, 0, ATTR_ARCHIVE);
    } else if CanClaim(l, v, data) {
      ClaimKeepsWF(l, v, data);
      PutFails(l, Claim(l, v, data), n, ClaimedChain(l, v, data)[0], |data|, ATTR_ARCHIVE);
      ClaimMakesChain(l, v, data);
      FreeCountChange(v.table, Claim(l, v, data).table, ClaimedChain(l, v, data));
    }
  }

  /** The entry that slot k holds is to be replaced, and following its chain fails. */
  ghost predicate Breaks(l: Layout, v: Volume, n: Name83, k: nat) {
    EntrySlot(v.slots, n, k) && k < |v.slots| && Live(v.slots[k]) && !Releases(l, v.table, v.slots[k])
  }

  lemma PutBreaks(l: Layout, v: Volume, n: Name83, first: nat, size: nat)
    requires Ended(v.slots) && |n.base| == 8 && |n.ext| == 3
    ensures var r := Put(l, v, n, first, size, ATTR_ARCHIVE);
      (r.NoSlot? <==> NoRoomInRoot(v, n)) && (r.NotFreed? <==> exists k :: Breaks(l, v, n, k))
  {
    hide NameOf, Stripped, MakeDirEntry, Release, Releases, PutSlot, EntrySlot;
    PutSlotMeaning(v.slots, n, 0, None);
    var (idx, existing) := PutSlot(v.slots, n, 0, None);
    if k :| Breaks(l, v, n, k) {
      PutIndexIs(l, v, n, k);
    }
    if idx.Some? {
      PutIndexIs(l, v, n, idx.value);
      if existing && !Releases(l, v.table, v.slots[idx.value]) {
        assert Breaks(l, v, n, idx.value);
      }
    }
  }

  /** On a volume that is not well formed a write may also fail for the chain of the entry it
      replaces: exactly if following it does. The directory then stays as it was, and the
      clusters of the data stay taken. */
  lemma BrokenWrite(l: Layout, v: Volume, name: seq<byte>, data: seq<byte>)
    requires Sized(l, v) && Ended(v.slots) && (data == [] || CanClaim(l, v, data))
    ensures var v1, (outcome, v') := if data == [] then v else Claim(l, v, data), Write(l, v, name, data);
      && v1.slots == v.slots && !outcome.DiskFull? && (!outcome.Written? ==> v' == v1)
      && (outcome.RootFull? <==> NoRoomInRoot(v, Split83(name)))
      && (outcome.BadChain? <==> exists k :: Breaks(l, v1, Split83(name), k))
  {
    hide Split83, Put, Stored, Allocated, FirstFit, ClaimedChain, Breaks;
    var v1 := if data == [] then v else Claim(l, v, data);
    PutBreaks(l, v1, Split83(name), if data == [] then 0 else ClaimedChain(l, v, data)[0], |data|);
  }

  /** Likewise a delete, which then changes nothing. */
  lemma BrokenDelete(l: Layout, v: Volume, name: seq<byte>)
    requires Ended(v.slots)
    ensures var (result, v') := Delete(l, v, name);
      && (!result.Deleted? ==> v' == v)
      && (result.NotFound? <==> DeleteOutcome(v.slots, Split83(name), None))
      && (result.StaysLive? <==> exists k :: DeleteBreaks(l, v, Split83(name), k))
  {
    hide Split83, NameOf, Stripped, Release, Releases, IsDir, DeleteSlot;
    DeleteSlotMeaning(v.slots, Split83(name), 0);
    var found := DeleteSlot(v.slots, Split83(name), 0);
    if found.Some? && !Releases(l, v.table, v.slots[found.value]) {
      assert DeleteBreaks(l, v, Split83(name), found.value);
    }
  }

  ghost predicate DeleteBreaks(l: Layout, v: Volume, n: Name83, k: nat) {
    DeleteOutcome(v.slots, n, Some(k)) && k < |v.slots| && !Releases(l, v.table, v.slots[k])
  }

  /** The smallest volume: one root slot, which is taken, and one cluster, which is free. */
  const TINY := Layout(Fat12, 1, 1, 1, 1, 4, 1)
  const TINY_VOLUME := Volume([0xF0, 0xFFF, 0], [MakeDirEntry(LOWER_A, 0, 0, ATTR_ARCHIVE)], [[], [], Zeros(512)])

  lemma TinyIsWF()
    ensures WF(TINY, TINY_VOLUME) && FreeCount(TINY_VOLUME.table) == 1
    ensures TINY.ClusterSize() == 512
  {
    hide MakeDirEntry;
    MadeEntry(LOWER_A, 0, 0, ATTR_ARCHIVE);
    assert FreeFrom(TINY_VOLUME.table, 2) == [2];
  }

  /** `write_file` on it fails for want of a root slot, and the cluster is lost: no
      entry points to it, and it is not free any more. */
  lemma LateRootFull(b: byte)
    ensures WF(TINY, TINY_VOLUME) && FreeCount(TINY_VOLUME.table) == 1
    ensures var (outcome, v') := Write(TINY, TINY_VOLUME, UPPER_A, [b]);
      outcome.RootFull? && v'.slots == TINY_VOLUME.slots && FreeCount(v'.table) == 0
  {
    hide MakeDirEntry, Split83, WF, Write, NamesMatch, FreeCount, FindTarget;
    TinyIsWF();
    LowerCaseShadows();
    DivModUnique(512, 512, 1, 0);
    WriteOutcomes(TINY, TINY_VOLUME, UPPER_A, [b]);
  }

  /** Creating or replacing a file costs the clusters of its data and gives back
      those of the entry it replaces. */
  lemma WriteCosts(l: Layout, v: Volume, name: seq<byte>, data: seq<byte>)
    requires WF(l, v) && Printable(name) && Write(l, v, name, data).0.Written?
    ensures FreeCount(Write(l, v, name, data).1.table) ==
            FreeCount(v.table) - ClustersFor(|data|, l.ClusterSize()) + |Replaced(l, v, Split83(name))|
  {
    hide Split83, MakeDirEntry, Release, FirstCluster, Ended, Chained, Stored, Allocated, FirstFit, FreeCount;
    var n := Split83(name);
    var v' := Write(l, v, name, data).1;
    var gone := Replaced(l, v, n);
    SplitIsEntryName(name);
    if data == [] {
      DivModUnique(l.ClusterSize() - 1, l.ClusterSize(), 0, l.ClusterSize() - 1);
      PutShape(l, v, n, 0, 0, ATTR_ARCHIVE);
      ReplacedIsUsed(l, v, n);
      FreeCountChange(v'.table, v.table, gone);
    } else {
      var v1, chain := Claim(l, v, data), ClaimedChain(l, v, data);
      ClaimMakesChain(l, v, data);
      FreeCountChange(v.table, v1.table, chain);
      ClaimKeepsWF(l, v, data);
      ClaimKeepsReplaced(l, v, n, data);
      PutShape(l, v1, n, chain[0], |data|, ATTR_ARCHIVE);
      ReplacedIsUsed(l, v1, n);
      FreeCountChange(v'.table, v1.table, gone);
    }
  }

  lemma ReplacedIsUsed(l: Layout, v: Volume, n: Name83)
    requires WF(l, v)
    ensures Distinct(Replaced(l, v, n))
    ensures forall x :: x in Replaced(l, v, n) ==> 2 <= x < |v.table| && v.table[x] != 0
  {
    PutSlotMeaning(v.slots, n, 0, None);
    var gone := Replaced(l, v, n);
    if gone != [] {
      ChainIsUsed(l, v.table, gone);
      ChainIsChainOf(l, v.table, gone);
    }
  }

  // ---- Deleting ----

  /** `delete_file` keeps a volume well formed. */
  lemma DeleteKeepsWF(l: Layout, v: Volume, name: seq<byte>)
    requires WF(l, v)
    ensures WF(l, Delete(l, v, name).1)
  {
    var found := DeleteSlot(v.slots, Split83(name), 0);
    if Delete(l, v, name).0.Deleted? {
      var k := found.value;
      var v' := Delete(l, v, name).1;
      forall i | 0 <= i < |v.slots| && i != k && HasData(v.slots[i])
        ensures HasChain(l, v'.table, FirstCluster(v.slots[i]))
        ensures FileChain(l, v'.table, v.slots[i]) == FileChain(l, v.table, v.slots[i])
      {
        DeletedApart(l, v, k, i);
        ChainKept(l, v.table, v'.table, FirstCluster(v.slots[i]), OldChain(l, v, v.slots[k]));
      }
      ChainedUpdate(l, v.table, v'.table, v.slots, k, v.slots[k][0 := DELETED]);
      DeletedDirectory(v.slots, k);
    }
  }

  /** `delete_file` finds a file of that name if there is one, and then deletes it. */
  lemma DeleteOutcomes(l: Layout, v: Volume, name: seq<byte>)
    requires WF(l, v)
    ensures DeleteWalks(l, v, name) && !Delete(l, v, name).0.StaysLive?
    ensures Delete(l, v, name).0.Deleted? <==> exists i :: 0 <= i < |v.slots| && HoldsFile(v.slots[i], Split83(name))
  {
    hide Split83, NameOf, Stripped, Release, Walks, Releases, IsDir;
    var found := DeleteSlot(v.slots, Split83(name), 0);
    DeleteSlotMeaning(v.slots, Split83(name), 0);
    if found.Some? {
      EntryWalks(l, v, found.value);
    }
  }

  lemma DeletedApart(l: Layout, v: Volume, k: nat, i: nat)
    requires WF(l, v) && k < |v.slots| && i < |v.slots| && i != k && Live(v.slots[k]) && HasData(v.slots[i])
    ensures Disjoint(OldChain(l, v, v.slots[k]), FileChain(l, v.table, v.slots[i]))
  {
  }

  lemma DeletedDirectory(slots: seq<Slot>, k: nat)
    requires Ended(slots) && k < |slots| && Live(slots[k])
    ensures Ended(slots[k := slots[k][0 := DELETED]])
    ensures UpperNames(slots) ==> UpperNames(slots[k := slots[k][0 := DELETED]])
  {
  }

  lemma PutNew(l: Layout, v: Volume, n: Name83, first: nat, size: nat, attr: byte)
    requires Ended(v.slots) && NoneHolds(v.slots, n) && |n.base| == 8 && |n.ext| == 3
    requires Put(l, v, n, first, size, attr).Placed?
    ensures PutIndex(v, n).Some? && !Live(v.slots[PutIndex(v, n).value]) && Passed(v.slots, n, PutIndex(v, n).value)
    ensures Put(l, v, n, first, size, attr).value ==
            v.(slots := v.slots[PutIndex(v, n).value := MakeDirEntry(n, first, size, attr)])
  {
    hide MakeDirEntry;
    PutSlotMeaning(v.slots, n, 0, None);
  }

  lemma NewIsDeletable(slots: seq<Slot>, n: Name83, idx: nat, raw: Slot)
    requires idx < |slots| && Passed(slots, n, idx) && Holds(raw, n) && !IsDir(raw)
    ensures DeleteSlot(slots[idx := raw], n, 0) == Some(idx)
  {
    DeleteFinds(slots[idx := raw], n, 0, idx);
  }

  lemma {:induction false} DeleteFinds(slots: seq<Slot>, n: Name83, i: nat, k: nat)
    requires i <= k < |slots| && HoldsFile(slots[k], n)
    requires forall j :: i <= j < k ==> slots[j][0] != END_MARK && !HoldsFile(slots[j], n)
    ensures DeleteSlot(slots, n, i) == Some(k)
    decreases k - i
  {
    hide NameOf, Stripped, IsDir;
    if i < k {
      DeleteFinds(slots, n, i + 1, k);
    }
  }

  lemma CreatedRaw(l: Layout, v: Volume, name: seq<byte>, data: seq<byte>)
    requires CanClaim(l, v, data) && Printable(name)
    ensures var chain := ClaimedChain(l, v, data);
      var raw := MakeDirEntry(Split83(name), chain[0], |data|, ATTR_ARCHIVE);
      FirstCluster(raw) == chain[0] && !IsDir(raw) && Holds(raw, Split83(name))
  {
    hide MakeDirEntry, Split83, ClaimedChain, FirstCluster, SizeOf, NameOf, Stripped;
    var n, chain := Split83(name), ClaimedChain(l, v, data);
    var raw := MakeDirEntry(n, chain[0], |data|, ATTR_ARCHIVE);
    ClaimFits(l, v, data);
    SplitIsEntryName(name);
    MadeEntry(n, chain[0], |data|, ATTR_ARCHIVE);
  }

  /** The entry of a file just created: a slot that was not live now holds the
      claimed chain, and it is the one `delete_file` picks. */
  lemma CreatedEntry(l: Layout, v: Volume, name: seq<byte>, data: seq<byte>)
    requires WF(l, v) && Printable(name) && data != [] && NoneHolds(v.slots, Split83(name))
    requires Write(l, v, name, data).0.Written?
    ensures var v', v1, chain := Write(l, v, name, data).1, Claim(l, v, data), ClaimedChain(l, v, data);
      var raw := MakeDirEntry(Split83(name), chain[0], |data|, ATTR_ARCHIVE);
      && PutIndex(v, Split83(name)).Some?
      && var idx := PutIndex(v, Split83(name)).value;
      && idx < |v.slots| && !Live(v.slots[idx]) && v' == v1.(slots := v.slots[idx := raw])
      && FirstCluster(v'.slots[idx]) == chain[0] && DeleteSlot(v'.slots, Split83(name), 0) == Some(idx)
  {
    hide MakeDirEntry, FirstCluster, IsDir, Holds, DeleteSlot, PutSlot, Split83, NameOf;
    var n, v1, chain := Split83(name), Claim(l, v, data), ClaimedChain(l, v, data);
    var raw := MakeDirEntry(n, chain[0], |data|, ATTR_ARCHIVE);
    CreatedRaw(l, v, name, data);
    PutNew(l, v1, n, chain[0], |data|, ATTR_ARCHIVE);
    NewIsDeletable(v.slots, n, PutIndex(v, n).value, raw);
  }

  /** Releasing the claimed chain undoes the claim. */
  lemma ReleaseClaimed(l: Layout, v: Volume, data: seq<byte>, v': Volume, raw: Slot)
    requires CanClaim(l, v, data) && v'.table == Claim(l, v, data).table
    requires FirstCluster(raw) == ClaimedChain(l, v, data)[0]
    ensures Release(l, v', raw) == v.table && Releases(l, v'.table, raw)
  {
    ClaimMakesChain(l, v, data);
    var chain := ClaimedChain(l, v, data);
    assert chain[0] in chain;
    assert OldChain(l, v', raw) == chain;
    ChainIsChainOf(l, v'.table, chain);
  }

  /** Creating a new non-empty file and deleting it again restores every FAT
      entry and the free count, leaves every slot but the one it used alone
      (that one was not live and is not live now), and keeps the bytes of every
      cluster in use. */
  lemma WriteThenDelete(l: Layout, v: Volume, name: seq<byte>, data: seq<byte>)
    requires WF(l, v) && Printable(name) && data != [] && NoneHolds(v.slots, Split83(name))
    requires Write(l, v, name, data).0.Written?
    ensures var (result, v'') := Delete(l, Write(l, v, name, data).1, name);
      && result.Deleted? && v''.table == v.table && |v''.slots| == |v.slots| && |v''.clusters| == |v.clusters|
      && (forall i :: 0 <= i < |v.slots| && PutIndex(v, Split83(name)) != Some(i) ==> v''.slots[i] == v.slots[i])
      && (forall i :: 0 <= i < |v.slots| && PutIndex(v, Split83(name)) == Some(i) ==>
            !Live(v''.slots[i]) && !Live(v.slots[i]))
      && (forall c :: 0 <= c < |v.table| && v.table[c] != 0 ==> v''.clusters[c] == v.clusters[c])
  {
    hide MakeDirEntry, Split83, NameOf, DeleteSlot, Claim, ClaimedChain, PutIndex, Release, FirstCluster, PutSlot;
    assert CanClaim(l, v, data);
    var v' := Write(l, v, name, data).1;
    CreatedEntry(l, v, name, data);
    ReleaseClaimed(l, v, data, v', v'.slots[PutIndex(v, Split83(name)).value]);
    ClaimStoresData(l, v, data);
    ClaimMakesChain(l, v, data);
  }
}
