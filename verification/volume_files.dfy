/** What the root directory means to its users: a map from 8.3 names to bytes. */
module VolumeFiles {
  import opened Bytes
  import opened FatLayout
  import opened FatTable
  import opened DosNames
  import opened Volumes
  import opened VolumeOps
  import opened VolumeTheorems
  import opened VolumeRuns

  predicate IsFile(raw: Slot) {
    Live(raw) && !IsDir(raw)
  }

  ghost predicate UniqueNames(slots: seq<Slot>) {
    forall i, j :: 0 <= i < j < |slots| && Live(slots[i]) && Live(slots[j]) ==> NameOf(slots[i]) != NameOf(slots[j])
  }

  /** An entry without a chain has size zero. */
  ghost predicate NoStray(slots: seq<Slot>) {
    forall i :: 0 <= i < |slots| && Live(slots[i]) && FirstCluster(slots[i]) < 2 ==> SizeOf(slots[i]) == 0
  }

  /** A directory as `write_file` makes it. */
  ghost predicate Tidy(slots: seq<Slot>) {
    UniqueNames(slots) && UpperNames(slots) && NoStray(slots)
  }

  ghost function FileNames(slots: seq<Slot>): set<Name83> {
    set i: nat | i < |slots| && IsFile(slots[i]) :: NameOf(slots[i])
  }

  ghost function FileSlot(slots: seq<Slot>, n: Name83): (k: nat)
    requires n in FileNames(slots)
    ensures k < |slots| && IsFile(slots[k]) && NameOf(slots[k]) == n
  {
    var k: nat :| k < |slots| && IsFile(slots[k]) && NameOf(slots[k]) == n;
    k
  }

  ghost function Content(l: Layout, v: Volume, raw: Slot): seq<byte>
    requires |v.clusters| == |v.table|
  {
    if HasData(raw) then Read(l, v, FirstCluster(raw), SizeOf(raw)) else []
  }

  /** The root files: every stored name with its bytes. */
  ghost function Files(l: Layout, v: Volume): map<Name83, seq<byte>>
    requires |v.clusters| == |v.table|
  {
    map n | n in FileNames(v.slots) :: Content(l, v, v.slots[FileSlot(v.slots, n)])
  }

  /** The name under which a file is stored. */
  function Key(name: seq<byte>): Name83 {
    Stripped(Split83(name))
  }

  lemma FileAt(l: Layout, v: Volume, i: nat)
    requires |v.clusters| == |v.table| && UniqueNames(v.slots) && i < |v.slots| && IsFile(v.slots[i])
    ensures NameOf(v.slots[i]) in Files(l, v) && Files(l, v)[NameOf(v.slots[i])] == Content(l, v, v.slots[i])
  {
    hide NameOf, IsDir, Content;
    var n := NameOf(v.slots[i]);
    assert n in FileNames(v.slots);
    assert FileSlot(v.slots, n) == i;
  }

  /** Files outside slot k keep their bytes. */
  ghost predicate SameElsewhere(l: Layout, v: Volume, v': Volume, k: nat)
    requires |v.clusters| == |v.table| && |v'.clusters| == |v'.table|
  {
    forall i :: 0 <= i < |v.slots| && i != k && IsFile(v.slots[i]) ==>
      Content(l, v', v.slots[i]) == Content(l, v, v.slots[i])
  }

  lemma FilesSame(l: Layout, v: Volume, v': Volume)
    requires |v.clusters| == |v.table| && |v'.clusters| == |v'.table|
    requires v'.slots == v.slots && SameElsewhere(l, v, v', |v.slots|)
    ensures Files(l, v') == Files(l, v)
  {
    hide NameOf, IsDir, Content;
  }

  /** A name that is not the name of slot k, before or after. */
  lemma OtherName(l: Layout, v: Volume, v': Volume, k: nat, n: Name83)
    requires |v.clusters| == |v.table| && |v'.clusters| == |v'.table| && k < |v.slots| == |v'.slots|
    requires UniqueNames(v.slots) && UniqueNames(v'.slots)
    requires v'.slots == v.slots[k := v'.slots[k]] && SameElsewhere(l, v, v', k)
    requires IsFile(v.slots[k]) ==> NameOf(v.slots[k]) != n
    requires IsFile(v'.slots[k]) ==> NameOf(v'.slots[k]) != n
    ensures n in Files(l, v') <==> n in Files(l, v)
    ensures n in Files(l, v) ==> Files(l, v')[n] == Files(l, v)[n]
  {
    hide NameOf, IsDir, Content, UniqueNames, IsFile;
    if n in Files(l, v) {
      FileAt(l, v', FileSlot(v.slots, n));
    }
    if n in Files(l, v') {
      FileAt(l, v, FileSlot(v'.slots, n));
    }
  }

  /** One slot gets a file: that name maps to its bytes, and no other name changes. */
  lemma FilesUpdated(l: Layout, v: Volume, v': Volume, k: nat, raw: Slot)
    requires |v.clusters| == |v.table| && |v'.clusters| == |v'.table| && k < |v.slots|
    requires UniqueNames(v.slots) && UniqueNames(v'.slots)
    requires v'.slots == v.slots[k := raw] && IsFile(raw) && SameElsewhere(l, v, v', k)
    requires Live(v.slots[k]) ==> NameOf(v.slots[k]) == NameOf(raw)
    ensures Files(l, v') == Files(l, v)[NameOf(raw) := Content(l, v', raw)]
  {
    hide NameOf, IsDir, Content, UniqueNames, SameElsewhere, Files;
    FileAt(l, v', k);
    forall n | n != NameOf(raw)
      ensures n in Files(l, v') <==> n in Files(l, v)
      ensures n in Files(l, v) ==> Files(l, v')[n] == Files(l, v)[n]
    {
      OtherName(l, v, v', k, n);
    }
  }

  /** One file is marked deleted: its name goes, and no other name changes. */
  lemma FilesRemoved(l: Layout, v: Volume, v': Volume, k: nat)
    requires |v.clusters| == |v.table| && |v'.clusters| == |v'.table| && k < |v.slots| == |v'.slots|
    requires UniqueNames(v.slots) && UniqueNames(v'.slots)
    requires v'.slots == v.slots[k := v'.slots[k]] && !Live(v'.slots[k]) && IsFile(v.slots[k])
    requires SameElsewhere(l, v, v', k)
    ensures Files(l, v') == Files(l, v) - {NameOf(v.slots[k])}
  {
    hide NameOf, IsDir, Content, SameElsewhere, Files;
    var gone := NameOf(v.slots[k]);
    NotThere(l, v, v', k, gone);
    forall n | n != gone
      ensures n in Files(l, v') <==> n in Files(l, v)
      ensures n in Files(l, v) ==> Files(l, v')[n] == Files(l, v)[n]
    {
      OtherName(l, v, v', k, n);
    }
  }

  lemma NotThere(l: Layout, v: Volume, v': Volume, k: nat, n: Name83)
    requires |v'.clusters| == |v'.table| && k < |v.slots| == |v'.slots| && UniqueNames(v.slots)
    requires v'.slots == v.slots[k := v'.slots[k]] && !Live(v'.slots[k]) && Live(v.slots[k]) && NameOf(v.slots[k]) == n
    ensures n !in Files(l, v')
  {
    hide NameOf, IsDir, Content;
  }

  // ---- Writing ----

  lemma PutKeepsUnique(slots: seq<Slot>, n: Name83, raw: Slot)
    requires Ended(slots) && UniqueNames(slots) && PutSlot(slots, n, 0, None).0.Some? && Holds(raw, n)
    ensures UniqueNames(slots[PutSlot(slots, n, 0, None).0.value := raw])
    ensures var k := PutSlot(slots, n, 0, None).0.value; Live(slots[k]) ==> NameOf(slots[k]) == NameOf(raw)
  {
    hide NameOf, Stripped, PutSlot;
    PutSlotMeaning(slots, n, 0, None);
  }

  lemma MadeFile(name: seq<byte>, first: nat, size: nat)
    requires Printable(name) && first < 0x1_0000 && size < 0x1_0000_0000
    ensures var raw := MakeDirEntry(Split83(name), first, size, ATTR_ARCHIVE);
      IsFile(raw) && Holds(raw, Split83(name)) && FirstCluster(raw) == first && SizeOf(raw) == size
  {
    hide MakeDirEntry, Split83, NameOf, Stripped, FirstCluster, SizeOf, IsDir, Holds, Findable, FindMatches, Live;
    MadeMatches(name, first, size, ATTR_ARCHIVE);
    MadeEntry(Split83(name), first, size, ATTR_ARCHIVE);
    ArchiveIsNoDir(MakeDirEntry(Split83(name), first, size, ATTR_ARCHIVE));
  }

  lemma ArchiveIsNoDir(raw: Slot)
    requires raw[11] == ATTR_ARCHIVE
    ensures !IsDir(raw)
  {
  }

  /** One slot of v' got a file of that name with those bytes. */
  ghost predicate GotFile(l: Layout, v: Volume, v': Volume, k: Option<nat>, n: Name83, data: seq<byte>) {
    && |v'.clusters| == |v'.table| && k.Some? && k.value < |v.slots| == |v'.slots|
    && v'.slots == v.slots[k.value := v'.slots[k.value]]
    && Holds(v'.slots[k.value], n) && IsFile(v'.slots[k.value])
    && Content(l, v', v'.slots[k.value]) == data
    && (FirstCluster(v'.slots[k.value]) < 2 ==> SizeOf(v'.slots[k.value]) == 0)
  }

  /** The entry and the bytes of a file that was just written. */
  lemma WrittenFile(l: Layout, v: Volume, name: seq<byte>, data: seq<byte>)
    requires WF(l, v) && Printable(name) && Write(l, v, name, data).0.Written?
    ensures GotFile(l, v, Write(l, v, name, data).1, PutIndex(v, Split83(name)), Split83(name), data)
  {
    hide Split83, NameOf, MakeDirEntry, PutIndex, Put, FirstCluster, SizeOf, Read, IsFile, Holds, Chained, Ended;
    SplitIsEntryName(name);
    if data == [] {
      MadeFile(name, 0, 0);
      PutShape(l, v, Split83(name), 0, 0, ATTR_ARCHIVE);
    } else {
      hide GotFile;
      DataWritten(l, v, name, data);
    }
  }

  lemma DataWritten(l: Layout, v: Volume, name: seq<byte>, data: seq<byte>)
    requires WF(l, v) && Printable(name) && data != [] && Write(l, v, name, data).0.Written?
    ensures GotFile(l, v, Write(l, v, name, data).1, PutIndex(v, Split83(name)), Split83(name), data)
  {
    hide Split83, NameOf, MakeDirEntry, PutIndex, Put, FirstCluster, SizeOf, Read, IsDir, Holds, Chained, Ended, Claim,
         ClaimedChain, Fresh;
    var n, v1, first := Split83(name), Claim(l, v, data), ClaimedChain(l, v, data)[0];
    SplitIsEntryName(name);
    ClaimKeepsWF(l, v, data);
    ClaimFits(l, v, data);
    ClaimStoresData(l, v, data);
    MadeFile(name, first, |data|);
    PutShape(l, v1, n, first, |data|, ATTR_ARCHIVE);
    SameIndex(v, v1, n);
    WrittenBytes(l, v, name, data);
  }

  lemma SameIndex(v: Volume, v1: Volume, n: Name83)
    requires v1.slots == v.slots
    ensures PutIndex(v1, n) == PutIndex(v, n)
  {
  }

  lemma WrittenBytes(l: Layout, v: Volume, name: seq<byte>, data: seq<byte>)
    requires WF(l, v) && Printable(name) && data != [] && Write(l, v, name, data).0.Written?
    ensures var v' := Write(l, v, name, data).1;
      |v'.clusters| == |v'.table| && Read(l, v', ClaimedChain(l, v, data)[0], |data|) == data
  {
    hide Split83, MakeDirEntry, PutSlot, Release, FirstCluster, Fresh, Chained, Ended, ChainOf;
    var n, v1, first := Split83(name), Claim(l, v, data), ClaimedChain(l, v, data)[0];
    SplitIsEntryName(name);
    ClaimKeepsWF(l, v, data);
    ClaimFits(l, v, data);
    PutShape(l, v1, n, first, |data|, ATTR_ARCHIVE);
    PutKeepsChains(l, v1, n, first, |data|, ATTR_ARCHIVE);
    ClaimMakesChain(l, v, data);
    ClaimStoresData(l, v, data);
  }

  lemma OthersKept(l: Layout, v: Volume, name: seq<byte>, data: seq<byte>)
    requires WF(l, v) && Printable(name)
    ensures var (outcome, v') := Write(l, v, name, data);
      && |v'.clusters| == |v'.table|
      && (outcome.Written? ==>
            PutIndex(v, Split83(name)).Some? && SameElsewhere(l, v, v', PutIndex(v, Split83(name)).value))
      && (!outcome.Written? ==> v'.slots == v.slots && SameElsewhere(l, v, v', |v.slots|))
  {
    hide Split83, NameOf, MakeDirEntry, PutSlot, Release, FirstCluster, SizeOf, Chained, Ended, ChainOf, IsDir,
         PutIndex;
    WriteKeepsWF(l, v, name, data);
    var (outcome, v') := Write(l, v, name, data);
    if outcome.Written? {
      WrittenFile(l, v, name, data);
    }
    forall i | 0 <= i < |v.slots| && HasData(v.slots[i]) && PutIndex(v, Split83(name)) != Some(i) && outcome.Written?
      ensures Content(l, v', v.slots[i]) == Content(l, v, v.slots[i])
    {
      WriteKeepsFiles(l, v, name, data, i, SizeOf(v.slots[i]));
    }
    if !outcome.Written? && CanClaim(l, v, data) {
      forall i | 0 <= i < |v.slots| && HasData(v.slots[i])
        ensures Content(l, v', v.slots[i]) == Content(l, v, v.slots[i])
      {
        WFChain(l, v, i);
        ClaimKeepsChain(l, v, data, FirstCluster(v.slots[i]));
      }
    }
  }

  lemma WFChain(l: Layout, v: Volume, i: nat)
    requires WF(l, v) && i < |v.slots| && HasData(v.slots[i])
    ensures HasChain(l, v.table, FirstCluster(v.slots[i]))
  {
  }

  /** A write that succeeds maps the stored name to the data and changes no other
      name; one that fails changes none. */
  lemma WriteIsUpdate(l: Layout, v: Volume, name: seq<byte>, data: seq<byte>)
    requires WF(l, v) && UniqueNames(v.slots) && Printable(name)
    ensures var (outcome, v') := Write(l, v, name, data);
      && UniqueNames(v'.slots) && (Tidy(v.slots) ==> Tidy(v'.slots)) && |v'.clusters| == |v'.table|
      && Files(l, v') == if outcome.Written? then Files(l, v)[Key(name) := data] else Files(l, v)
  {
    hide Split83, NameOf, Stripped, MakeDirEntry, PutSlot, FirstCluster, SizeOf, Write, IsDir, Chained, Content,
         SameElsewhere;
    var (outcome, v') := Write(l, v, name, data);
    OthersKept(l, v, name, data);
    if outcome.Written? {
      var k := PutIndex(v, Split83(name)).value;
      WrittenFile(l, v, name, data);
      PutKeepsUnique(v.slots, Split83(name), v'.slots[k]);
      FilesUpdated(l, v, v', k, v'.slots[k]);
      WrittenIsUpper(name, v'.slots[k]);
    } else {
      FilesSame(l, v, v');
    }
  }

  lemma WrittenIsUpper(name: seq<byte>, raw: Slot)
    requires Printable(name) && Holds(raw, Split83(name))
    ensures Upper(NameOf(raw).base) == NameOf(raw).base && Upper(NameOf(raw).ext) == NameOf(raw).ext
  {
    hide Split83, NameOf;
    SplitIsEntryName(name);
    StripUpper(Split83(name).base);
    StripUpper(Split83(name).ext);
  }

  // ---- Deleting ----

  lemma DeletedIsTidy(slots: seq<Slot>, k: nat)
    requires k < |slots|
    ensures UniqueNames(slots) ==> UniqueNames(slots[k := slots[k][0 := DELETED]])
    ensures Tidy(slots) ==> Tidy(slots[k := slots[k][0 := DELETED]])
  {
    hide NameOf, FirstCluster, SizeOf;
  }

  /** A delete removes the name; it succeeds if and only if there was one. */
  lemma DeleteIsRemoval(l: Layout, v: Volume, name: seq<byte>)
    requires WF(l, v) && UniqueNames(v.slots)
    ensures var (result, v') := Delete(l, v, name);
      && UniqueNames(v'.slots) && (Tidy(v.slots) ==> Tidy(v'.slots)) && |v'.clusters| == |v'.table|
      && (result.Deleted? <==> Key(name) in Files(l, v))
      && Files(l, v') == Files(l, v) - {Key(name)}
  {
    hide Split83, NameOf, Stripped, FirstCluster, IsDir, Chained, Content, DeleteSlot, Release, Releases, UniqueNames,
         Tidy, Ended;
    var (result, v') := Delete(l, v, name);
    DeleteOutcomes(l, v, name);
    if result.Deleted? {
      var k := DeleteSlot(v.slots, Split83(name), 0).value;
      forall i | 0 <= i < |v.slots| && i != k && IsFile(v.slots[i])
        ensures Content(l, v', v.slots[i]) == Content(l, v, v.slots[i])
      {
        DeleteKeepsContent(l, v, name, k, i);
      }
      FileAt(l, v, k);
      DeletedIsTidy(v.slots, k);
      FilesRemoved(l, v, v', k);
    }
  }

  lemma DeleteKeepsContent(l: Layout, v: Volume, name: seq<byte>, k: nat, i: nat)
    requires WF(l, v) && Delete(l, v, name).0.Deleted? && DeleteSlot(v.slots, Split83(name), 0) == Some(k)
    requires i < |v.slots| && i != k
    ensures var v' := Delete(l, v, name).1;
      |v'.clusters| == |v'.table| && Content(l, v', v.slots[i]) == Content(l, v, v.slots[i])
  {
    hide Split83, NameOf, FirstCluster, SizeOf, IsDir, Release;
    if HasData(v.slots[i]) {
      DeletedApart(l, v, k, i);
      ChainKept(l, v.table, Delete(l, v, name).1.table, FirstCluster(v.slots[i]), OldChain(l, v, v.slots[k]));
    }
  }

  // ---- Reading ----

  /** The name is found at a file without a chain, whose first cluster, taken for a
      link, does not lead to the end of a chain. */
  ghost predicate NotFollowed(l: Layout, v: Volume, name: seq<byte>) {
    var found := Find(v, name);
    && found.Some? && !IsDir(found.value) && FirstCluster(found.value) < 2
    && !Followable(l, v.table, FirstCluster(found.value))
  }

  ghost function Lookup(l: Layout, v: Volume, n: Name83): Option<seq<byte>>
    requires |v.clusters| == |v.table|
  {
    if n in Files(l, v) then Some(Files(l, v)[n]) else None
  }

  /** In a tidy directory reading a name looks it up in the map, for every name that
      `find_file` splits as `write_file` does, unless the entry found is a file without
      a chain and the walk from its first cluster fails: then so does reading. */
  lemma ReadIsLookup(l: Layout, v: Volume, name: seq<byte>)
    requires WF(l, v) && Tidy(v.slots) && Findable(name)
    ensures !NotFollowed(l, v, name) ==> ReadByName(l, v, name) == Done(Lookup(l, v, Key(name)))
    ensures NotFollowed(l, v, name) ==> ReadByName(l, v, name).Raised? || ReadByName(l, v, name).Endless?
  {
    hide Split83, NameOf, Stripped, FindTarget, FirstCluster, SizeOf, IsDir, Chained, ParseRoot, Read, ReadAt, Ended;
    var target := FindTarget(name);
    FindInRoot(v.slots, target, 0);
    var k := FirstMatch(v.slots, target, 0, |v.slots|);
    if k < |v.slots| {
      assert NameOf(v.slots[k]) == target;
      if IsFile(v.slots[k]) {
        FileAt(l, v, k);
        EntryRead(l, v, k);
      }
    }
  }

  /** How the file in slot k is read: along its chain, or along no chain. */
  lemma EntryRead(l: Layout, v: Volume, k: nat)
    requires WF(l, v) && NoStray(v.slots) && k < |v.slots| && IsFile(v.slots[k])
    ensures var raw := v.slots[k];
      var r := ReadAt(l, v, FirstCluster(raw), SizeOf(raw));
      if FirstCluster(raw) < 2 && !Followable(l, v.table, FirstCluster(raw)) then r.Raised? || r.Endless?
      else r == Done(Content(l, v, raw))
  {
    hide NameOf, FirstCluster, SizeOf, IsDir, Read, Ended;
    if FirstCluster(v.slots[k]) >= 2 {
      WFChain(l, v, k);
      ChainIsRead(l, v, FirstCluster(v.slots[k]), SizeOf(v.slots[k]));
    }
  }

  /** What is deleted is not found, and what is written is read, except that an empty
      file is read if and only if following "cluster 0" returns. */
  lemma WrittenAndDeleted(l: Layout, v: Volume, name: seq<byte>, data: seq<byte>)
    requires WF(l, v) && Tidy(v.slots) && Printable(name) && Findable(name)
    ensures var (outcome, v') := Write(l, v, name, data);
      && |v'.clusters| == |v'.table|
      && (outcome.Written? && data != [] ==> ReadByName(l, v', name) == Done(Some(data)))
      && (outcome.Written? && data == [] ==>
            && (ReadByName(l, v', name) == Done(Some([])) <==> Followable(l, v'.table, 0))
            && (ReadByName(l, v', name) == Endless <==> !Halts(v'.table, l.kind.Bad(), 0)))
    ensures var v' := Delete(l, v, name).1; |v'.clusters| == |v'.table| && ReadByName(l, v', name) == Done(None)
  {
    hide Write, Delete, ReadByName, Key, Chained, Ended, Tidy, UniqueNames, Followable;
    TidyIsUnique(v.slots);
    WriteKeepsWF(l, v, name, data);
    if Write(l, v, name, data).0.Written? {
      if data != [] {
        TidyIsUnshadowed(v, name, data, l);
        WriteThenRead(l, v, name, data);
      } else {
        EmptyIsWritten(l, v, name);
      }
    }
    DeletedIsGone(l, v, name);
  }

  lemma TidyIsUnshadowed(v: Volume, name: seq<byte>, data: seq<byte>, l: Layout)
    requires WF(l, v) && Tidy(v.slots) && Printable(name) && Findable(name) && Write(l, v, name, data).0.Written?
    ensures PutIndex(v, Split83(name)).Some? && !Shadowed(v, name, PutIndex(v, Split83(name)).value)
  {
    hide Split83, NameOf, Chained, Findable, Shadowed;
    WrittenFile(l, v, name, data);
    UpperIsUnshadowed(v, name);
  }

  /** The entry of an empty file has first cluster 0, and that is where reading starts. */
  lemma EmptyIsWritten(l: Layout, v: Volume, name: seq<byte>)
    requires WF(l, v) && Tidy(v.slots) && Printable(name) && Findable(name) && Write(l, v, name, []).0.Written?
    ensures var v' := Write(l, v, name, []).1;
      && |v'.clusters| == |v'.table|
      && (ReadByName(l, v', name) == Done(Some([])) <==> Followable(l, v'.table, 0))
      && (ReadByName(l, v', name) == Endless <==> !Halts(v'.table, l.kind.Bad(), 0))
  {
    hide Split83, NameOf, Chained, Ended, Findable, Shadowed, MakeDirEntry, Find, Followable, FirstCluster, SizeOf,
         Release, PutSlot, Tidy, PutIndex;
    WriteKeepsWF(l, v, name, []);
    TidyIsUnshadowed(v, name, [], l);
    PutIsFound(l, v, name, 0, 0, ATTR_ARCHIVE);
    MadeFile(name, 0, 0);
    FollowableHalts(l, Write(l, v, name, []).1.table, 0);
  }

  lemma FollowableHalts(l: Layout, t: Table, c: nat)
    ensures Followable(l, t, c) ==> Halts(t, l.kind.Bad(), c)
  {
  }

  lemma DeletedIsGone(l: Layout, v: Volume, name: seq<byte>)
    requires WF(l, v) && Tidy(v.slots) && Findable(name)
    ensures var v' := Delete(l, v, name).1; |v'.clusters| == |v'.table| && ReadByName(l, v', name) == Done(None)
  {
    hide Delete, ReadByName, Key, Chained, Ended, Tidy, UniqueNames, NotFollowed;
    TidyIsUnique(v.slots);
    DeleteKeepsWF(l, v, name);
    DeleteIsRemoval(l, v, name);
    ReadIsLookup(l, Delete(l, v, name).1, name);
    NotInFiles(l, Delete(l, v, name).1, name);
  }

  /** A name that is not in the map is found at no file. */
  lemma NotInFiles(l: Layout, v: Volume, name: seq<byte>)
    requires WF(l, v) && Tidy(v.slots) && Findable(name) && Key(name) !in Files(l, v)
    ensures !NotFollowed(l, v, name)
  {
    hide Split83, NameOf, Stripped, FindTarget, FirstCluster, SizeOf, IsDir, Chained, ParseRoot, Followable, Ended;
    FindInRoot(v.slots, FindTarget(name), 0);
    var k := FirstMatch(v.slots, FindTarget(name), 0, |v.slots|);
    if k < |v.slots| {
      NoFileThere(l, v, k, Key(name));
    }
  }

  lemma NoFileThere(l: Layout, v: Volume, k: nat, n: Name83)
    requires |v.clusters| == |v.table| && n !in Files(l, v) && k < |v.slots| && NameOf(v.slots[k]) == n
    ensures !IsFile(v.slots[k])
  {
    hide NameOf, IsDir, Content;
  }

  lemma TidyIsUnique(slots: seq<Slot>)
    requires Tidy(slots)
    ensures UniqueNames(slots)
  {
  }

  // ---- Whole runs ----

  /** What one operation does to the map of files. */
  ghost function Effect(files: map<Name83, seq<byte>>, op: Op, ok: bool): map<Name83, seq<byte>> {
    match op
    case WriteOp(name, data) => if ok then files[Key(name) := data] else files
    case DeleteOp(name) => files - {Key(name)}
    case _ => files
  }

  ghost function Replayed(files: map<Name83, seq<byte>>, ops: seq<Op>, ok: seq<bool>): map<Name83, seq<byte>>
    requires |ok| == |ops|
    decreases |ops|
  {
    if ops == [] then files else Replayed(Effect(files, ops[0], ok[0]), ops[1..], ok[1..])
  }

  lemma ApplyIsEffect(l: Layout, v: Volume, op: Op)
    requires WF(l, v) && UniqueNames(v.slots) && Permitted(l, v, op)
    ensures var (ok, v') := Apply(l, v, op);
      && UniqueNames(v'.slots) && (Tidy(v.slots) ==> Tidy(v'.slots)) && |v'.clusters| == |v'.table|
      && Files(l, v') == Effect(Files(l, v), op, ok)
  {
    hide Write, Delete, Key, Chained, Ended, UniqueNames, Tidy, HasData;
    match op
    case WriteOp(name, data) => WriteIsUpdate(l, v, name, data);
    case DeleteOp(name) => DeleteIsRemoval(l, v, name);
    case _ =>
      TableOpShape(l, v, op);
      FilesSame(l, v, Apply(l, v, op).1);
  }

  /** A run does to the map of files what its operations do in turn. */
  lemma {:induction false} RunIsReplay(l: Layout, v: Volume, ops: seq<Op>)
    requires WF(l, v) && UniqueNames(v.slots) && AllPermitted(l, v, ops)
    ensures var (ok, r) := Run(l, v, ops);
      && UniqueNames(r.slots) && (Tidy(v.slots) ==> Tidy(r.slots))
      && Files(l, r) == Replayed(Files(l, v), ops, ok)
    decreases |ops|
  {
    hide Apply, Permitted, Files, Effect, UniqueNames, Tidy, Chained, Ended;
    if ops != [] {
      ApplyKeepsWF(l, v, ops[0]);
      ApplyIsEffect(l, v, ops[0]);
      RunIsReplay(l, Apply(l, v, ops[0]).1, ops[1..]);
    }
  }

  ghost predicate Names(op: Op, n: Name83) {
    (op.WriteOp? || op.DeleteOp?) && Key(op.name) == n
  }

  lemma {:induction false} ReplayKeeps(files: map<Name83, seq<byte>>, ops: seq<Op>, ok: seq<bool>, n: Name83)
    requires |ok| == |ops| && forall j :: 0 <= j < |ops| ==> !Names(ops[j], n)
    ensures n in Replayed(files, ops, ok) <==> n in files
    ensures n in files ==> Replayed(files, ops, ok)[n] == files[n]
    decreases |ops|
  {
    hide Key;
    if ops != [] {
      ReplayKeeps(Effect(files, ops[0], ok[0]), ops[1..], ok[1..], n);
    }
  }

  /** The last operation on a name decides: after a write that succeeded the name
      holds its data, after a delete it is gone, whatever came before. */
  lemma {:induction false} LastDecides(files: map<Name83, seq<byte>>, ops: seq<Op>, ok: seq<bool>, i: nat)
    requires |ok| == |ops| && i < |ops| && (ops[i].DeleteOp? || (ops[i].WriteOp? && ok[i]))
    requires forall j :: i < j < |ops| ==> !Names(ops[j], Key(ops[i].name))
    ensures var n, after := Key(ops[i].name), Replayed(files, ops, ok);
      if ops[i].DeleteOp? then n !in after else n in after && after[n] == ops[i].data
    decreases |ops|
  {
    hide Key;
    var next := Effect(files, ops[0], ok[0]);
    if i == 0 {
      ReplayKeeps(next, ops[1..], ok[1..], Key(ops[0].name));
    } else {
      LastDecides(next, ops[1..], ok[1..], i - 1);
    }
  }
}
