/** What a FAT volume means, apart from how it is packed into sectors: a table
    of links, the root directory slots and the bytes of every cluster. The
    operations of `fat12.py` are stated here as functions between volumes. */
module Volumes {
  import opened Bytes
  import opened FatTable
  import opened FatLayout
  import opened DosNames

  /** `clusters` is indexed by cluster number; its first two places are unused. */
  datatype Volume = Volume(table: Table, slots: seq<Slot>, clusters: seq<seq<byte>>)

  ghost predicate Sized(l: Layout, v: Volume) {
    && l.Valid()
    && |v.table| == l.Limit() && |v.clusters| == l.Limit() && |v.slots| == l.rootEntries
    && (forall c :: 2 <= c < |v.clusters| ==> |v.clusters[c]| == l.ClusterSize())
  }

  // ---- Chains and their bytes ----

  ghost function ChainOf(l: Layout, t: Table, c: nat): seq<nat> {
    Steps(t, l.kind.Bad(), c, |t|)
  }

  ghost predicate HasChain(l: Layout, t: Table, c: nat) {
    var chain := ChainOf(l, t, c);
    IsChain(t, l.kind.Bad(), chain) && chain[0] == c
  }

  lemma ChainIsChainOf(l: Layout, t: Table, chain: seq<nat>)
    requires IsChain(t, l.kind.Bad(), chain) && |t| <= l.kind.Bad()
    ensures HasChain(l, t, chain[0]) && ChainOf(l, t, chain[0]) == chain
    ensures Halts(t, l.kind.Bad(), chain[0]) && Final(t, l.kind.Bad(), chain[0], |t|) >= l.kind.Bad()
    ensures Distinct(chain)
  {
    FollowReturnsChain(t, l.kind.Bad(), chain);
  }

  ghost function ChainBytes(clusters: seq<seq<byte>>, chain: seq<nat>): seq<byte>
    requires forall i :: 0 <= i < |chain| ==> chain[i] < |clusters|
  {
    if chain == [] then []
    else ChainBytes(clusters, chain[..|chain| - 1]) + clusters[chain[|chain| - 1]]
  }

  lemma {:induction false} ChainBytesFrame(a: seq<seq<byte>>, b: seq<seq<byte>>, chain: seq<nat>)
    requires forall i :: 0 <= i < |chain| ==> chain[i] < |a| && chain[i] < |b| && a[chain[i]] == b[chain[i]]
    ensures ChainBytes(a, chain) == ChainBytes(b, chain)
  {
    if chain != [] {
      ChainBytesFrame(a, b, chain[..|chain| - 1]);
    }
  }

  function ClustersFor(size: nat, clusterSize: nat): nat
    requires clusterSize > 0
  {
    (size + clusterSize - 1) / clusterSize
  }

  function Chunk(data: seq<byte>, i: nat, clusterSize: nat): (chunk: seq<byte>)
    ensures |chunk| <= clusterSize
  {
    assert (i + 1) * clusterSize == i * clusterSize + clusterSize;
    Slice(data, i * clusterSize, (i + 1) * clusterSize)
  }

  /** The clusters after the first k chunks of data are written along the chain. */
  function Stored(clusters: seq<seq<byte>>, chain: seq<nat>, data: seq<byte>, cs: nat, k: nat): (r: seq<seq<byte>>)
    requires k <= |chain| && forall i :: 0 <= i < |chain| ==> chain[i] < |clusters|
    ensures |r| == |clusters|
    ensures forall c :: 0 <= c < |clusters| && c !in chain[..k] ==> r[c] == clusters[c]
    ensures forall c :: 0 <= c < |clusters| && c in chain[..k] ==> |r[c]| == cs
  {
    if k == 0 then clusters
    else
      assert chain[..k] == chain[..k - 1] + [chain[k - 1]];
      Stored(clusters, chain, data, cs, k - 1)[chain[k - 1] := PadTo(Chunk(data, k - 1, cs), cs)]
  }

  /** The first m bytes of data, filled up with zeros. */
  function Padded(data: seq<byte>, m: nat): (r: seq<byte>)
    ensures |r| == m
  {
    if m <= |data| then data[..m] else PadTo(data, m)
  }

  lemma AppendChunk(data: seq<byte>, i: nat, cs: nat)
    ensures Padded(data, i * cs) + PadTo(Chunk(data, i, cs), cs) == Padded(data, (i + 1) * cs)
  {
    var m := i * cs;
    assert (i + 1) * cs == m + cs;
    assert Chunk(data, i, cs) == Slice(data, m, m + cs);
    assert Padded(data, m) + PadTo(Slice(data, m, m + cs), cs) == Padded(data, m + cs);
  }

  /** Data written along a chain reads back along it. */
  lemma {:induction false} StoredReadsBack(clusters: seq<seq<byte>>, chain: seq<nat>, data: seq<byte>, cs: nat, k: nat)
    requires k <= |chain| && Distinct(chain) && forall i :: 0 <= i < |chain| ==> chain[i] < |clusters|
    ensures ChainBytes(Stored(clusters, chain, data, cs, k), chain[..k]) == Padded(data, k * cs)
  {
    if k > 0 {
      hide Padded, Chunk, PadTo;
      var r, r' := Stored(clusters, chain, data, cs, k), Stored(clusters, chain, data, cs, k - 1);
      var front, last := chain[..k - 1], chain[k - 1];
      assert chain[..k] == front + [last];
      StoredReadsBack(clusters, chain, data, cs, k - 1);
      ChainBytesFrame(r, r', front);
      AppendChunk(data, k - 1, cs);
      assert r[last] == PadTo(Chunk(data, k - 1, cs), cs);
      assert ChainBytes(r, chain[..k]) == ChainBytes(r, front) + r[last];
    } else {
      assert 0 * cs == 0;
    }
  }

  lemma ClustersForCovers(size: nat, cs: nat)
    requires cs > 0
    ensures size <= ClustersFor(size, cs) * cs < size + cs
    ensures size > 0 ==> ClustersFor(size, cs) > 0
  {
    var x, n := size + cs - 1, ClustersFor(size, cs);
    assert x == cs * (x / cs) + x % cs;
    assert n * cs == cs * (x / cs);
  }

  // ---- Root directory slots ----

  /** The scan of `_put_root_entry` from slot i on: the slot it settles on, and
      whether that slot already holds the name. An end mark wins over a deleted
      slot seen before it. */
  function PutSlot(slots: seq<Slot>, n: Name83, i: nat, reuse: Option<nat>): (r: (Option<nat>, bool))
    requires reuse.Some? ==> reuse.value < |slots|
    ensures r.0.Some? ==> r.0.value < |slots|
    ensures r.1 ==> r.0.Some?
    decreases |slots| - i
  {
    if i >= |slots| then (reuse, false)
    else if slots[i][0] == END_MARK then (Some(i), false)
    else if slots[i][0] == DELETED then PutSlot(slots, n, i + 1, if reuse.None? then Some(i) else reuse)
    else if NamesMatch(slots[i], n) then (Some(i), true)
    else PutSlot(slots, n, i + 1, reuse)
  }

  /** The scan of `delete_file`. */
  function DeleteSlot(slots: seq<Slot>, n: Name83, i: nat): (r: Option<nat>)
    ensures r.Some? ==> i <= r.value < |slots| && Holds(slots[r.value], n) && !IsDir(slots[r.value])
    decreases |slots| - i
  {
    if i >= |slots| then None
    else if slots[i][0] == END_MARK then None
    else if slots[i][0] != DELETED && NamesMatch(slots[i], n) && !IsDir(slots[i]) then Some(i)
    else DeleteSlot(slots, n, i + 1)
  }

  /** The entries of one sector up to its end mark. */
  function ParseSector(slots: seq<Slot>, i: nat, hi: nat): seq<Slot>
    requires hi <= |slots|
    decreases hi - i
  {
    if i >= hi || slots[i][0] == END_MARK then [] else [slots[i]] + ParseSector(slots, i + 1, hi)
  }

  /** `read_root_directory` from slot i on. An end mark ends its sector only. */
  function ParseRoot(slots: seq<Slot>, i: nat): seq<Slot>
    decreases |slots| - i
  {
    if i >= |slots| then []
    else
      var hi := if i + 16 <= |slots| then i + 16 else |slots|;
      ParseSector(slots, i, hi) + ParseRoot(slots, hi)
  }

  /** The search of `find_file` in the parsed entries. */
  function FindIn(entries: seq<Slot>, target: Name83): Option<Slot> {
    if entries == [] then None
    else if Live(entries[0]) && FindMatches(entries[0], target) then Some(entries[0])
    else FindIn(entries[1..], target)
  }

  /** Nothing is live behind the first end mark. */
  ghost predicate Ended(slots: seq<Slot>) {
    forall i, j :: 0 <= i < j < |slots| && slots[i][0] == END_MARK ==> !Live(slots[j])
  }

  ghost predicate UpperNames(slots: seq<Slot>) {
    forall i :: 0 <= i < |slots| && Live(slots[i]) ==>
      Upper(NameOf(slots[i]).base) == NameOf(slots[i]).base && Upper(NameOf(slots[i]).ext) == NameOf(slots[i]).ext
  }

  /** The position of the first live slot in [i, hi) that matches, or hi. */
  ghost function FirstMatch(slots: seq<Slot>, target: Name83, i: nat, hi: nat): (k: nat)
    requires i <= hi <= |slots|
    ensures i <= k <= hi
    ensures k < hi ==> Live(slots[k]) && FindMatches(slots[k], target)
    ensures forall j :: i <= j < k ==> !(Live(slots[j]) && FindMatches(slots[j], target))
    decreases hi - i
  {
    if i == hi || (Live(slots[i]) && FindMatches(slots[i], target)) then i
    else FirstMatch(slots, target, i + 1, hi)
  }

  lemma {:induction false} FindInAppend(a: seq<Slot>, b: seq<Slot>, target: Name83)
    ensures FindIn(a + b, target) == if FindIn(a, target).Some? then FindIn(a, target) else FindIn(b, target)
  {
    if a == [] {
      assert a + b == b;
    } else {
      assert (a + b)[1..] == a[1..] + b;
      FindInAppend(a[1..], b, target);
    }
  }

  lemma {:induction false} FindInSector(slots: seq<Slot>, target: Name83, i: nat, hi: nat)
    requires Ended(slots) && i <= hi <= |slots|
    ensures var k := FirstMatch(slots, target, i, hi);
            FindIn(ParseSector(slots, i, hi), target) == if k < hi then Some(slots[k]) else None
    decreases hi - i
  {
    if i < hi && slots[i][0] != END_MARK {
      FindInSector(slots, target, i + 1, hi);
    }
  }

  lemma {:induction false} FirstMatchSplit(slots: seq<Slot>, target: Name83, i: nat, mid: nat, hi: nat)
    requires i <= mid <= hi <= |slots|
    ensures var k := FirstMatch(slots, target, i, mid);
            FirstMatch(slots, target, i, hi) == if k < mid then k else FirstMatch(slots, target, mid, hi)
    decreases mid - i
  {
  }

  /** `find_file` finds the first live slot of that name, for the cut-off by
      sectors skips no live slot. */
  lemma {:induction false} FindInRoot(slots: seq<Slot>, target: Name83, i: nat)
    requires Ended(slots) && i <= |slots|
    ensures var k := FirstMatch(slots, target, i, |slots|);
            FindIn(ParseRoot(slots, i), target) == if k < |slots| then Some(slots[k]) else None
    decreases |slots| - i
  {
    if i < |slots| {
      var hi := if i + 16 <= |slots| then i + 16 else |slots|;
      FindInSector(slots, target, i, hi);
      FindInRoot(slots, target, hi);
      FindInAppend(ParseSector(slots, i, hi), ParseRoot(slots, hi), target);
      FirstMatchSplit(slots, target, i, hi, |slots|);
    }
  }

  ghost predicate Holds(raw: Slot, n: Name83) {
    Live(raw) && NamesMatch(raw, n)
  }

  /** No end mark and no entry of that name before slot i. */
  ghost predicate Passed(slots: seq<Slot>, n: Name83, i: nat) {
    forall j :: 0 <= j < i && j < |slots| ==> slots[j][0] != END_MARK && !Holds(slots[j], n)
  }

  ghost predicate NoneHolds(slots: seq<Slot>, n: Name83) {
    forall j :: 0 <= j < |slots| ==> !Holds(slots[j], n)
  }

  ghost predicate AllLive(slots: seq<Slot>, i: nat) {
    forall j :: 0 <= j < i && j < |slots| ==> Live(slots[j])
  }

  ghost predicate NoEndMark(slots: seq<Slot>) {
    forall j :: 0 <= j < |slots| ==> slots[j][0] != END_MARK
  }

  /** The slot of a new entry: the first end mark, or in a directory without one the
      first deleted slot. */
  ghost predicate NewSlot(slots: seq<Slot>, k: nat) {
    && k < |slots|
    && (forall j :: 0 <= j < k ==> slots[j][0] != END_MARK)
    && (slots[k][0] == END_MARK || (slots[k][0] == DELETED && AllLive(slots, k) && NoEndMark(slots)))
  }

  /** What the scan of `_put_root_entry` settles on: the entry of that name, or
      if there is none the slot of a new entry, or if there is no such slot
      nothing. */
  ghost predicate PutOutcome(slots: seq<Slot>, n: Name83, idx: Option<nat>, existing: bool) {
    if existing then
      idx.Some? && idx.value < |slots| && Passed(slots, n, idx.value) && Holds(slots[idx.value], n)
    else if idx.Some? then
      Passed(slots, n, idx.value) && NewSlot(slots, idx.value) && NoneHolds(slots, n)
    else
      AllLive(slots, |slots|) && NoneHolds(slots, n)
  }

  lemma {:induction false} PutSlotMeaning(slots: seq<Slot>, n: Name83, i: nat, reuse: Option<nat>)
    requires Ended(slots) && Passed(slots, n, i)
    requires if reuse.Some? then reuse.value < i && reuse.value < |slots| && slots[reuse.value][0] == DELETED &&
                                 AllLive(slots, reuse.value)
             else AllLive(slots, i)
    ensures PutOutcome(slots, n, PutSlot(slots, n, i, reuse).0, PutSlot(slots, n, i, reuse).1)
    decreases |slots| - i
  {
    hide NameOf, Stripped;
    if i < |slots| {
      if slots[i][0] == END_MARK {
        assert NoneHolds(slots, n);
      } else if slots[i][0] == DELETED {
        PutSlotMeaning(slots, n, i + 1, if reuse.None? then Some(i) else reuse);
      } else if !NamesMatch(slots[i], n) {
        PutSlotMeaning(slots, n, i + 1, reuse);
      }
    }
  }

  ghost predicate HoldsFile(raw: Slot, n: Name83) {
    Holds(raw, n) && !IsDir(raw)
  }

  /** What the scan of `delete_file` settles on: the first file of that name, if there
      is one; a directory of that name is passed over. */
  ghost predicate DeleteOutcome(slots: seq<Slot>, n: Name83, found: Option<nat>) {
    match found
    case Some(k) => k < |slots| && HoldsFile(slots[k], n) && forall j :: 0 <= j < k ==> !HoldsFile(slots[j], n)
    case None => forall j :: 0 <= j < |slots| ==> !HoldsFile(slots[j], n)
  }

  lemma {:induction false} DeleteSlotMeaning(slots: seq<Slot>, n: Name83, i: nat)
    requires Ended(slots)
    requires forall j :: 0 <= j < i && j < |slots| ==> slots[j][0] != END_MARK && !HoldsFile(slots[j], n)
    ensures DeleteOutcome(slots, n, DeleteSlot(slots, n, i))
    decreases |slots| - i
  {
    hide NameOf, Stripped, IsDir;
    if i < |slots| && slots[i][0] != END_MARK && !HoldsFile(slots[i], n) {
      DeleteSlotMeaning(slots, n, i + 1);
    }
  }

  // ---- Subdirectories ----

  /** `read_dir` on the bytes of a directory: 32-byte entries up to an end mark. */
  function ParseEntries(data: seq<byte>, i: nat): seq<Slot>
    requires |data| % 32 == 0
    decreases |data| - i * 32
  {
    if i * 32 >= |data| then []
    else if SlotAt(data, i)[0] == END_MARK then []
    else [SlotAt(data, i)] + ParseEntries(data, i + 1)
  }
}
