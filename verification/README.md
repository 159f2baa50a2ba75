# Verification of the emulator's state machines

This project models the parts of a DOS-era PC emulator in which a packed or fast
form has to agree with a plain one, or in which an invariant has to survive every
run, and proves that they do. Code that changes things in place is a class or a
method here, proved against functions on plain values; the laws are lemmas about
those functions.

* **FAT12/FAT16 volumes.** `bytes`, `disk`, `fat_codec`, `fat_table`, `fat_layout`,
  `dos_names`, `volumes`, `volume_ops`, `volume_theorems`, `volume_formats`, `volume_runs`, `volume_files`,
  `volume_costs`, `floppy`, `fat_image`, `fat_volume`.
  Two levels: a *volume* is a table of links, the root slots and the bytes of every
  cluster; an *image* is a list of sectors. `VolumeOf` reads one out of the other.
  Every method of `FatVolume` changes sectors and its FAT cache in place and is
  proved to do to the volume exactly what the volume operation says, to keep cache
  and on-disk FAT copies equal (`Ready`), and to leave the sectors outside its region
  alone (`Outside`). To its users the root directory is a map from 8.3 names to bytes
  (`Files`): a write updates one name, a delete removes one, and a run of operations is
  the replay of what they do to the map. FAT16 differs in the entry codec only;
  everything above is shared.
* **Host tree to image and back.** `host_tree`, `tree_placement`, `tree_walk`, `tree_links`,
  `host_bridge`, `tree_runs`. The builder rewrites a directory as if its clusters were contiguous.
  The invariant that makes this right, used clusters are a prefix of the table, is
  `Packed`; with it the round trip through an image is an if-and-only-if.
* **Terminal key decoder.** `key_decoder`, `key_codes`, `key_table`, `terminal_decoder`.
* **Hardware task switches.** `task_switch`, `task_nesting`, `task_layout`, `cpu_tasks`.
* **CPU arithmetic.** `shifts`, `arithmetic`, `decimal`, `alu`.
* **Planar video memory.** `planar_memory`, `planar_pixels`, `video`.
* **Interval timer.** `pit_channel`, `pit`.
* **BIOS disk transfers.** `segments`, `disk_service`.

A volume is *well formed* (`WF`) when its sizes fit its layout, no live directory slot
lies behind the first end mark, and the root files own disjoint terminated chains. That
is what a blank image is and what every operation is proved to keep. A directory is
*tidy* (`Tidy`) when its live names are unique and upper case and entries without a
chain have size zero; the operations keep that too.

## Where the code falls short, and exactly when

* `find_file` cuts a name at the first dot, `write_file` at the last; and `find_file`
  upper-cases the stored name, `_names_match` does not. The new entry is found if and only
  if the two ways of splitting agree and no live slot ahead of it looks like the name
  (`PutIsFound`). `A.B.C` is a name on which the splits disagree (`TwoDotsDisagree`); a
  stored `a` is a slot that shadows `A` (`LowerCaseShadows`). Where all names are upper
  case nothing shadows (`UpperIsUnshadowed`).
* Reading an empty file follows the media byte as a link, without a cycle guard. So an
  empty file that was written is read if and only if following cluster 0 returns
  (`WrittenAndDeleted`, `ReadIsLookup`); `EmptyFileIsWrittenNotRead` is the blank 1.44 MB
  floppy, on which it never does. On an image that the bridge built it returns if and only
  if the media byte ends a chain or names a cluster in use, never ends if it names a free
  one and raises otherwise (`EmptyFileReads`); `EmptyFileIsNotRead` exhibits a floppy, and
  `WalkOfBuilt` carries the condition to whole trees.
* A full root directory is noticed after the clusters are taken, and they stay taken
  (`WriteOutcomes`); `LateRootFull` is a small volume on which that happens. So is a
  broken chain of the entry to be replaced (`BadChain`).
* The bridge accepts names whose parts end in a blank; they come back trimmed. A built
  tree comes back as it was if and only if no name is of that kind and no empty file
  gets stuck (`WalkOfBuilt`); `BlankIsLost` is such a name.
* The bridge does not count the entries of the root directory. Those behind the last
  slot are not found again; the first one behind the last sector lies over the first data
  cluster, and a number that does not fill its last sector raises an error that is not
  caught (`BuildHostDirectory`).
* The docstring of `get_fat_entry` calls FAT12 entry 0 an 8-bit value; `set_fat_entry`
  packs it like any other entry. The codec follows the code, and `PutThenGet` states
  the exception.
* The comment on the scan of `_put_root_entry` speaks of reusing a deleted slot. The
  code lets the end mark override it; `PutSlot` follows the code.
* 8-bit and 16-bit ADC and SBB add the carry to the operand first. Their carry out is
  exact, their overflow and half carry are exact except for the operands named in
  `PlainAdc` and `PlainSbb`; the immediate forms also mask the sum and lose the carry or
  borrow for one operand (`MaskedAdc`, `MaskedSbb`).
* Plain F11 and F12 have the scan codes of F4 and F5 with Shift. The other function keys and
  what is held with them can be told apart, and the navigation keys but for Shift
  (`FunctionCodesDiffer`, `NavigationCodesDiffer`).
* In the one-byte access modes a latched timer count is never freed by reading it
  (`LatchStays`).
* In a memory larger than 1 MiB a chunked segment copy runs past 1 MiB instead of
  wrapping (`LargeMemoryAddress` says for which bytes).

## Model

| member | source | states |
|---|---|---|
| `Disks.Disk.ReadSector` | video.py:996-1002 | reading an existing sector fills the front of the buffer, a missing one leaves it alone and fails |
| `Disks.Disk.WriteSector` | video.py:1004-1013 | a write succeeds exactly on a writable disk and an existing sector, replaces that sector only and marks the disk dirty |
| `FatCodec.NibbleMasks` | fat12.py:630-642 | the masking and shifting of the packed entries is the nibble arithmetic the codec is stated in |
| `FatCodec.PutThenGet` | fat12.py:433-450 | an entry reads back as the value cut to 12 or 16 bits, for both parities; FAT12 entry 0 keeps its low byte only |
| `FatCodec.PutKeepsOthers` | fat12.py:630-642 | writing an entry leaves every other entry alone, although FAT12 neighbours share a byte |
| `FatTable.HaltsDecided` | fat12.py:452-463 | following a chain, which has no cycle guard, ends at all if and only if it ends within as many steps as there are entries, and then both runs return the same |
| `FatTable.HaltingIsAcyclic` | fat12.py:452-463 | a walk that ends visits no cluster twice |
| `FatTable.FollowReturnsChain` | fat12.py:452-463 | following a terminated chain ends and returns exactly that chain |
| `FatTable.FirstFit` | fat12.py:657-669 | allocation picks distinct free data clusters in increasing order |
| `FatTable.FirstFitIsSmallest` | fat12.py:657-669 | no free cluster below the last one picked is passed over |
| `FatTable.AllocatedIsChain` | fat12.py:670-676 | the picked clusters become one chain ended by the end-of-chain mark |
| `FatTable.FreeCountChange` | fat12.py:784-790 | taking a set of free clusters out of use lowers the free count by exactly their number |
| `FatTable.AllocThenFree` | fat12.py:657-680 | allocating n clusters costs exactly n, and freeing the chain restores the very table |
| `DosNames.SplitsAgree` | fat12.py:576-586 | with at most one dot, the stored and the sought name agree if and only if no part ends in a blank |
| `DosNames.TwoDotsDisagree` | fat12.py:537-560 | a name with two dots that is stored under one 8.3 name and sought under another |
| `DosNames.MadeEntry` | fat12.py:611-628 | name, attribute, first cluster and size can be read back from a directory entry, cut to their field widths |
| `Volumes.StoredReadsBack` | fat12.py:694-704 | data written chunk by chunk along a chain reads back along it, padded with zeros |
| `Volumes.FindInRoot` | fat12.py:507-560 | the lookup over the parsed sectors returns the first live slot of the name, although an end mark ends only its own sector |
| `Volumes.PutSlotMeaning` | fat12.py:713-728 | the scan settles on the live entry of that name, else on the slot of a new entry, which is the first end mark or, in a directory without one, the first deleted slot, else on nothing, in which case every slot is live |
| `Volumes.DeleteSlotMeaning` | fat12.py:741-752 | deletion finds the first live entry of the name that is no directory, passing over a directory of that name, and finds none exactly when there is none |
| `VolumeOps.ClaimMakesChain` | fat12.py:657-676 | the new chain consists of clusters that were free, is terminated, and nothing else in the table changes |
| `VolumeOps.ClaimStoresData` | fat12.py:694-704 | the chain holds the data and no other cluster changes |
| `VolumeOps.ClaimFrame` | fat12.py:657-704 | allocation and writing cannot reach a chain that is already on the volume |
| `VolumeTheorems.PutKeepsWF` | fat12.py:709-739 | placing or replacing an entry leaves the root files with disjoint terminated chains |
| `VolumeTheorems.PutKeepsChains` | fat12.py:709-739 | every other root file keeps its slot and its chain when an entry is placed |
| `VolumeTheorems.WriteKeepsWF` | fat12.py:682-707 | writing a file keeps the volume well formed, whatever the outcome |
| `VolumeTheorems.PutIsFound` | fat12.py:537-560 | the entry just placed is the one found by name if and only if both ways of splitting the name agree and no live slot ahead of it matches the search |
| `VolumeTheorems.UpperIsUnshadowed` | fat12.py:553-560 | where every stored name is upper case no slot shadows the new entry |
| `VolumeTheorems.LowerCaseShadows` | fat12.py:553-594 | an entry stored in lower case that the search takes for the name and the comparison of `write_file` does not |
| `VolumeTheorems.WriteThenRead` | fat12.py:682-766 | after writing non-empty data under a name that is found, reading the name returns exactly the data |
| `VolumeTheorems.WriteKeepsChains` | fat12.py:682-739 | any chain other than the replaced one, in a subdirectory for instance, keeps its links and bytes |
| `VolumeTheorems.WriteKeepsFiles` | fat12.py:682-739 | every other root file keeps its entry and reads as before |
| `VolumeTheorems.WriteOutcomes` | fat12.py:657-731 | a write fails for space exactly when too few clusters are free and then changes nothing; it fails for room exactly when every slot is live and none has the name, and then keeps the clusters; on a well-formed volume the chain of a replaced entry never fails it |
| `VolumeTheorems.PutIndexIs` | fat12.py:713-728 | there is at most one slot of that description, and the scan settles on it exactly when it is there |
| `VolumeTheorems.WriteFillsSlot` | fat12.py:682-739 | a successful write fills that slot and no other, with an archive entry of the stored name, the size and the first cluster |
| `VolumeTheorems.BrokenWrite` | fat12.py:682-739 | well formed or not, a write fails for a replaced chain exactly if following it does, and a failed write leaves the directory alone |
| `VolumeTheorems.BrokenDelete` | fat12.py:741-758 | a delete likewise; a failed one changes nothing |
| `VolumeTheorems.LateRootFull` | fat12.py:682-731 | a volume with one root slot and one free cluster, where the write fails and the cluster is lost |
| `VolumeTheorems.WriteCosts` | fat12.py:682-739 | a write lowers the free count by the clusters of its data and raises it by those of the file it replaces |
| `VolumeTheorems.DeleteKeepsWF` | fat12.py:741-758 | deleting a file keeps the volume well formed |
| `VolumeTheorems.DeleteOutcomes` | fat12.py:741-758 | a delete succeeds exactly when there is a file of that name that is no directory |
| `VolumeTheorems.WriteThenDelete` | fat12.py:682-758 | creating and deleting a file restores every FAT entry, every other slot and the bytes of every cluster in use |
| `VolumeFormats.RegionsMean` | fat12.py:248-252 | FAT copies, root directory and cluster 2 follow one another; the root takes as few sectors as hold it |
| `VolumeFormats.ClustersMean` | fat12.py:253-262 | the clusters follow one another, and as many are counted as fit |
| `VolumeFormats.StoredName` | fat12.py:576-585 | byte by byte where a name is stored: cut at the last dot, in upper case, filled up with blanks |
| `VolumeFormats.SoughtName` | fat12.py:544-551 | byte by byte what a search looks for: cut at the first dot, in upper case |
| `VolumeFormats.StrippedName` | fat12.py:30-31 | a name is read up to its last byte that is neither blank nor zero |
| `VolumeFormats.EntryIsDated` | fat12.py:611-628 | every entry is dated the first of January 1980, midnight, in all its date and time fields |
| `VolumeFormats.DeleteMarks` | fat12.py:741-758 | a successful delete overwrites the first byte of the first file of that name with the deletion mark, frees exactly its chain and changes nothing else |
| `VolumeFormats.ClaimedEnds` | fat12.py:670-676 | the last cluster of a new chain gets the end mark of the FAT width |
| `VolumeFormats.WalkGoesOn` | fat12.py:452-463 | a walk returns from a cluster exactly when it does from its link; it returns at the links that end a chain and raises at those past the last cluster |
| `VolumeFormats.RootShows` | fat12.py:507-535 | an end mark hides the entries behind it in its own sector and no others |
| `VolumeRuns.TableChange` | fat12.py:657-680 | a change of the FAT outside the chains of the root files keeps the volume well formed and every such chain |
| `VolumeRuns.Run` | fat12.py:657-758 | every run of writes, deletes, allocations and releases of clusters no root file owns ends in a well-formed volume |
| `VolumeRuns.RunKeepsFile` | fat12.py:657-758 | a file whose name no operation of a run uses keeps slot, chain and bytes through the whole run |
| `VolumeRuns.RunKeepsClusters` | fat12.py:657-758 | clusters in use that no operation of a run releases, directly or with a root file it replaces or deletes, keep their links and bytes |
| `VolumeRuns.RunKeepsChain` | fat12.py:657-758 | so does any chain, that of a file in a subdirectory for instance |
| `VolumeFiles.WriteIsUpdate` | fat12.py:682-739 | a write that succeeds maps the stored name to the data and changes no other name; one that fails changes none; names stay unique |
| `VolumeFiles.DeleteIsRemoval` | fat12.py:741-758 | a delete removes the stored name and no other, and succeeds exactly when there was one |
| `VolumeFiles.ReadIsLookup` | fat12.py:475-481 | in a tidy directory reading a name looks it up in the map, unless the entry found is a file without a chain and following its first cluster fails; then, and only then, reading fails |
| `VolumeFiles.WrittenAndDeleted` | fat12.py:682-765 | in a tidy directory what was deleted is not found and what was written is read back; an empty file is read if and only if following cluster 0 returns, and its read never ends if and only if that walk never does |
| `Floppy.EmptyFileIsWrittenNotRead` | fat12.py:452-481 | a blank 1.44 MB floppy, where an empty file is written and reading it never ends |
| `VolumeFiles.RunIsReplay` | fat12.py:657-758 | a run does to the map of files what its operations do in turn |
| `VolumeFiles.LastDecides` | fat12.py:682-758 | in such a replay the last operation on a name decides: its data after a write, nothing after a delete |
| `VolumeCosts.Balance` | fat12.py:784-790 | free clusters, clusters of root files and stray clusters are all the data clusters there are |
| `VolumeCosts.RunBalances` | fat12.py:657-758 | over any run the stray clusters grow by exactly the clusters of writes that found the root directory full and of direct allocations, less those released directly that were in use |
| `FatImage.TableWrite` | fat12.py:630-642 | changing one packed entry changes one place of the table that the FAT bytes spell |
| `FatImage.CopyWrite` | fat12.py:644-655 | rewriting one FAT sector of one copy changes those bytes of that copy, and neither another copy nor another region |
| `FatImage.RootWrite` | fat12.py:602-609 | writing back the sector of a slot changes that slot of the volume and nothing else |
| `FatImage.ClusterWriteFrame` | fat12.py:465-473 | changing the sectors of a cluster changes that cluster and neither FAT nor root |
| `FatVolumes.PackEntry` | fat12.py:630-642 | the in-place byte updates compute the codec |
| `FatVolumes.FatVolume.ReadFat` | fat12.py:419-431 | the cache holds the first FAT copy, read once and shared from then on |
| `FatVolumes.FatVolume.GetFatEntry` | fat12.py:433-450 | reading an entry gives the table entry of the volume, or fails outside the FAT |
| `FatVolumes.FatVolume.SetFatEntry` | fat12.py:630-655 | one entry of the table changes, the cache and every FAT copy stay equal byte for byte, and only FAT sectors change |
| `FatVolumes.FatVolume.FlushFatEntry` | fat12.py:644-655 | after a flush every on-disk copy equals the cache, also for an entry that straddles two sectors |
| `FatVolumes.FatVolume.FlushCopy` | fat12.py:644-655 | one copy is brought up to date by the one or two sectors of an entry |
| `FatVolumes.FatVolume.FollowChain` | fat12.py:452-463 | the loop returns the chain or raises for a cluster past the end |
| `FatVolumes.FatVolume.CollectFree` | fat12.py:662-666 | the scan collects the smallest free clusters, at most n |
| `FatVolumes.FatVolume.AllocClusters` | fat12.py:657-676 | first fit: the n smallest free clusters linked as one chain and nothing else; too full a disk changes nothing |
| `FatVolumes.FatVolume.FreeChain` | fat12.py:678-680 | exactly the entries of the chain become free |
| `FatVolumes.FatVolume.FreeClusterCount` | fat12.py:784-790 | the count is the number of free data clusters |
| `FatVolumes.FatVolume.ReadCluster` | fat12.py:465-473 | the sectors at the place of a cluster number, zeros where there is no sector; for a data cluster the cluster of the volume |
| `FatVolumes.FatVolume.WriteCluster` | fat12.py:698-704 | writing the sectors of a cluster changes that cluster only and no sector outside the data region |
| `FatVolumes.FatVolume.ReadFile` | fat12.py:475-481 | the bytes along the walk, the reserved numbers included, cut to the size; it fails exactly when the walk runs past the end |
| `FatVolumes.FatVolume.ScanForPut` | fat12.py:713-728 | the loop settles on the slot of the specification |
| `FatVolumes.FatVolume.ScanForDelete` | fat12.py:741-752 | likewise for deletion |
| `FatVolumes.FatVolume.PutRootEntry` | fat12.py:709-739 | the entry is placed and the replaced chain freed; it fails when no slot is left or the replaced chain is broken, and then changes nothing |
| `FatVolumes.FatVolume.StoreData` | fat12.py:694-704 | the chunks are written along the chain and only data sectors change |
| `FatVolumes.FatVolume.WriteFile` | fat12.py:682-707 | outcome and new volume are those of the volume operation; boot sectors are untouched |
| `FatVolumes.FatVolume.DeleteFile` | fat12.py:741-758 | likewise for deletion, and no data sector changes |
| `FatVolumes.FatVolume.ReadRootDirectory` | fat12.py:507-535 | the cached parse of the root equals a fresh one |
| `FatVolumes.FatVolume.FindFile` | fat12.py:537-560 | the lookup of the volume operation |
| `FatVolumes.FatVolume.ReadFileByName` | fat12.py:760-765 | for every read that ends: nothing for a missing name or a directory, else the bytes along the walk cut to the size, or the error of a walk past the end |
| `FatVolumes.FatVolume.ReadDir` | fat12.py:767-782 | the entries of a subdirectory up to its end mark; it fails exactly when the walk runs past the end |
| `FatVolumes.FatVolume.Perform` | fat12.py:657-758 | after any run of writes, deletes, allocations and releases cache and every FAT copy are equal, boot sectors are untouched, and the volume and the successes are those of the run |
| `HostTree.FullNameOfEntry` | fat12.py:23-53 | a host name comes back from its entry trimmed, which is the same name if and only if no part of it ends in a blank |
| `HostTree.NameCharsAre` | hostbridge.py:12 | the bytes accepted in a host name are the capital letters, the digits, the blank and sixteen signs |
| `HostTree.BlankIsLost` | hostbridge.py:12-45 | a name with a blank at its end that the bridge accepts and does not give back |
| `TreePlacement.PackedFirstFit` | fat12.py:657-669 | while the used clusters are a prefix, first fit hands out the next contiguous run |
| `TreePlacement.PackedLink` | fat12.py:670-676 | linking that run keeps the used clusters a prefix |
| `TreePlacement.PackedHalts` | fat12.py:452-463 | on such a table every walk from a used cluster ends |
| `TreePlacement.DirSizeIsLeast` | hostbridge.py:97-98 | a directory gets the fewest clusters that hold its two dot entries and its items |
| `TreePlacement.NodeFrame` | hostbridge.py:96-115 | what is built later does not disturb a subtree that is in place |
| `TreeWalk.DirDataParses` | hostbridge.py:96-115 | the bytes built for a directory parse back to the two dot entries and the entries of its items |
| `TreeWalk.EmptyFileReads` | fat12.py:443-463 | reading an empty file returns if and only if the media byte, taken for a link, ends a chain or names a used cluster, and never ends if and only if it names a free one |
| `TreeWalk.ReturnedIsSame` | hostbridge.py:146-182 | trimming the names of a tree changes nothing if and only if every name is preserved |
| `TreeWalk.WalkNode` | hostbridge.py:146-166 | walking a placed node finds that node with its names trimmed, its size and its bytes |
| `TreeWalk.WalkItems` | hostbridge.py:146-166 | walking placed items finds exactly them, in order, with their names trimmed |
| `TreeWalk.WalkFindsTree` | hostbridge.py:168-182 | the walk of a volume that holds a tree returns that tree with its names trimmed, unless an empty file cannot be read |
| `TreeLinks.EntryIs` | hostbridge.py:91-94 | name, attribute, first cluster and size of the entry of a file or directory |
| `TreeLinks.PlacedEntries` | hostbridge.py:96-111 | a placed directory reads back as ".", which names no cluster, "..", which names the parent, and the entries of its items at their places |
| `TreeLinks.NodeLinks` | hostbridge.py:96-115 | in everything below a placed directory ".." names the directory above |
| `TreeLinks.RootLinks` | hostbridge.py:116-129 | from the root on: cluster 0 for the directories in the root, the directory above for all others |
| `HostBridge.WriteData` | hostbridge.py:78-89 | data takes the next contiguous run of clusters, at least one, and keeps the used clusters a prefix; it fails exactly when the run does not fit |
| `HostBridge.RewriteRun` | hostbridge.py:112-114 | rewriting a directory from its first cluster on as contiguous sectors changes exactly the clusters of its run |
| `HostBridge.WriteItem` | hostbridge.py:91-111 | an item is placed at the next free cluster with the entry that describes it |
| `HostBridge.WriteDirectory` | hostbridge.py:96-115 | a directory and everything below it is placed from the next free cluster on; it fails exactly when the clusters needed do not fit |
| `HostBridge.WriteRoot` | hostbridge.py:127-129 | the sectors from the first root sector on get the built entries, however many; a buffer of the right size changes neither FAT nor data |
| `HostBridge.SpillsOver` | hostbridge.py:120-129 | the first root entry too many lies over the first bytes of cluster 2 |
| `HostBridge.BuildHostDirectory` | hostbridge.py:76-135 | the build fails exactly when the clusters the tree needs do not fit; with no more root entries than the root sectors hold the volume then holds the tree, root items behind the last slot excepted, every ".." naming the directory above, FAT copies equal, disk read-only and not dirty; with more it raises exactly for a last sector that is not full, and otherwise overwrites cluster 2 |
| `HostBridge.SyncEntry` | hostbridge.py:148-166 | the loops read what the walk function says, entry by entry, up to the first error |
| `HostBridge.SyncDir` | hostbridge.py:146-166 | likewise for a directory |
| `HostBridge.SyncRoot` | hostbridge.py:168-182 | likewise for the whole volume |
| `HostBridge.WalkOfBuilt` | hostbridge.py:138-183 | walking a built volume finds the tree with its names trimmed, raises or never ends, and which of them; it returns the tree itself if and only if it ends and every name is preserved |
| `HostBridge.EmptyFileIsNotRead` | fat12.py:443-463 | a built 1.44 MB volume with one empty file whose walk does not return |
| `HostBridge.BuildThenSync` | hostbridge.py:26-183 | building an image from a tree, mounting it anew and walking it returns the root items that got a slot with all names trimmed, the same tree if and only if all got one and every name is preserved; it fails exactly when the tree does not fit or the media byte of an empty file leaves the volume |
| `TreeRuns.BuiltIsWF` | hostbridge.py:76-135 | a built volume is well formed, so that all that is proved about such volumes holds for it |
| `TreeRuns.RunKeepsNode` | fat12.py:657-758 | a subtree anywhere on a volume stays in place through a run that releases none of its clusters |
| `TreeRuns.TreeSurvives` | hostbridge.py:146-182 | a root item of a built volume and everything below it survives every run that does not name it and frees none of its clusters, and the walk still finds it |
| `KeyDecoder.PrefixFree` | terminal_keyboard.py:67-119 | no key sequence is a proper prefix of another |
| `KeyDecoder.StepStable` | terminal_keyboard.py:149-193 | a decoding step that is taken is not changed by bytes that arrive later |
| `KeyDecoder.DecodeSplit` | terminal_keyboard.py:149-194 | decoding a concatenation is decoding the first part and then its leftover with the second |
| `KeyDecoder.ChunksDoNotMatter` | terminal_keyboard.py:138-141 | however the bytes are cut into chunks, events and leftover are those of feeding them at once |
| `KeyDecoder.NothingSwallowed` | terminal_keyboard.py:149-194 | the bytes behind the events, in order, and the leftover are the input, and each event is the meaning of its own bytes |
| `KeyDecoder.ForcedEmpties` | terminal_keyboard.py:143-147 | a forced decode leaves nothing |
| `KeyDecoder.LeftIsKeyStart` | terminal_keyboard.py:174-187 | what an unforced decode leaves is empty or a proper start of a key sequence, beginning with Escape |
| `KeyDecoder.SecondByte` | terminal_keyboard.py:117-121 | after an Escape only "[" and "O" start a key sequence |
| `KeyDecoder.KeyYields` | terminal_keyboard.py:163-173 | a key sequence gives its scan code, whatever follows |
| `KeyDecoder.ChordYields` | terminal_keyboard.py:177-187 | Escape and an ordinary key with which no key sequence starts give the Alt chord, whatever follows |
| `KeyDecoder.ByteYields` | terminal_keyboard.py:152-158 | any other byte stands for itself, line feed and delete as DOS has them |
| `KeyDecoder.EscapeYields` | terminal_keyboard.py:189-193 | an Escape that starts none of these, or nothing that may still become one, is the Escape key |
| `KeyDecoder.StartWaits` | terminal_keyboard.py:174-175 | the start of a key sequence is waited for |
| `KeyCodes.FunctionCodes` | terminal_keyboard.py:37-45 | the scan codes of F1 to F12 with Shift, Control and Alt are those of the BIOS table |
| `KeyCodes.NavigationCodesDiffer` | terminal_keyboard.py:48-64 | scan codes tell navigation keys and what is held apart, but for Shift |
| `KeyCodes.FunctionCodesDiffer` | terminal_keyboard.py:37-45 | they tell function keys and what is held apart, but for plain F11 and F12, which have the codes of F4 and F5 with Shift |
| `KeyCodes.KeyNames` | terminal_keyboard.py:67-115 | every key sequence is a navigation or function key with what is held, or the back tab |
| `KeyCodes.DigitRow` | terminal_keyboard.py:8-34 | Alt chords have the codes of the rows of the keyboard, key by key, with Shift or without; `UpperRow`, `HomeRow`, `LowerRow`, `CapitalKeys`, `ShiftedSigns` and `OtherKeys` are the rest |
| `KeyCodes.LetterKeys` | terminal_keyboard.py:69-101 | the plain arrow keys, Home, End and F1 to F4 in all their forms |
| `KeyCodes.NumberedKeys` | terminal_keyboard.py:80-111 | the plain numbered keys |
| `KeyCodes.ModifiedLetters` | terminal_keyboard.py:69-101 | the modified forms of the letter keys, and which digits are modifiers |
| `KeyCodes.ModifiedNumbers` | terminal_keyboard.py:80-111 | those of the numbered keys |
| `KeyCodes.NavigationCodes` | terminal_keyboard.py:48-64 | the codes of the navigation keys with Alt and Control |
| `KeyTable.PlaceIsUnique` | terminal_keyboard.py:67-111 | a place in the building order, group, index and modifier, belongs to at most one key |
| `KeyTable.Insert` | terminal_keyboard.py:67-111 | every assignment of the building writes a key that is not in the table yet, so that none overwrites an earlier one |
| `KeyTable.BuildSequences` | terminal_keyboard.py:67-115 | the nested loops build exactly the key sequences with their scan codes |
| `KeyTable.BuildPrefixes` | terminal_keyboard.py:117-121 | the comprehension collects exactly the proper prefixes |
| `TerminalDecoder.TerminalKeyDecoder.Complete` | terminal_keyboard.py:163-167 | the search over the keys finds the longest sequence that starts the buffer |
| `TerminalDecoder.TerminalKeyDecoder.DecodeOne` | terminal_keyboard.py:151-193 | one turn of the loop takes the step of the specification, and starts or stops the Escape timer with it |
| `TerminalDecoder.TerminalKeyDecoder.DecodeBuffer` | terminal_keyboard.py:149-194 | the loop computes the decoding function; afterwards the timer runs exactly when something is left |
| `TerminalDecoder.TerminalKeyDecoder.Feed` | terminal_keyboard.py:138-141 | events and buffer are the decoding of the buffered bytes followed by the new ones |
| `TerminalDecoder.TerminalKeyDecoder.Flush` | terminal_keyboard.py:143-147 | after the timeout everything is decoded; before it nothing is forced |
| `TaskSwitch.PutWords` | cpu.py:1459-1475 | every saved word reads back from its place, and no byte outside the save area changes |
| `TaskNesting.SaveFrame` | cpu.py:1459-1475 | saving a task changes the saved registers of that task only, and no descriptor |
| `TaskNesting.BusyFrame` | cpu.py:1520-1529 | moving a busy bit changes the busy state of one segment and nothing else about any segment |
| `TaskNesting.SwitchedView` | cpu.py:1643-1652 | what the memory of a switch says about every task: who is busy, what is saved, which links stay |
| `TaskNesting.CalledIsNew` | cpu.py:1632-1638 | a task that a call may enter is not nested already |
| `TaskNesting.CallNests` | cpu.py:1609-1662 | a call that is not refused succeeds, nests the task on top, saves the caller's registers and keeps every other saved context |
| `TaskNesting.ReturnUnnests` | cpu.py:3464-3468 | a return along the back-link of a nested task succeeds, frees that task and resumes the one below with its saved registers, flags up to the always-set bit and NT |
| `TaskNesting.WorkNests` | cpu.py:1609-1664 | a task that changes its registers and any memory outside the descriptor table and the segments of the tasks leaves the nesting and every saved context as they were |
| `TaskNesting.StepKeeps` | cpu.py:1609-1664 | every step of a run, work with memory writes, call or return, keeps the busy segments equal to the stack that the back-links spell |
| `TaskNesting.RunFrom` | cpu.py:1609-1664 | so does every run, and the contexts below its starting depth are kept |
| `TaskNesting.NestedRunRestores` | cpu.py:1609-1664 | whatever a called task and the tasks below it do to registers and to memory outside the descriptor table and the segments of the tasks, returning from it succeeds and restores every register of the caller |
| `TaskLayout.PeekDecodes` | cpu.py:1477-1497 | a descriptor is found exactly when its selector is not null, the table holds it and it is present; base, limit with granularity and access are those encoded in its eight bytes |
| `TaskLayout.RefusedMeans` | cpu.py:1617-1638 | a switch is refused exactly for a wrong type, and a call also for a busy segment or too little privilege; an LDT selector is accepted exactly for an LDT descriptor |
| `TaskLayout.NothingIsRefused` | cpu.py:1614-1618 | a selector without a descriptor is refused, as a segment and, unless it is null, as an LDT |
| `TaskLayout.SwitchMoves` | cpu.py:1609-1664 | what a switch moves, at the offsets of the segment: the old registers to the old segment, the new ones from the new segment, flags, NT, privilege level and back link |
| `TaskLayout.SwitchFails` | cpu.py:1531-1664 | how a switch fails, with which error code, and what a failure half way has moved |
| `TaskLayout.MasksSet` | cpu.py:1545-1662 | the arithmetic on single flag bits is the masking of the source; so is `MasksClear` |
| `CpuTasks.Cpu.SaveTaskState` | cpu.py:1459-1475 | the fifteen words are stored in the order of the segment |
| `CpuTasks.Cpu.SetTssBusy` | cpu.py:1520-1529 | the busy bit of the descriptor is set or cleared in memory, and the cached descriptor of the selector becomes the one in memory |
| `CpuTasks.Cpu.LoadFields` | cpu.py:1531-1547 | the registers are those of the save area with the always-set flag bit |
| `CpuTasks.Cpu.LoadTaskState` | cpu.py:1531-1560 | likewise, with the privilege level; the load is refused exactly for a bad LDT selector, when everything but that selector is loaded already |
| `CpuTasks.Cpu.DoTaskSwitch` | cpu.py:1609-1664 | the switch in place is the switch of the specification, for calls and returns between 286 segments, a return of a task to itself included: a refused one changes nothing, one whose LDT selector is refused stops half way in the new task |
| `Shifts.ShlMultiplies` | cpu.py:4440-4443 | n steps of SHL multiply by 2^n modulo the width; the carry is the first bit above it |
| `Shifts.ShrDivides` | cpu.py:4444-4448 | n steps of SHR divide by 2^n; the carry is the last bit dropped |
| `Shifts.SarFloors` | cpu.py:4453-4456 | n steps of SAR divide the signed value by 2^n, rounding down |
| `Shifts.TurnsUp` | cpu.py:4414-4432 | a left rotate turns the ring of bits, with the carry on top for RCL, by one place |
| `Shifts.RotatesRing` | cpu.py:4413-4432 | n steps turn it by n places |
| `Shifts.RotatesRingDown` | cpu.py:4433-4439 | n steps of a right rotate turn it back by n places |
| `Shifts.RotatedCarry` | cpu.py:4413-4439 | the carry after a rotate is the bit that came round last |
| `Shifts.RotateAndBack` | cpu.py:4413-4439 | rotating and rotating back by the same count restores the operand, and through the carry the carry too |
| `Shifts.CountsWrap` | cpu.py:4389-4396 | reducing the count modulo the ring, as the code does, changes neither the operand nor a carry that is in the ring |
| `Arithmetic.CompareDecides` | cpu.py:2779-2806 | after a compare at any width the sixteen jumps decide the unsigned order, the signed order, equality, signed overflow, sign and parity |
| `Arithmetic.AdcExact` | cpu.py:999-1008 | one ADC step: exact sum with carry out, overflow exactly when the signed sum leaves the range |
| `Arithmetic.SbbExact` | cpu.py:1009-1012 | one SBB step likewise |
| `Arithmetic.HalfCarry` | cpu.py:999-1012 | the auxiliary carry is the carry or borrow of the low four bits |
| `Arithmetic.AddedFlags` | cpu.py:687-735 | zero, sign and parity flag of an addition are those of the exact sum at that width; `TakenFlags` says so of a subtraction |
| `Arithmetic.ParityMeans` | cpu.py:687-745 | the parity flag says whether an even number of the low eight bits is set |
| `Arithmetic.PlainAdc` | cpu.py:842-862 | the 8-bit and 16-bit ADC: carry exact; overflow and half carry exact except for the operands named |
| `Arithmetic.PlainSbb` | cpu.py:842-862 | SBB likewise |
| `Arithmetic.MaskedAdc` | cpu.py:979-981 | the immediate ADC loses the carry out exactly when the carry wraps the immediate; overflow and half carry are exact except for the operands named |
| `Arithmetic.MaskedSbb` | cpu.py:981-983 | the immediate SBB loses the borrow likewise |
| `Arithmetic.ChainAdds` | cpu.py:999-1008 | a chain of ADCs over any number of words computes the exact sum with the carry out |
| `Arithmetic.ChainSubtracts` | cpu.py:1009-1012 | a chain of SBBs computes the exact difference with the borrow out |
| `Arithmetic.ChainOverflow` | cpu.py:999-1012 | the last overflow flag says whether the signed result leaves the range of all the words; if not, the words spell it |
| `DecimalArithmetic.DaaDigits` | cpu.py:2521-2535 | DAA turns any sum of two digit pairs and a carry into its decimal digits and carry |
| `DecimalArithmetic.DasDigits` | cpu.py:2537-2552 | DAS likewise for differences |
| `DecimalArithmetic.DaaCorrects` | cpu.py:2521-2535 | what DAA does to any AL: one correction of 0, 6, 60h or 66h, and when the carry is set |
| `DecimalArithmetic.DasCorrects` | cpu.py:2537-2552 | DAS likewise |
| `DecimalArithmetic.DecimalAdds` | cpu.py:2521-2535 | ADC and DAA over packed numbers of any length give the digits of the sum and the decimal carry |
| `DecimalArithmetic.DecimalSubtracts` | cpu.py:2537-2552 | SBB and DAS give the digits of the difference and the decimal borrow |
| `Alu.Unit.FlagsAdd` | cpu.py:687-735 | result and all six flags of an addition at any width, as facts about the sum of the integers |
| `Alu.Unit.FlagsSub` | cpu.py:707-745 | result and all six flags of a subtraction likewise |
| `Alu.Unit.Alu32` | cpu.py:999-1015 | result and all six flags of ADD, ADC, SBB, SUB and CMP are exact on unsigned and signed operands, with the carry only where they use it |
| `Alu.Unit.AdjustAfterAdd` | cpu.py:2521-2535 | DAA on AL and the flags, which leaves OF alone |
| `Alu.Unit.AdjustAfterSubtract` | cpu.py:2537-2552 | DAS likewise |
| `Alu.Unit.DecimalStep` | cpu.py:842-899 | one byte of a decimal sum or difference threads CF and AF through both instructions |
| `Alu.Unit.CompareAndJump` | cpu.py:2779-2806 | the jump is taken exactly when the compared operands stand in the order it asks for |
| `Alu.Unit.Shift` | cpu.py:4368-4487 | each operation of the register field computes what it is for, with the count reduced as the code does; OF says for one step whether the sign changed, is clear after several and kept after none; shifts set SF, ZF, PF, rotates do not |
| `Alu.Unit.Turns` | cpu.py:4413-4456 | the loop itself |
| `Alu.TimesShift` | cpu.py:4368-4456 | what n steps of each of the eight operations mean: turns of the ring, multiplication, division |
| `PlanarMemory.CopyIsMoves` | video.py:262-293 | the bulk copy equals the loop of byte reads and writes in write mode 1, planes and latches, downwards overlaps and a copy onto itself included |
| `PlanarMemory.OverlapRepeats` | video.py:277-278 | why a forward overlap is declined: the byte loop repeats the bytes between source and target |
| `PlanarMemory.FillIsStores` | video.py:295-316 | the bulk fill equals the loop of stores, whatever the data bytes |
| `PlanarPixels.LanesHoldPixels` | video.py:51-55 | byte k of a word assembled from the lane table is the colour of pixel k: no carry between lanes |
| `PlanarPixels.WritePlots` | video.py:191-257 | reading an address and writing to it plots the selected pixels in the pen's colour, combined by the logical function and limited to the mapped planes, and no other pixel of the byte, for every mode, rotation and mask |
| `PlanarPixels.CompareMarks` | video.py:197-204 | a colour-compare read marks exactly the pixels whose cared-for planes equal the compare colour |
| `PlanarPixels.ReadShows` | video.py:205 | any other read shows the plane of every pixel that the map select names |
| `PlanarPixels.RotationTurns` | video.py:219-222 | the data rotation moves every pixel of the data to the right, and round |
| `PlanarPixels.LogicalMeans` | video.py:228-236 | the logical functions pixel by pixel |
| `PlanarPixels.WriteMeans` | video.py:207-257 | every bit of every plane after a write, in terms of the numbered registers and the latches; no other address changes |
| `VideoAdapter.Video.Read` | video.py:191-205 | latches loaded from the address and the byte of the read mode; packed modes read one byte |
| `VideoAdapter.Video.Write` | video.py:207-257 | the write pipeline on all four planes, or one byte in packed modes |
| `VideoAdapter.Video.CopyMode1` | video.py:262-293 | it applies exactly under its guard; then planes and latches are those of the byte loop, otherwise nothing changes |
| `VideoAdapter.Video.FillMode1` | video.py:295-316 | likewise for the fill |
| `VideoAdapter.Video.Pixels` | video.py:329-363 | every pixel of the frame is the pixel at its place, for planar and packed modes |
| `PitChannel.Conserved` | hardware.py:761-780 | no clock is lost: ended periods and the running one add up to the clocks; the count stays between 1 and the reload value |
| `PitChannel.AdvanceIsClocks` | hardware.py:761-780 | counting by division is counting clock by clock |
| `PitChannel.AdvanceComposes` | hardware.py:761-780 | advancing twice is advancing once by the sum |
| `PitChannel.OutputWave` | hardware.py:742-759 | the output of a freshly loaded channel: high in the first half of each period, rounded up, in mode 3; low in the last clock of each in mode 2 |
| `PitChannel.FiresMeans` | hardware.py:761-780 | a channel fires exactly when it counts and the clocks reach the end of its count; one that stands still is low |
| `PitChannel.WriteLoadsWord` | hardware.py:676-717 | low byte then high byte loads the word with the second one and not before; zero stands for 65536 |
| `PitChannel.WriteLoadsByte` | hardware.py:684-694 | in the one-byte modes a byte replaces one half of the word and loads at once; a channel that was never programmed ignores it |
| `PitChannel.CommandMeans` | hardware.py:653-674 | the fields of the command byte and what each does |
| `PitChannel.LatchedRead` | hardware.py:719-733 | the two bytes of a latched count belong together, however the channel counts in between, and then the latch is free |
| `PitChannel.LatchStays` | hardware.py:719-733 | in the one-byte modes every read after a latch returns its byte, through any run of reads, clocks and further latch commands |
| `PitChannel.LatchIsRead` | hardware.py:719-733 | in the two-byte mode the next two bytes read are those of the latched count, through any such run |
| `PitChannel.UnlatchedRead` | hardware.py:719-733 | without a latch every read shows a byte of the count as it is then |
| `IntervalTimer.SlicingDoesNotMatter` | hardware.py:789-803 | over any slicing of time the timer has counted the whole clocks of the total, and keeps the fraction |
| `IntervalTimer.Pit.constructor` | hardware.py:632-651 | the power-on state of all three channels, no interrupt pending |
| `IntervalTimer.Pit.WriteCommand` | hardware.py:653-674 | the command reaches the channel its top bits name and no other |
| `IntervalTimer.Pit.LoadCount` | hardware.py:707-717 | a loaded count restarts the channel; channel 2 also drops its fraction |
| `IntervalTimer.Pit.WriteCounter` | hardware.py:676-705 | one data byte, for every access mode |
| `IntervalTimer.Pit.ReadCounter` | hardware.py:719-733 | one byte read, for every access mode |
| `IntervalTimer.Pit.AdvanceCounter` | hardware.py:761-780 | the count, the tick count of channel 0 and the pending interrupt after a number of clocks |
| `IntervalTimer.Pit.AdvanceChannel2` | hardware.py:782-787 | channel 2 advances by whole clocks of its own accumulated time; negative time counts as none |
| `IntervalTimer.Pit.Tick` | hardware.py:789-803 | channels 0 and 1 advance by the whole clocks of the accumulated time and those that ended a period are reported in order and marked pending |
| `Segments.Paragraphs` | bios.py:809 | a segment starts 16 bytes above the one before, segment 0 with the memory |
| `Segments.SameByte` | bios.py:809 | two segment:offset pairs name the same byte exactly when 16 times the segment plus the offset agree, or differ by 1 MiB |
| `Segments.AddressWraps` | bios.py:802-829 | in a memory of any size the chunked addresses are the wrapped ones modulo 1 MiB |
| `Segments.ChunksWrap` | bios.py:802-829 | in a memory of 1 MiB they are the wrapped ones |
| `Segments.LargeMemoryAddress` | bios.py:810-811 | in a larger one a byte is addressed as wrapped if and only if its chunk has not crossed 1 MiB |
| `Segments.StoredAt` | bios.py:802-814 | every byte of a buffer of up to 64 KiB arrives at its address |
| `Segments.StoredElsewhere` | bios.py:802-814 | no other address changes |
| `Segments.SegmentMemory.WriteBuffer` | bios.py:802-814 | the chunked copy terminates and equals storing byte by byte |
| `Segments.SegmentMemory.ReadBuffer` | bios.py:816-829 | the chunked read terminates and equals fetching byte by byte |
| `DiskService.LbaNamesOne` | bios.py:781-800 | a request in range names a sector inside the geometry, from which sector, head and cylinder can be told again |
| `DiskService.LbaInjective` | bios.py:781-800 | two requests for the same sector have the same registers |
| `DiskService.ParametersNameLast` | bios.py:959-978 | the parameters returned by function 08h address the very last sector |
| `DiskService.WrittenSectors` | bios.py:889-897 | a transfer changes exactly the addressed sectors, each to its stretch of memory |
| `DiskService.BufferWraps` | bios.py:857-864 | sector by sector the bytes of a transfer lie at the wrapped addresses modulo 1 MiB |
| `DiskService.ReadInByte` | bios.py:857-864 | reading brings byte i of the sectors to byte i of the buffer |
| `DiskService.ReadInElsewhere` | bios.py:857-864 | and changes no memory outside the buffer |
| `DiskService.WriteThenRead` | bios.py:843-904 | writing a buffer of up to 64 KiB and reading the sectors back, to any buffer, gives the same bytes |
| `DiskService.DiskBios.ReadSectors` | bios.py:843-871 | AX, carry and memory for a missing drive, a request out of range, a full and a partial transfer |
| `DiskService.DiskBios.WriteSectors` | bios.py:872-904 | AX, carry and disk for a missing or write-protected drive, a request out of range, a full and a partial transfer |

## Left out

- BPB parsing, the recovery of DOS 1.x layouts and `make_blank_image`: a valid layout and a mirrored FAT are taken as given. Sectors have 512 bytes.
- Sector buffers are passed by value to `Disk.ReadSector`; sharing a buffer with the caller is not modelled.
- File names are byte strings of printable ASCII; conversion from other characters is not modelled.
- FatVolumes.FatVolume.FollowChain: requires that the walk ends, because the code runs forever otherwise; `HaltsDecided` and `EmptyFileReads` say when it does.
- FatVolumes.FatVolume.WriteFile: requires a writable disk; on a read-only one the code reports success, changes its FAT cache and no sector. Also requires that the walk along the chain of a replaced entry ends; on a well-formed volume it does (`WriteOutcomes`). `PutRootEntry` and `DeleteFile` likewise.
- FatVolumes.FatVolume.ReadDir: requires that the walk ends, as does `ReadFile`.
- VolumeFiles.WriteIsUpdate: requires unique live names, which every operation keeps; a volume with two live entries of one name is not repaired by the code.
- HostBridge.BuildThenSync: requires that the root sectors hold the root entries and that the walk ends; conflict detection, hashing and writing to the host are left out.
- HostBridge.SyncRoot: requires a walk that ends and stays in the data area, as do `SyncDir` and `SyncEntry`; that a walk which raises half way leaves part of the host files written is not modelled.
- Names in a host tree must be unique for a host directory to hold them, also after trimming; the round trip does not need it.
- The two ways of reading a file (`read_file_clusters`, `load_to_memory`) add nothing to `ReadFile`.
- TerminalDecoder: the list of keys sorted by length is replaced by trying prefix lengths downwards; the Escape timer uses exact reals.
- CpuTasks.Cpu.DoTaskSwitch: selectors of 386 segments and of the local table are excluded, and the task switched away from has a 286 segment. Delivery of #GP is not modelled.
- CpuTasks.Cpu.LoadTaskState: does not model the refresh of the segment descriptor cache and the code base, because that looks into the local table.
- Task switches by jump and interrupt, the NT test of IRET at deeper nesting, 386 segments and selectors of the local table.
- The registers of a task are one field here; the code keeps fifteen attributes.
- Logical operations of the ALU, IMUL and the decoding of operands.
- The numpy form of `graphics_pixels`, word-wide moves in write mode 1, and the CPU's decision when to use the bulk forms. Frame widths are multiples of eight, as in every mode.
- Trace counters, dirty flags and cycle counts.
- IntervalTimer: time is an exact real, so rounding of host floats is not modelled.
- IntervalTimer.Pit.Tick: requires time that does not run backwards, as its callers pass it.
- Segments.ChunksWrap: memories between 1 MiB and 1 MiB + 64 KiB are covered by `AddressWraps` only.
- DiskService: the geometry of a drive is given; the table lookup by media byte, drive numbers, verify and format are left out.
- The keyboard controller, the interrupt controller, serial, sound and display: their invariants are short.
