/** The 1.44 MB floppy as `make_blank_image` formats it. */
module Floppy {
  import opened Bytes
  import opened FatCodec
  import opened FatTable
  import opened FatLayout
  import opened DosNames
  import opened Volumes
  import opened VolumeOps
  import opened VolumeTheorems
  import opened VolumeFiles

  const FLOPPY := Layout(Fat12, 1, 2, 9, 224, 2880, 1)

  /** The media byte and the reserved entry; every cluster is free. */
  function FloppyTable(): Table {
    seq(2849, i => if i == 0 then 0xF0 else if i == 1 then 0xFFF else 0)
  }

  /** A floppy with these root slots and nothing else. */
  function FloppyWith(slots: seq<Slot>): Volume {
    Volume(FloppyTable(), slots, seq(2849, _ => Zeros(512)))
  }

  function BlankFloppy(): Volume {
    FloppyWith(seq(224, _ => Zeros(32)))
  }

  lemma FloppyLayout()
    ensures FLOPPY.Valid() && FLOPPY.Limit() == 2849 && FLOPPY.ClusterSize() == 512 && FLOPPY.kind.Bad() == 0xFF7
  {
  }

  /** Its second FAT copy starts at sector 10, the root directory at sector 19, */
  lemma FloppyDirectory()
    ensures FLOPPY.CopyStart(1) == 10 && FLOPPY.RootStart() == 19
  {
  }

  /** and cluster 2 at sector 33. */
  lemma FloppyClusters()
    ensures FLOPPY.SectorOf(2) == 33
  {
  }

  lemma FloppySized(slots: seq<Slot>)
    requires |slots| == 224
    ensures Sized(FLOPPY, FloppyWith(slots))
  {
    hide Layout.Valid, Layout.Limit, Layout.ClusterSize;
    FloppyLayout();
  }

  /** Following "cluster 0" goes to the free cluster 0xF0 and back, and never ends. */
  lemma ZeroIsEndless()
    ensures !Halts(FloppyTable(), 0xFF7, 0) && !Followable(FLOPPY, FloppyTable(), 0)
  {
    ZeroLoops(FloppyTable(), 0xFF7, 0xF0, 2849);
  }

  lemma BlankIsTidy()
    ensures WF(FLOPPY, BlankFloppy()) && Tidy(BlankFloppy().slots) && NoneHolds(BlankFloppy().slots, Split83(UPPER_A))
  {
    hide NameOf, Split83;
    FloppySized(BlankFloppy().slots);
    assert forall i :: 0 <= i < 224 ==> BlankFloppy().slots[i] == Zeros(32);
  }

  /** On a blank floppy writing an empty file succeeds, and reading it never returns. */
  lemma EmptyFileIsWrittenNotRead()
    ensures var (outcome, v') := Write(FLOPPY, BlankFloppy(), UPPER_A, []);
      outcome.Written? && |v'.clusters| == |v'.table| && ReadByName(FLOPPY, v', UPPER_A) == Endless
  {
    hide WF, Tidy, Split83, Write, ReadByName, NoneHolds, FindTarget, Followable, FloppyTable, MakeDirEntry;
    BlankIsTidy();
    UpperASplit();
    BlankIsWritten();
    WrittenAndDeleted(FLOPPY, BlankFloppy(), UPPER_A, []);
    ZeroIsEndless();
  }

  lemma BlankIsWritten()
    ensures Sized(FLOPPY, BlankFloppy())
    ensures Write(FLOPPY, BlankFloppy(), UPPER_A, []).0.Written?
    ensures Write(FLOPPY, BlankFloppy(), UPPER_A, []).1.table == FloppyTable()
  {
    hide Split83, MakeDirEntry, FloppyTable, Layout.Valid;
    FloppySized(BlankFloppy().slots);
    assert BlankFloppy().slots[0] == Zeros(32);
  }
}
