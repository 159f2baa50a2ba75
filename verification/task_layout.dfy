/** The formats behind a task switch: descriptors of eight bytes and task-state segments
    of 44, as the 286 lays them out, and what a switch reads from them and writes to them. */
module TaskLayout {
  import opened Bytes
  import opened TaskSwitch
  import opened TaskNesting

  // ---- Descriptors ----

  /** The eight bytes of a descriptor: the base is in bytes 2, 3, 4 and 7, the limit in
      bytes 0 and 1 and the low half of byte 6, whose high half is `flags`. */
  function DescriptorBytes(base: nat, limit: nat, access: byte, flags: nat): (r: seq<byte>)
    requires base < 0x1_0000_0000 && limit < 0x10_0000 && flags < 0x10
    ensures |r| == 8
  {
    var b := ToLe32(base);
    ToLe16(limit) + b[..3] + [access, limit / 0x1_0000 + 0x10 * flags, b[3]]
  }

  /** A selector of the global table. */
  function Selector(index: nat, rpl: nat): word
    requires index < 0x2000 && rpl < 4
  {
    8 * index + rpl
  }

  lemma SelectorParts(index: nat, rpl: nat)
    requires index < 0x2000 && rpl < 4
    ensures var sel := Selector(index, rpl);
      sel % 4 == rpl && sel / 4 == 2 * index && SelectorIndex(sel) == index && !LocalTable(sel)
  {
    DivModUnique(8 * index + rpl, 4, 2 * index, rpl);
    DivModUnique(8 * index + rpl, 8, index, rpl);
  }

  lemma LimitByte(high: nat, flags: nat)
    requires high < 0x10 && flags < 0x10
    ensures (high + 0x10 * flags) % 0x10 == high && (Bit(high + 0x10 * flags, 0x80) <==> flags >= 8)
  {
    DivModUnique(high + 0x10 * flags, 0x10, flags, high);
    DivModUnique(high + 0x10 * flags, 0x80, flags / 8, high + 0x10 * (flags % 8));
  }

  lemma BaseDigits(b: seq<byte>)
    requires |b| == 4
    ensures var b0: int, b1: int, b2: int, b3: int := b[0], b[1], b[2], b[3];
      Le32(b, 0) == b0 + 0x100 * b1 + 0x1_0000 * b2 + 0x100_0000 * b3
  {
  }

  lemma LimitDigits(limit: nat)
    requires limit < 0x10_0000
    ensures var b := ToLe16(limit);
      var b0: int, b1: int := b[0], b[1];
      b0 + 0x100 * b1 + 0x1_0000 * (limit / 0x1_0000) == limit
  {
    assert Le16(ToLe16(limit), 0) == limit % 0x1_0000;
  }

  /** A descriptor is found exactly when its selector is not null, the table reaches to
      its last byte and it is present. Then it has the base, the limit, counted in pages
      of 4 KiB if the top flag says so, and the access byte that were encoded. */
  lemma PeekDecodes(g: Gdt, m: Memory, index: nat, rpl: nat, base: nat, limit: nat, access: byte, flags: nat)
    requires g.base + g.limit < |m| && index < 0x2000 && rpl < 4
    requires base < 0x1_0000_0000 && limit < 0x10_0000 && flags < 0x10
    requires var a := g.base + 8 * index;
      8 * index + 7 <= g.limit ==> m[a..a + 8] == DescriptorBytes(base, limit, access, flags)
    ensures Peek(g, m, Selector(index, rpl)) ==
      if index == 0 || 8 * index + 7 > g.limit || access < 0x80 then None
      else Some(Descriptor(base, if flags >= 8 then 0x1000 * limit + 0xFFF else limit, access, g.base + 8 * index))
  {
    SelectorParts(index, rpl);
    if 0 < index && 8 * index + 7 <= g.limit {
      var a := g.base + 8 * index;
      var raw := m[a..a + 8];
      assert m[a] == raw[0] && m[a + 1] == raw[1] && m[a + 2] == raw[2] && m[a + 3] == raw[3] && m[a + 4] == raw[4] &&
             m[a + 5] == raw[5] && m[a + 6] == raw[6] && m[a + 7] == raw[7];
      BaseDigits(ToLe32(base));
      LimitDigits(limit);
      LimitByte(limit / 0x1_0000, flags);
    }
  }

  /** An access byte of a present descriptor: its privilege level and its type. */
  function Access(dpl: nat, kind: nat): byte
    requires dpl < 4 && kind < 0x20
  {
    0x80 + 0x20 * dpl + kind
  }

  lemma AccessFields(dpl: nat, kind: nat)
    requires dpl < 4 && kind < 0x20
    ensures Privilege(Access(dpl, kind)) == dpl && TypeOf(Access(dpl, kind)) == kind
  {
    DivModUnique(0x80 + 0x20 * dpl + kind, 0x20, 4 + dpl, kind);
  }

  /** When a switch to a segment is refused: a return to anything but a 286 segment, a
      call to anything but one that is not busy and whose privilege level suffices for the
      caller and for the selector. */
  lemma RefusedMeans(g: Gdt, s: State, sel: word, source: Source, dpl: nat, kind: nat)
    requires g.base + g.limit < |s.mem| && dpl < 4 && kind < 0x20
    requires Peek(g, s.mem, sel).Some? && Peek(g, s.mem, sel).value.access == Access(dpl, kind)
    ensures Refused(g, s, sel, source) <==>
      match source
      case Iret => kind != 1 && kind != 3
      case Call => kind != 1 || dpl < s.cpl || dpl < sel % 4
    ensures LdtOk(g, s.mem, sel) <==> kind == 2
  {
    hide Peek, TypeOf, Privilege, LocalTable;
    AccessFields(dpl, kind);
    PeekIsNotNull(g, s.mem, sel);
  }

  lemma PeekIsNotNull(g: Gdt, m: Memory, sel: word)
    requires g.base + g.limit < |m|
    ensures Peek(g, m, sel).Some? ==> sel / 4 != 0
  {
  }

  /** So is every switch to a selector without a descriptor. As the LDT only a null
      selector of that kind is accepted. */
  lemma NothingIsRefused(g: Gdt, s: State, sel: word, source: Source)
    requires g.base + g.limit < |s.mem| && Peek(g, s.mem, sel).None?
    ensures Refused(g, s, sel, source)
    ensures LdtOk(g, s.mem, sel) <==> sel < 4
  {
  }

  // ---- Task-state segments ----

  /** A segment at `base` holds these registers. */
  ghost predicate HoldsState(m: Memory, base: nat, r: Registers)
    requires base + TSS_SIZE <= |m|
  {
    && WordAt(m, base + 0x0E) == r[IP] && WordAt(m, base + 0x10) == r[FLAGS]
    && WordAt(m, base + 0x12) == r[AX] && WordAt(m, base + 0x14) == r[CX]
    && WordAt(m, base + 0x16) == r[DX] && WordAt(m, base + 0x18) == r[BX]
    && WordAt(m, base + 0x1A) == r[SP] && WordAt(m, base + 0x1C) == r[BP]
    && WordAt(m, base + 0x1E) == r[SI] && WordAt(m, base + 0x20) == r[DI]
    && WordAt(m, base + 0x22) == r[ES] && WordAt(m, base + 0x24) == r[CS]
    && WordAt(m, base + 0x26) == r[SS] && WordAt(m, base + 0x28) == r[DS]
    && WordAt(m, base + 0x2A) == r[LDT]
  }

  lemma SavedAreHeld(m: Memory, base: nat)
    requires base + TSS_SIZE <= |m|
    ensures HoldsState(m, base, SavedRegisters(m, base))
    ensures SavedRegisters(m, base)[FLAGS] == WordAt(m, base + 0x10)
  {
    hide WordAt;
  }

  lemma HeldExceptFlags(m: Memory, base: nat, r: Registers)
    requires base + TSS_SIZE <= |m| && forall j :: 0 <= j < 15 && j != FLAGS ==> r[j] == SavedRegisters(m, base)[j]
    ensures HoldsState(m, base, r[FLAGS := WordAt(m, base + 0x10)])
    ensures SavedRegisters(m, base)[FLAGS] == WordAt(m, base + 0x10)
  {
    hide WordAt;
    SavedAreHeld(m, base);
  }

  /** The arithmetic on single bits is the source's masking, for the flags a switch sets
      and clears. */
  lemma MasksSet(x: bv16)
    ensures x | 0x0002 == (if x / 0x0002 % 2 == 1 then x else x + 0x0002)
    ensures x | 0x4000 == (if x / 0x4000 % 2 == 1 then x else x + 0x4000)
  {
  }

  lemma MasksClear(x: bv16)
    ensures x & 0xBFFF == (if x / 0x4000 % 2 == 1 then x - 0x4000 else x)
  {
  }

  lemma FlagsFit(w: word)
    ensures WithBit(w, 0x0002) < 0x1_0000 && WithBit(w, 0x4000) < 0x1_0000 && WithoutBit(w, 0x4000) < 0x1_0000
  {
  }

  /** Two different tasks, of which the first is the current one. */
  ghost predicate TwoTasks(g: Gdt, s: State, tasks: set<nat>, sel: word) {
    && Tasks(g, s.mem, tasks)
    && SelectorIndex(s.tr) in tasks && !LocalTable(s.tr) && InMemory(g, s.mem, s.tr)
    && SelectorIndex(sel) in tasks && !LocalTable(sel) && InMemory(g, s.mem, sel)
    && SelectorIndex(sel) != SelectorIndex(s.tr)
  }

  /** The memory of a switch, as seen from its two tasks. */
  lemma TwoSegments(g: Gdt, s: State, tasks: set<nat>, sel: word, source: Source)
    requires TwoTasks(g, s, tasks, sel)
    ensures var m, from, to := SwitchedMemory(g, s, sel, source), BaseOf(g, s.mem, s.tr), BaseOf(g, s.mem, sel);
      && from + TSS_SIZE <= |m| && to + TSS_SIZE <= |m|
      && SavedRegisters(m, from) == s.regs && SavedRegisters(m, to) == SavedRegisters(s.mem, to)
      && WordAt(m, from) == WordAt(s.mem, from) && WordAt(m, to) == WordAt(s.mem, to)
      && var m' := PutWord(m, to, s.tr);
      && SavedRegisters(m', from) == s.regs && WordAt(m', from) == WordAt(s.mem, from)
  {
    hide TypeOf, Bit, AccessOf, SwitchedMemory, LdtOk, Peek, SavedRegisters, PutWord;
    PeekTask(g, s.mem, tasks, s.tr);
    PeekTask(g, s.mem, tasks, sel);
    SwitchedView(g, s, tasks, sel, source);
    LinkFrame(g, SwitchedMemory(g, s, sel, source), tasks, SelectorIndex(sel), s.tr);
  }

  /** The segment of the old task, at `from`, holds its registers; the new registers are
      those the segment at `to` held, with the always-set flag and with NT set by a call
      and cleared by a return. A call leaves the selector of the old task in the first word
      of the new segment; a return changes neither of the two links. */
  ghost predicate Moved(s: State, s': State, from: nat, to: nat, source: Source) {
    && from + TSS_SIZE <= |s.mem| && to + TSS_SIZE <= |s.mem| && |s'.mem| == |s.mem|
    && HoldsState(s'.mem, from, s.regs) && HoldsState(s.mem, to, s'.regs[FLAGS := WordAt(s.mem, to + 0x10)])
    && s'.cpl == s'.regs[CS] % 4
    && WordAt(s'.mem, from) == WordAt(s.mem, from)
    && WordAt(s'.mem, to) == (if source == Call then s.tr else WordAt(s.mem, to))
    && var flags := WithBit(WordAt(s.mem, to + 0x10), 0x0002);
    && s'.regs[FLAGS] == (if source == Call then WithBit(flags, 0x4000) else WithoutBit(flags, 0x4000))
  }

  /** The new registers and memory, before they are read by offset. */
  lemma SwitchParts(g: Gdt, s: State, tasks: set<nat>, sel: word, source: Source)
    requires TwoTasks(g, s, tasks, sel) && Switch(g, s, sel, source).Switched?
    ensures BaseOf(g, s.mem, sel) + TSS_SIZE <= |s.mem|
    ensures var s', to := Switch(g, s, sel, source).state, BaseOf(g, s.mem, sel);
      var m, r := SwitchedMemory(g, s, sel, source), SavedRegisters(s.mem, to);
      && s'.mem == (if source == Call then PutWord(m, to, s.tr) else m) && s'.tr == sel && s'.cpl == r[CS] % 4
      && var flags := WithBit(r[FLAGS], 0x0002);
      && s'.regs[FLAGS] == (if source == Call then WithBit(flags, 0x4000) else WithoutBit(flags, 0x4000))
      && forall j :: 0 <= j < 15 && j != FLAGS ==> s'.regs[j] == r[j]
  {
    hide TypeOf, Bit, SwitchedMemory, LdtOk, Peek, Refused, SavedRegisters, PutWord, WithBit, WithoutBit, LocalTable,
         BaseOf;
    var r := SavedRegisters(s.mem, BaseOf(g, s.mem, sel));
    TwoSegments(g, s, tasks, sel, source);
    FlagsFit(r[FLAGS]);
    FlagsFit(WithBit(r[FLAGS], 0x0002));
  }

  /** What a switch between two tasks moves. */
  lemma SwitchMoves(g: Gdt, s: State, tasks: set<nat>, sel: word, source: Source)
    requires TwoTasks(g, s, tasks, sel)
    requires Switch(g, s, sel, source).Switched?
    ensures Moved(s, Switch(g, s, sel, source).state, BaseOf(g, s.mem, s.tr), BaseOf(g, s.mem, sel), source)
    ensures Switch(g, s, sel, source).state.tr == sel
  {
    hide TypeOf, Bit, SwitchedMemory, LdtOk, Peek, Refused, SavedRegisters, PutWord, HoldsState, WithBit, WithoutBit,
         LocalTable, BaseOf, Switch;
    var from, to, s' := BaseOf(g, s.mem, s.tr), BaseOf(g, s.mem, sel), Switch(g, s, sel, source).state;
    TwoSegments(g, s, tasks, sel, source);
    SwitchParts(g, s, tasks, sel, source);
    SavedAreHeld(s'.mem, from);
    HeldExceptFlags(s.mem, to, s'.regs);
  }

  /** The old task is saved, and all of the new one but its LDT and privilege is loaded. */
  ghost predicate Stuck(g: Gdt, s: State, s': State, from: nat, to: nat, code: nat) {
    && from + TSS_SIZE <= |s.mem| && to + TSS_SIZE <= |s.mem| && |s'.mem| == |s.mem| && g.base + g.limit < |s.mem|
    && HoldsState(s'.mem, from, s.regs)
    && var ldt := WordAt(s.mem, to + 0x2A);
    && !LdtOk(g, s'.mem, ldt) && code == 4 * (ldt / 4)
    && HoldsState(s.mem, to, s'.regs[FLAGS := WordAt(s.mem, to + 0x10)][LDT := ldt])
    && s'.regs[FLAGS] == WithBit(WordAt(s.mem, to + 0x10), 0x0002)
    && s'.regs[LDT] == s.regs[LDT] && s'.cpl == s.cpl
  }

  /** How a switch fails: before anything has changed, with the selector of the segment
      as error code, or with that of the new LDT, when the old task is saved and all of
      the new one but its LDT is loaded. */
  lemma SwitchFails(g: Gdt, s: State, tasks: set<nat>, sel: word, source: Source)
    requires TwoTasks(g, s, tasks, sel)
    ensures match Switch(g, s, sel, source)
      case Fault(code) => Refused(g, s, sel, source) && code == 4 * (sel / 4)
      case HalfSwitched(s', code) =>
        !Refused(g, s, sel, source) && s'.tr == sel &&
        Stuck(g, s, s', BaseOf(g, s.mem, s.tr), BaseOf(g, s.mem, sel), code)
      case Switched(_) => !Refused(g, s, sel, source)
  {
    hide TypeOf, Bit, SwitchedMemory, LdtOk, Peek, Refused, SavedRegisters, PutWord, HoldsState, WithBit, WithoutBit,
         LocalTable, BaseOf;
    var from, to := BaseOf(g, s.mem, s.tr), BaseOf(g, s.mem, sel);
    TwoSegments(g, s, tasks, sel, source);
    LdtWord(s.mem, to);
    FlagsFit(WordAt(s.mem, to + 0x10));
    var outcome := Switch(g, s, sel, source);
    if outcome.HalfSwitched? {
      SavedAreHeld(outcome.state.mem, from);
      HeldExceptFlags(s.mem, to, outcome.state.regs[LDT := WordAt(s.mem, to + 0x2A)]);
      assert outcome.state.regs[LDT := WordAt(s.mem, to + 0x2A)][FLAGS := WordAt(s.mem, to + 0x10)] ==
             outcome.state.regs[FLAGS := WordAt(s.mem, to + 0x10)][LDT := WordAt(s.mem, to + 0x2A)];
    }
  }

  lemma LdtWord(m: Memory, base: nat)
    requires base + TSS_SIZE <= |m|
    ensures SavedRegisters(m, base)[LDT] == WordAt(m, base + 0x2A)
  {
    hide WordAt;
  }
}
