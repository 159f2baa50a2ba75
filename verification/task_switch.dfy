/** Hardware task switches between 286 task-state segments (`cpu.py`), as
    functions on the registers and the memory, and what nesting promises. */
module TaskSwitch {
  import opened Bytes

  type Memory = seq<byte>

  /** The saved registers in the order of the TSS: IP, FLAGS, AX, CX, DX, BX, SP,
      BP, SI, DI, ES, CS, SS, DS, LDT. */
  type Registers = r: seq<word> | |r| == 15 witness seq(15, _ => 0)

  const IP := 0
  const FLAGS := 1
  const AX := 2
  const CX := 3
  const DX := 4
  const BX := 5
  const SP := 6
  const BP := 7
  const SI := 8
  const DI := 9
  const ES := 10
  const CS := 11
  const SS := 12
  const DS := 13
  const LDT := 14

  const SAVE_AREA := 0x0E
  const TSS_SIZE := 0x2C

  // ---- Words in memory ----

  function WordAt(m: Memory, a: nat): word
    requires a + 1 < |m|
  {
    Le16(m, a)
  }

  function PutWord(m: Memory, a: nat, v: word): (r: Memory)
    requires a + 1 < |m|
    ensures |r| == |m| && WordAt(r, a) == v
    ensures forall i :: 0 <= i < |m| && i != a && i != a + 1 ==> r[i] == m[i]
  {
    m[a := v % 0x100][a + 1 := v / 0x100]
  }

  /** The first n words of ws stored from address a on. */
  function PutWords(m: Memory, a: nat, ws: seq<word>, n: nat): (r: Memory)
    requires n <= |ws| && a + 2 * n <= |m|
    ensures |r| == |m|
    ensures forall i :: 0 <= i < |m| && !(a <= i < a + 2 * n) ==> r[i] == m[i]
    ensures forall j :: 0 <= j < n ==> WordAt(r, a + 2 * j) == ws[j]
  {
    if n == 0 then m
    else
      var front := PutWords(m, a, ws, n - 1);
      var r := PutWord(front, a + 2 * (n - 1), ws[n - 1]);
      assert forall j :: 0 <= j < n - 1 ==> WordAt(r, a + 2 * j) == WordAt(front, a + 2 * j);
      r
  }

  // ---- Descriptors ----

  /** The descriptor table register. */
  datatype Gdt = Gdt(base: nat, limit: nat) {
    function Entry(index: nat): nat { base + index * 8 }

    predicate Holds(index: nat) { index * 8 + 7 <= limit }
  }

  datatype Descriptor = Descriptor(base: nat, limit: nat, access: byte, address: nat)

  function Bit(n: nat, b: nat): bool
    requires b > 0
  {
    n / b % 2 == 1
  }

  function WithBit(n: nat, b: nat): nat
    requires b > 0
  {
    if Bit(n, b) then n else n + b
  }

  function WithoutBit(n: nat, b: nat): nat
    requires b > 0
  {
    if Bit(n, b) && n >= b then n - b else n
  }

  const PRESENT := 0x80
  const BUSY := 0x02
  const NT := 0x4000

  function SelectorIndex(sel: word): nat { sel / 8 }

  predicate LocalTable(sel: word) { Bit(sel, 4) }

  /** `_peek_descriptor_for` for selectors of the global table; local-table
      selectors are not part of this model. */
  function Peek(g: Gdt, m: Memory, sel: word): Option<Descriptor>
    requires g.base + g.limit < |m|
  {
    if sel / 4 == 0 || LocalTable(sel) || !g.Holds(SelectorIndex(sel)) then None
    else
      var a := g.Entry(SelectorIndex(sel));
      if !Bit(m[a + 5], PRESENT) then None
      else
        var b0: int, b1: int, b6: int := m[a], m[a + 1], m[a + 6];
        var low := b0 + 0x100 * b1 + 0x1_0000 * (b6 % 0x10);
        var limit := if Bit(m[a + 6], 0x80) then low * 0x1000 + 0xFFF else low;
        Some(Descriptor(DescriptorBase(m, a), limit, m[a + 5], a))
  }

  function DescriptorBase(m: Memory, a: nat): nat
    requires a + 7 < |m|
  {
    var b2: int, b3: int, b4: int, b7: int := m[a + 2], m[a + 3], m[a + 4], m[a + 7];
    b2 + 0x100 * b3 + 0x1_0000 * b4 + 0x100_0000 * b7
  }

  /** The type field of an access byte. */
  function TypeOf(access: byte): nat { access % 0x20 }

  function Privilege(access: byte): nat { access / 0x20 % 4 }

  /** `_set_tss_busy` on memory. */
  function SetBusy(g: Gdt, m: Memory, sel: word, busy: bool): (r: Memory)
    requires g.base + g.limit < |m|
    ensures |r| == |m|
  {
    match Peek(g, m, sel)
    case None => m
    case Some(d) =>
      var a: int := d.access;
      m[d.address + 5 := (if busy then WithBit(a, BUSY) else WithoutBit(a, BUSY)) % 0x100]
  }

  // ---- The switch ----

  datatype State = State(regs: Registers, cpl: nat, tr: word, mem: Memory)

  /** A switch, a #GP that leaves everything as it was, or a #GP raised half way, with
      the new task entered but its LDT selector refused. */
  datatype Outcome = Switched(state: State) | Fault(code: nat) | HalfSwitched(state: State, code: nat)

  datatype Source = Call | Iret

  function BaseOf(g: Gdt, m: Memory, sel: word): nat
    requires g.base + g.limit < |m|
  {
    match Peek(g, m, sel) case None => 0 case Some(d) => d.base
  }

  /** The TSS of a selector lies in memory. */
  predicate InMemory(g: Gdt, m: Memory, sel: word)
    requires g.base + g.limit < |m|
  {
    BaseOf(g, m, sel) + TSS_SIZE <= |m|
  }

  function SavedRegisters(m: Memory, base: nat): Registers
    requires base + TSS_SIZE <= |m|
  {
    seq(15, j requires 0 <= j < 15 => WordAt(m, base + SAVE_AREA + 2 * j))
  }

  /** `_load_task_state`: the registers of a TSS, with the always-set flag bit. */
  function LoadedRegisters(m: Memory, base: nat): Registers
    requires base + TSS_SIZE <= |m|
  {
    var r := SavedRegisters(m, base);
    r[FLAGS := WithBit(r[FLAGS], 2) % 0x1_0000]
  }

  /** 386 segments are entered too, in another format that is not modelled. */
  predicate Names386(g: Gdt, m: Memory, sel: word)
    requires g.base + g.limit < |m|
  {
    match Peek(g, m, sel) case None => false case Some(d) => TypeOf(d.access) in {9, 0xB}
  }

  /** Why `_do_task_switch` raises #GP for a selector that names no 386 segment, if it
      does. */
  predicate Refused(g: Gdt, s: State, sel: word, source: Source)
    requires g.base + g.limit < |s.mem|
  {
    match Peek(g, s.mem, sel)
    case None => true
    case Some(d) =>
      || TypeOf(d.access) !in {1, 3}
      || (source == Call
          && (TypeOf(d.access) == 3 || Privilege(d.access) < (if s.cpl > sel % 4 then s.cpl else sel % 4)))
  }

  /** The memory after the outgoing task is saved and, for a return, freed. */
  function LeftMemory(g: Gdt, s: State, source: Source): (m: Memory)
    requires g.base + g.limit < |s.mem| && InMemory(g, s.mem, s.tr)
    ensures |m| == |s.mem|
  {
    var saved := PutWords(s.mem, BaseOf(g, s.mem, s.tr) + SAVE_AREA, s.regs, 15);
    if source == Iret then SetBusy(g, saved, s.tr, false) else saved
  }

  /** The memory after the incoming task is marked busy as well. */
  function SwitchedMemory(g: Gdt, s: State, sel: word, source: Source): (m: Memory)
    requires g.base + g.limit < |s.mem| && InMemory(g, s.mem, s.tr)
    ensures |m| == |s.mem|
  {
    SetBusy(g, LeftMemory(g, s, source), sel, true)
  }

  /** A loaded LDT selector must be null or name an LDT descriptor. */
  predicate LdtOk(g: Gdt, m: Memory, ldt: word)
    requires g.base + g.limit < |m|
  {
    ldt / 4 == 0 || (Peek(g, m, ldt).Some? && TypeOf(Peek(g, m, ldt).value.access) == 2)
  }

  /** `_do_task_switch` between 286 TSSs. A call leaves the old task busy, links
      the new one back to it and sets NT; a return frees the old task and clears NT. */
  function Switch(g: Gdt, s: State, sel: word, source: Source): Outcome
    requires g.base + g.limit < |s.mem| && InMemory(g, s.mem, s.tr) && InMemory(g, s.mem, sel)
  {
    if Refused(g, s, sel, source) then Fault(sel - sel % 4)
    else
      var m := SwitchedMemory(g, s, sel, source);
      var base := BaseOf(g, s.mem, sel);
      var r := LoadedRegisters(m, base);
      if !LdtOk(g, m, r[LDT]) then
        HalfSwitched(State(r[LDT := s.regs[LDT]], s.cpl, sel, m), r[LDT] - r[LDT] % 4)
      else
        var m' := if source == Call then PutWord(m, base, s.tr) else m;
        var flags := if source == Call then WithBit(r[FLAGS], NT) else WithoutBit(r[FLAGS], NT);
        Switched(State(r[FLAGS := flags % 0x1_0000], r[CS] % 4, sel, m'))
  }

  // ---- Well-formed task systems ----

  predicate InTss(base: nat, a: nat) {
    base <= a < base + TSS_SIZE
  }

  function TssBase(g: Gdt, m: Memory, i: nat): nat
    requires g.base + g.limit < |m| && g.Holds(i)
  {
    DescriptorBase(m, g.Entry(i))
  }

  function AccessOf(g: Gdt, m: Memory, i: nat): byte
    requires g.base + g.limit < |m| && g.Holds(i)
  {
    m[g.Entry(i) + 5]
  }

  /** The entries of `tasks` describe present 286 TSSs that overlap neither each
      other nor the descriptor table. */
  ghost predicate Tasks(g: Gdt, m: Memory, tasks: set<nat>) {
    && g.base + g.limit < |m|
    && (forall i :: i in tasks ==>
          && 1 <= i < 0x2000 && g.Holds(i) && Bit(AccessOf(g, m, i), PRESENT) && TypeOf(AccessOf(g, m, i)) in {1, 3}
          && TssBase(g, m, i) + TSS_SIZE <= |m|
          && (TssBase(g, m, i) + TSS_SIZE <= g.base || g.base + g.limit < TssBase(g, m, i)))
    && (forall i, j :: i in tasks && j in tasks && i != j ==>
          TssBase(g, m, i) + TSS_SIZE <= TssBase(g, m, j) || TssBase(g, m, j) + TSS_SIZE <= TssBase(g, m, i))
  }

  ghost predicate IsBusy(g: Gdt, m: Memory, i: nat)
    requires g.base + g.limit < |m| && g.Holds(i)
  {
    TypeOf(AccessOf(g, m, i)) == 3
  }

  function BackLink(g: Gdt, m: Memory, i: nat): word
    requires g.base + g.limit < |m| && g.Holds(i) && TssBase(g, m, i) + TSS_SIZE <= |m|
  {
    WordAt(m, TssBase(g, m, i))
  }
}
