/** Nested tasks: over every run of calls and returns the busy segments are the
    nesting stack, and returning restores the registers of the caller. */
module TaskNesting {
  import opened Bytes
  import opened TaskSwitch

  // ---- What each write leaves alone ----

  ghost predicate SameTss(g: Gdt, m: Memory, m': Memory, i: nat)
    requires g.base + g.limit < |m| == |m'| && g.Holds(i) && TssBase(g, m, i) + TSS_SIZE <= |m|
  {
    && TssBase(g, m', i) == TssBase(g, m, i)
    && BackLink(g, m', i) == BackLink(g, m, i)
    && SavedRegisters(m', TssBase(g, m, i)) == SavedRegisters(m, TssBase(g, m, i))
  }

  /** The LDT selectors accepted in m are accepted in m'. */
  ghost predicate SameLdts(g: Gdt, m: Memory, m': Memory)
    requires g.base + g.limit < |m| == |m'|
  {
    forall ldt: word :: LdtOk(g, m, ldt) ==> LdtOk(g, m', ldt)
  }

  ghost predicate SameTable(g: Gdt, m: Memory, m': Memory) {
    |m| == |m'| && g.base + g.limit < |m| && forall a :: g.base <= a <= g.base + g.limit ==> m'[a] == m[a]
  }

  lemma TableFrame(g: Gdt, m: Memory, m': Memory, tasks: set<nat>)
    requires Tasks(g, m, tasks) && SameTable(g, m, m')
    ensures Tasks(g, m', tasks) && SameLdts(g, m, m')
    ensures forall i :: i in tasks ==> TssBase(g, m', i) == TssBase(g, m, i) && AccessOf(g, m', i) == AccessOf(g, m, i)
  {
    forall i: nat | g.Holds(i)
      ensures TssBase(g, m', i) == TssBase(g, m, i) && AccessOf(g, m', i) == AccessOf(g, m, i)
    {
    }
    forall sel: word
      ensures Peek(g, m', sel) == Peek(g, m, sel)
    {
    }
  }

  lemma TssFrame(g: Gdt, m: Memory, m': Memory, i: nat)
    requires g.base + g.limit < |m| == |m'| && g.Holds(i) && TssBase(g, m, i) + TSS_SIZE <= |m|
    requires TssBase(g, m', i) == TssBase(g, m, i)
    requires forall a: nat :: InTss(TssBase(g, m, i), a) ==> m'[a] == m[a]
    ensures SameTss(g, m, m', i)
  {
  }

  /** Saving the registers of task i. */
  lemma SaveFrame(g: Gdt, m: Memory, tasks: set<nat>, i: nat, ws: Registers)
    requires Tasks(g, m, tasks) && i in tasks
    ensures var m' := PutWords(m, TssBase(g, m, i) + SAVE_AREA, ws, 15);
      && Tasks(g, m', tasks) && SameLdts(g, m, m')
      && (forall j :: j in tasks ==> AccessOf(g, m', j) == AccessOf(g, m, j) && TssBase(g, m', j) == TssBase(g, m, j))
      && (forall j :: j in tasks && j != i ==> SameTss(g, m, m', j))
      && BackLink(g, m', i) == BackLink(g, m, i) && SavedRegisters(m', TssBase(g, m, i)) == ws
  {
    var m' := PutWords(m, TssBase(g, m, i) + SAVE_AREA, ws, 15);
    TableFrame(g, m, m', tasks);
    forall j | j in tasks && j != i
      ensures SameTss(g, m, m', j)
    {
      TssFrame(g, m, m', j);
    }
  }

  /** Linking task i back to another. */
  lemma LinkFrame(g: Gdt, m: Memory, tasks: set<nat>, i: nat, v: word)
    requires Tasks(g, m, tasks) && i in tasks
    ensures var m' := PutWord(m, TssBase(g, m, i), v);
      && Tasks(g, m', tasks) && SameLdts(g, m, m')
      && (forall j :: j in tasks ==> AccessOf(g, m', j) == AccessOf(g, m, j) && TssBase(g, m', j) == TssBase(g, m, j))
      && (forall j :: j in tasks && j != i ==> SameTss(g, m, m', j))
      && BackLink(g, m', i) == v && SavedRegisters(m', TssBase(g, m, i)) == SavedRegisters(m, TssBase(g, m, i))
  {
    var m' := PutWord(m, TssBase(g, m, i), v);
    TableFrame(g, m, m', tasks);
    forall j | j in tasks && j != i
      ensures SameTss(g, m, m', j)
    {
      TssFrame(g, m, m', j);
    }
  }

  lemma AccessParts(q: nat, t: nat)
    requires t < 32
    ensures (32 * q + t) / 0x80 == q / 4 && (32 * q + t) % 0x20 == t && (32 * q + t) / 2 == 16 * q + t / 2
  {
    assert q == 4 * (q / 4) + q % 4;
    DivModUnique(32 * q + t, 0x80, q / 4, 32 * (q % 4) + t);
    DivModUnique(32 * q + t, 0x20, q, t);
    DivModUnique(32 * q + t, 2, 16 * q + t / 2, t % 2);
  }

  /** The access byte of a present 286 TSS with its busy bit set or cleared. */
  lemma BusyBit(access: byte)
    requires TypeOf(access) in {1, 3}
    ensures var on, off := WithBit(access, BUSY), WithoutBit(access, BUSY);
      && on < 0x100 && TypeOf(on % 0x100) == 3 && Bit(on % 0x100, PRESENT) == Bit(access, PRESENT)
      && off < 0x100 && TypeOf(off % 0x100) == 1 && Bit(off % 0x100, PRESENT) == Bit(access, PRESENT)
  {
    hide Bit, WithBit, WithoutBit;
    var q, t := access / 32, access % 32;
    OnAndOff(q, t);
    AccessParts(q, 1);
    AccessParts(q, 3);
    assert access == 32 * q + t;
  }

  lemma OnAndOff(q: nat, t: nat)
    requires t in {1, 3}
    ensures WithBit(32 * q + t, BUSY) == 32 * q + 3 && WithoutBit(32 * q + t, BUSY) == 32 * q + 1
    ensures Bit(32 * q + 1, PRESENT) == Bit(32 * q + t, PRESENT) == Bit(32 * q + 3, PRESENT)
  {
    AccessParts(q, t);
    AccessParts(q, 1);
    AccessParts(q, 3);
    assert (16 * q + t / 2) % 2 == t / 2;
  }

  /** The one byte that the busy bit is in. */
  lemma BusyShape(g: Gdt, m: Memory, tasks: set<nat>, sel: word, busy: bool)
    requires Tasks(g, m, tasks) && SelectorIndex(sel) in tasks && !LocalTable(sel)
    ensures var m', i := SetBusy(g, m, sel, busy), SelectorIndex(sel);
      && (forall b :: 0 <= b < |m| && b != g.Entry(i) + 5 ==> m'[b] == m[b])
      && TypeOf(AccessOf(g, m', i)) == (if busy then 3 else 1) && Bit(AccessOf(g, m', i), PRESENT)
  {
    hide TssBase, WithBit, WithoutBit, TypeOf;
    assert sel / 4 != 0;
    BusyBit(m[g.Entry(SelectorIndex(sel)) + 5]);
  }

  /** Setting or clearing the busy bit of task i. */
  lemma BusyFrame(g: Gdt, m: Memory, tasks: set<nat>, sel: word, busy: bool)
    requires Tasks(g, m, tasks) && SelectorIndex(sel) in tasks && !LocalTable(sel)
    ensures var m' := SetBusy(g, m, sel, busy);
      && Tasks(g, m', tasks) && SameLdts(g, m, m')
      && IsBusy(g, m', SelectorIndex(sel)) == busy
      && (forall j :: j in tasks ==> SameTss(g, m, m', j))
      && (forall j :: j in tasks && j != SelectorIndex(sel) ==> AccessOf(g, m', j) == AccessOf(g, m, j))
  {
    hide SetBusy, TypeOf, Bit, BackLink, SavedRegisters, SameLdts;
    var i, m' := SelectorIndex(sel), SetBusy(g, m, sel, busy);
    BusyShape(g, m, tasks, sel, busy);
    forall j: nat | g.Holds(j)
      ensures TssBase(g, m', j) == TssBase(g, m, j) && (j != i ==> AccessOf(g, m', j) == AccessOf(g, m, j))
    {
    }
    forall j | j in tasks
      ensures SameTss(g, m, m', j)
    {
      TssFrame(g, m, m', j);
    }
    LdtsKept(g, m, m', i);
  }

  /** No LDT descriptor is where a task has its own. */
  lemma LdtsKept(g: Gdt, m: Memory, m': Memory, i: nat)
    requires g.base + g.limit < |m| == |m'| && g.Holds(i) && TypeOf(AccessOf(g, m, i)) in {1, 3}
    requires forall b :: 0 <= b < |m| && b != g.Entry(i) + 5 ==> m'[b] == m[b]
    ensures SameLdts(g, m, m')
  {
    hide TypeOf, Bit;
    forall ldt: word | LdtOk(g, m, ldt)
      ensures LdtOk(g, m', ldt)
    {
      if ldt / 4 != 0 {
        assert SelectorIndex(ldt) != i;
      }
    }
  }

  // ---- The invariant ----

  /** The saved registers of a task. */
  ghost function SavedOf(g: Gdt, m: Memory, i: nat): Registers
    requires g.base + g.limit < |m| && g.Holds(i) && TssBase(g, m, i) + TSS_SIZE <= |m|
  {
    SavedRegisters(m, TssBase(g, m, i))
  }

  function Top(stack: seq<nat>): nat
    requires stack != []
  {
    stack[|stack| - 1]
  }

  /** The busy tasks are exactly the nesting stack, whose top is the current task
      and whose back-links spell it downwards. */
  ghost predicate Nested(g: Gdt, s: State, tasks: set<nat>, stack: seq<nat>) {
    && Tasks(g, s.mem, tasks)
    && stack != [] && Distinct(stack) && (forall j :: 0 <= j < |stack| ==> stack[j] in tasks)
    && SelectorIndex(s.tr) == Top(stack) && !LocalTable(s.tr)
    && (forall i :: i in tasks ==> (IsBusy(g, s.mem, i) <==> i in stack))
    && (forall j :: 0 < j < |stack| ==> Links(g, s.mem, stack[j], stack[j - 1]))
    && LdtOk(g, s.mem, s.regs[LDT])
    && (forall i :: i in tasks && i != Top(stack) ==> LdtOk(g, s.mem, SavedOf(g, s.mem, i)[LDT]))
  }

  ghost predicate Links(g: Gdt, m: Memory, i: nat, to: nat)
    requires g.base + g.limit < |m| && g.Holds(i) && TssBase(g, m, i) + TSS_SIZE <= |m|
  {
    SelectorIndex(BackLink(g, m, i)) == to && !LocalTable(BackLink(g, m, i))
  }

  /** What a task sees when it is resumed: its registers, with the always-set
      flag bit set and NT cleared. */
  function Resumed(r: Registers): Registers {
    r[FLAGS := WithoutBit(WithBit(r[FLAGS], 2) % 0x1_0000, NT) % 0x1_0000]
  }

  lemma PeekTask(g: Gdt, m: Memory, tasks: set<nat>, sel: word)
    requires Tasks(g, m, tasks) && SelectorIndex(sel) in tasks && !LocalTable(sel)
    ensures Peek(g, m, sel).Some? && Peek(g, m, sel).value.access == AccessOf(g, m, SelectorIndex(sel))
    ensures BaseOf(g, m, sel) == TssBase(g, m, SelectorIndex(sel)) && InMemory(g, m, sel)
  {
  }

  lemma LeftView(g: Gdt, s: State, tasks: set<nat>, source: Source)
    requires Tasks(g, s.mem, tasks) && SelectorIndex(s.tr) in tasks && !LocalTable(s.tr)
    ensures InMemory(g, s.mem, s.tr)
    ensures var m, i := LeftMemory(g, s, source), SelectorIndex(s.tr);
      && Tasks(g, m, tasks) && SameLdts(g, s.mem, m)
      && (forall k :: k in tasks ==>
            && TssBase(g, m, k) == TssBase(g, s.mem, k) && BackLink(g, m, k) == BackLink(g, s.mem, k)
            && SavedOf(g, m, k) == (if k == i then s.regs else SavedOf(g, s.mem, k))
            && (IsBusy(g, m, k) <==> IsBusy(g, s.mem, k) && !(k == i && source == Iret)))
  {
    hide TypeOf, Bit, TssBase, AccessOf, BackLink, SavedRegisters, PutWords, SetBusy, Peek, LdtOk;
    PeekTask(g, s.mem, tasks, s.tr);
    SaveFrame(g, s.mem, tasks, SelectorIndex(s.tr), s.regs);
    if source == Iret {
      BusyFrame(g, PutWords(s.mem, BaseOf(g, s.mem, s.tr) + SAVE_AREA, s.regs, 15), tasks, s.tr, false);
    }
  }

  /** The memory of a switch from task i to task j: i is saved, j is busy, and for
      a return i is not. Nothing else about any task changes. */
  lemma SwitchedView(g: Gdt, s: State, tasks: set<nat>, sel: word, source: Source)
    requires Tasks(g, s.mem, tasks) && SelectorIndex(s.tr) in tasks && !LocalTable(s.tr)
    requires SelectorIndex(sel) in tasks && !LocalTable(sel)
    ensures InMemory(g, s.mem, s.tr)
    ensures var m, i, j := SwitchedMemory(g, s, sel, source), SelectorIndex(s.tr), SelectorIndex(sel);
      && Tasks(g, m, tasks) && SameLdts(g, s.mem, m)
      && (forall k :: k in tasks ==>
            && TssBase(g, m, k) == TssBase(g, s.mem, k) && BackLink(g, m, k) == BackLink(g, s.mem, k)
            && SavedOf(g, m, k) == (if k == i then s.regs else SavedOf(g, s.mem, k))
            && (IsBusy(g, m, k) <==> k == j || (IsBusy(g, s.mem, k) && !(k == i && source == Iret))))
  {
    hide TypeOf, Bit, TssBase, AccessOf, BackLink, SavedRegisters, SetBusy, LeftMemory, LdtOk, InMemory;
    LeftView(g, s, tasks, source);
    BusyFrame(g, LeftMemory(g, s, source), tasks, sel, true);
  }

  /** The saved registers of every stacked task below the top are unchanged. */
  ghost predicate SameContexts(g: Gdt, m: Memory, m': Memory, tasks: set<nat>, stack: seq<nat>, n: nat)
    requires n <= |stack| && Tasks(g, m, tasks) && Tasks(g, m', tasks)
    requires forall j :: 0 <= j < |stack| ==> stack[j] in tasks
  {
    forall j :: 0 <= j < n ==> SavedOf(g, m', stack[j]) == SavedOf(g, m, stack[j])
  }

  /** A task that a call may enter is available: it is not nested already. */
  lemma CalledIsNew(g: Gdt, s: State, tasks: set<nat>, stack: seq<nat>, sel: word)
    requires Nested(g, s, tasks, stack) && SelectorIndex(sel) in tasks && !LocalTable(sel)
    ensures InMemory(g, s.mem, s.tr) && InMemory(g, s.mem, sel)
    ensures !Refused(g, s, sel, Call) ==> SelectorIndex(sel) !in stack
  {
    hide TssBase, Bit;
    PeekTask(g, s.mem, tasks, s.tr);
    PeekTask(g, s.mem, tasks, sel);
  }

  /** The memory after a call: as above, and the new task is linked back. */
  lemma CalledView(g: Gdt, s: State, tasks: set<nat>, sel: word)
    requires Tasks(g, s.mem, tasks) && SelectorIndex(s.tr) in tasks && !LocalTable(s.tr)
    requires SelectorIndex(sel) in tasks && !LocalTable(sel)
    requires InMemory(g, s.mem, s.tr) && InMemory(g, s.mem, sel)
    ensures BaseOf(g, s.mem, sel) + TSS_SIZE <= |s.mem|
    ensures var i, j := SelectorIndex(s.tr), SelectorIndex(sel);
      var m := PutWord(SwitchedMemory(g, s, sel, Call), BaseOf(g, s.mem, sel), s.tr);
      && Tasks(g, m, tasks) && SameLdts(g, s.mem, m)
      && (forall k :: k in tasks ==>
            && TssBase(g, m, k) == TssBase(g, s.mem, k)
            && BackLink(g, m, k) == (if k == j then s.tr else BackLink(g, s.mem, k))
            && SavedOf(g, m, k) == (if k == i then s.regs else SavedOf(g, s.mem, k))
            && (IsBusy(g, m, k) <==> k == j || IsBusy(g, s.mem, k)))
  {
    hide TssBase, Bit, TypeOf, AccessOf, BackLink, SavedRegisters, SwitchedMemory, LdtOk, PutWord;
    PeekTask(g, s.mem, tasks, sel);
    SwitchedView(g, s, tasks, sel, Call);
    LinkFrame(g, SwitchedMemory(g, s, sel, Call), tasks, SelectorIndex(sel), s.tr);
  }

  /** The registers a switch loads. */
  lemma LoadedView(g: Gdt, s: State, tasks: set<nat>, sel: word, source: Source)
    requires Tasks(g, s.mem, tasks) && SelectorIndex(s.tr) in tasks && !LocalTable(s.tr)
    requires SelectorIndex(sel) in tasks && !LocalTable(sel) && SelectorIndex(sel) != SelectorIndex(s.tr)
    requires InMemory(g, s.mem, s.tr) && InMemory(g, s.mem, sel)
    requires LdtOk(g, s.mem, SavedOf(g, s.mem, SelectorIndex(sel))[LDT])
    ensures var m, r := SwitchedMemory(g, s, sel, source), SavedOf(g, s.mem, SelectorIndex(sel));
      && LoadedRegisters(m, BaseOf(g, s.mem, sel)) == r[FLAGS := WithBit(r[FLAGS], 2) % 0x1_0000]
      && LdtOk(g, m, r[LDT])
  {
    hide TssBase, Bit, TypeOf, AccessOf, BackLink, SavedRegisters, SwitchedMemory, LdtOk, IsBusy, WithBit;
    PeekTask(g, s.mem, tasks, sel);
    SwitchedView(g, s, tasks, sel, source);
  }

  /** A call that is not refused succeeds; the new task is nested on top and the
      registers of the caller are in its segment. */
  lemma CallNests(g: Gdt, s: State, tasks: set<nat>, stack: seq<nat>, sel: word)
    requires Nested(g, s, tasks, stack) && SelectorIndex(sel) in tasks && !LocalTable(sel)
    requires InMemory(g, s.mem, s.tr) && InMemory(g, s.mem, sel) && !Refused(g, s, sel, Call)
    ensures Switch(g, s, sel, Call).Switched?
    ensures var s' := Switch(g, s, sel, Call).state;
      && Nested(g, s', tasks, stack + [SelectorIndex(sel)])
      && SavedOf(g, s'.mem, Top(stack)) == s.regs
      && SameContexts(g, s.mem, s'.mem, tasks, stack, |stack| - 1)
  {
    hide Tasks, TssBase, BackLink, SavedOf, SwitchedMemory, Refused, LdtOk, PutWord, WithBit, IsBusy, LoadedRegisters,
         BaseOf, InMemory;
    CalledIsNew(g, s, tasks, stack, sel);
    LoadedView(g, s, tasks, sel, Call);
    CalledView(g, s, tasks, sel);
  }

  /** What a working task must leave alone: the descriptor table and the segments of
      the tasks. It may write any other byte of memory. */
  ghost predicate SparesTasks(g: Gdt, tasks: set<nat>, m: Memory, m': Memory)
    requires Tasks(g, m, tasks)
  {
    && SameTable(g, m, m')
    && forall i, a: nat :: i in tasks && InTss(TssBase(g, m, i), a) ==> m'[a] == m[a]
  }

  lemma SparedFrame(g: Gdt, m: Memory, tasks: set<nat>, m': Memory)
    requires Tasks(g, m, tasks) && SparesTasks(g, tasks, m, m')
    ensures Tasks(g, m', tasks) && SameLdts(g, m, m')
    ensures forall i :: i in tasks ==> SameTss(g, m, m', i) && AccessOf(g, m', i) == AccessOf(g, m, i)
  {
    TableFrame(g, m, m', tasks);
    forall i | i in tasks
      ensures SameTss(g, m, m', i)
    {
      TssFrame(g, m, m', i);
    }
  }

  /** A task that changes its registers and memory of its own stays nested as it is. */
  lemma WorkNests(g: Gdt, s: State, tasks: set<nat>, stack: seq<nat>, regs: Registers, cpl: nat, m: Memory)
    requires Nested(g, s, tasks, stack) && LdtOk(g, s.mem, regs[LDT]) && SparesTasks(g, tasks, s.mem, m)
    ensures Nested(g, s.(regs := regs, cpl := cpl, mem := m), tasks, stack)
    ensures SameContexts(g, s.mem, m, tasks, stack, |stack|)
  {
    hide Tasks, TssBase, AccessOf, BackLink, SavedRegisters, LdtOk, SparesTasks, TypeOf;
    SparedFrame(g, s.mem, tasks, m);
  }

  /** The selector an IRET of a nested task switches to. */
  function ReturnSelector(g: Gdt, m: Memory, i: nat): word
    requires g.base + g.limit < |m| && g.Holds(i) && TssBase(g, m, i) + TSS_SIZE <= |m|
  {
    BackLink(g, m, i) - BackLink(g, m, i) % 4
  }

  /** A return along the back-link of the top task always succeeds; it frees that
      task and resumes the one below with the registers it was saved with. */
  lemma ReturnUnnests(g: Gdt, s: State, tasks: set<nat>, stack: seq<nat>)
    requires Nested(g, s, tasks, stack) && |stack| >= 2
    ensures var sel := ReturnSelector(g, s.mem, Top(stack));
      && InMemory(g, s.mem, s.tr) && InMemory(g, s.mem, sel) && Switch(g, s, sel, Iret).Switched?
      && var s' := Switch(g, s, sel, Iret).state;
      && s'.regs == Resumed(SavedOf(g, s.mem, stack[|stack| - 2]))
      && Nested(g, s', tasks, stack[..|stack| - 1])
      && SameContexts(g, s.mem, s'.mem, tasks, stack, |stack| - 1)
  {
    hide Nested, TssBase, SavedOf, SwitchedMemory, LdtOk, IsBusy, BaseOf, InMemory, BackLink, Switch, AccessOf,
         SameLdts, SameContexts;
    BelowTop(g, s, tasks, stack);
    var sel := ReturnSelector(g, s.mem, Top(stack));
    MaskedSelector(BackLink(g, s.mem, Top(stack)));
    PeekTask(g, s.mem, tasks, s.tr);
    PeekTask(g, s.mem, tasks, sel);
    ReturnShape(g, s, tasks, sel);
    SwitchedView(g, s, tasks, sel, Iret);
    StackPopped(g, s, tasks, stack, Switch(g, s, sel, Iret).state);
  }

  /** What the invariant says about the two tasks on top. */
  lemma BelowTop(g: Gdt, s: State, tasks: set<nat>, stack: seq<nat>)
    requires Nested(g, s, tasks, stack) && |stack| >= 2
    ensures Tasks(g, s.mem, tasks) && SelectorIndex(s.tr) == Top(stack) && !LocalTable(s.tr)
    ensures Top(stack) in tasks && stack[|stack| - 2] in tasks && Top(stack) != stack[|stack| - 2]
    ensures Links(g, s.mem, Top(stack), stack[|stack| - 2])
    ensures LdtOk(g, s.mem, SavedOf(g, s.mem, stack[|stack| - 2])[LDT])
  {
    hide TssBase, SavedOf, LdtOk, IsBusy, BackLink, Tasks;
  }

  /** The invariant with the top task taken off the stack. */
  lemma StackPopped(g: Gdt, s: State, tasks: set<nat>, stack: seq<nat>, s': State)
    requires Nested(g, s, tasks, stack) && |stack| >= 2 && |s.mem| == |s'.mem|
    requires SelectorIndex(s'.tr) == stack[|stack| - 2] && !LocalTable(s'.tr)
    requires Tasks(g, s'.mem, tasks) && SameLdts(g, s.mem, s'.mem) && LdtOk(g, s'.mem, s'.regs[LDT])
    requires forall k :: k in tasks ==>
      && BackLink(g, s'.mem, k) == BackLink(g, s.mem, k)
      && SavedOf(g, s'.mem, k) == (if k == Top(stack) then s.regs else SavedOf(g, s.mem, k))
      && (IsBusy(g, s'.mem, k) <==> k == stack[|stack| - 2] || (IsBusy(g, s.mem, k) && k != Top(stack)))
    ensures Nested(g, s', tasks, stack[..|stack| - 1])
    ensures SameContexts(g, s.mem, s'.mem, tasks, stack, |stack| - 1)
  {
    hide Tasks, TssBase, SavedOf, LdtOk, IsBusy, BackLink;
    assert forall i :: i in stack[..|stack| - 1] <==> i in stack && i != Top(stack);
  }

  /** The state after a return to a task that may be resumed. */
  lemma ReturnShape(g: Gdt, s: State, tasks: set<nat>, sel: word)
    requires Tasks(g, s.mem, tasks) && SelectorIndex(s.tr) in tasks && !LocalTable(s.tr)
    requires SelectorIndex(sel) in tasks && !LocalTable(sel) && SelectorIndex(sel) != SelectorIndex(s.tr)
    requires InMemory(g, s.mem, s.tr) && InMemory(g, s.mem, sel)
    requires LdtOk(g, s.mem, SavedOf(g, s.mem, SelectorIndex(sel))[LDT])
    ensures Switch(g, s, sel, Iret).Switched?
    ensures var s' := Switch(g, s, sel, Iret).state;
      && s'.mem == SwitchedMemory(g, s, sel, Iret) && s'.tr == sel
      && s'.regs == Resumed(SavedOf(g, s.mem, SelectorIndex(sel))) && LdtOk(g, s'.mem, s'.regs[LDT])
  {
    hide Tasks, SavedOf, SwitchedMemory, Refused, LdtOk, WithBit, WithoutBit, LoadedRegisters, BaseOf, InMemory;
    ReturnIsAccepted(g, s, tasks, sel);
    LoadedView(g, s, tasks, sel, Iret);
  }

  lemma MaskedSelector(sel: word)
    ensures SelectorIndex(sel - sel % 4) == SelectorIndex(sel) && LocalTable(sel - sel % 4) == LocalTable(sel)
  {
  }

  lemma ReturnIsAccepted(g: Gdt, s: State, tasks: set<nat>, sel: word)
    requires Tasks(g, s.mem, tasks) && SelectorIndex(sel) in tasks && !LocalTable(sel)
    ensures !Refused(g, s, sel, Iret)
  {
  }

  // ---- Runs ----

  /** What may happen next: the current task works, calls another or returns. */
  datatype Act = Work(regs: Registers, cpl: nat, mem: Memory) | CallTask(sel: word) | Return

  datatype Config = Config(s: State, stack: seq<nat>)

  ghost predicate CanCall(g: Gdt, s: State, tasks: set<nat>, sel: word)
    requires g.base + g.limit < |s.mem|
  {
    && SelectorIndex(sel) in tasks && !LocalTable(sel) && InMemory(g, s.mem, s.tr) && InMemory(g, s.mem, sel)
    && !Refused(g, s, sel, Call)
  }

  /** One act; None when it faults, touches the tasks or would return below depth
      `floor`. */
  ghost function Step(g: Gdt, tasks: set<nat>, c: Config, act: Act, floor: nat): (r: Option<Config>)
    requires Nested(g, c.s, tasks, c.stack) && 1 <= floor <= |c.stack|
  {
    match act
    case Work(regs, cpl, mem) =>
      if LdtOk(g, c.s.mem, regs[LDT]) && SparesTasks(g, tasks, c.s.mem, mem) then
        Some(Config(c.s.(regs := regs, cpl := cpl, mem := mem), c.stack))
      else None
    case CallTask(sel) =>
      if CanCall(g, c.s, tasks, sel) then
        CallNests(g, c.s, tasks, c.stack, sel);
        Some(Config(Switch(g, c.s, sel, Call).state, c.stack + [SelectorIndex(sel)]))
      else None
    case Return =>
      if |c.stack| > floor then
        ReturnUnnests(g, c.s, tasks, c.stack);
        var sel := ReturnSelector(g, c.s.mem, Top(c.stack));
        Some(Config(Switch(g, c.s, sel, Iret).state, c.stack[..|c.stack| - 1]))
      else None
  }

  /** The tasks below depth `floor` are still in place, with the registers they
      were saved with. */
  ghost predicate BelowKept(g: Gdt, tasks: set<nat>, c: Config, c': Config, floor: nat)
    requires Nested(g, c.s, tasks, c.stack) && Nested(g, c'.s, tasks, c'.stack) && 1 <= floor
  {
    && floor <= |c.stack| && floor <= |c'.stack| && c'.stack[..floor] == c.stack[..floor]
    && SameContexts(g, c.s.mem, c'.s.mem, tasks, c.stack, floor - 1)
  }

  lemma StepKeeps(g: Gdt, tasks: set<nat>, c: Config, act: Act, floor: nat)
    requires Nested(g, c.s, tasks, c.stack) && 1 <= floor <= |c.stack| && Step(g, tasks, c, act, floor).Some?
    ensures var c' := Step(g, tasks, c, act, floor).value;
            Nested(g, c'.s, tasks, c'.stack) && BelowKept(g, tasks, c, c', floor)
  {
    hide Nested, Tasks, SavedOf, Switch, Refused, LdtOk, InMemory, ReturnSelector, SparesTasks;
    match act
    case Work(regs, cpl, mem) => WorkNests(g, c.s, tasks, c.stack, regs, cpl, mem);
    case CallTask(sel) => CallNests(g, c.s, tasks, c.stack, sel);
    case Return => ReturnUnnests(g, c.s, tasks, c.stack);
  }

  /** A run that never returns below depth `floor`. */
  ghost function RunFrom(g: Gdt, tasks: set<nat>, c: Config, acts: seq<Act>, floor: nat): (r: Option<Config>)
    requires Nested(g, c.s, tasks, c.stack) && 1 <= floor <= |c.stack|
    ensures r.Some? ==> Nested(g, r.value.s, tasks, r.value.stack) && BelowKept(g, tasks, c, r.value, floor)
    decreases |acts|
  {
    if acts == [] then Some(c)
    else
      match RunFrom(g, tasks, c, acts[..|acts| - 1], floor)
      case None => None
      case Some(c1) =>
        var r := Step(g, tasks, c1, acts[|acts| - 1], floor);
        KeptTwice(g, tasks, c, c1, acts[|acts| - 1], floor);
        r
  }

  lemma KeptTwice(g: Gdt, tasks: set<nat>, c: Config, c1: Config, act: Act, floor: nat)
    requires Nested(g, c.s, tasks, c.stack) && Nested(g, c1.s, tasks, c1.stack)
    requires 1 <= floor && BelowKept(g, tasks, c, c1, floor)
    ensures Step(g, tasks, c1, act, floor).Some? ==>
      var c2 := Step(g, tasks, c1, act, floor).value;
      Nested(g, c2.s, tasks, c2.stack) && BelowKept(g, tasks, c, c2, floor)
  {
    hide Step, SavedOf, Nested, Tasks;
    if Step(g, tasks, c1, act, floor).Some? {
      StepKeeps(g, tasks, c1, act, floor);
      assert forall j :: 0 <= j < floor ==> c.stack[j] == c.stack[..floor][j] == c1.stack[j];
    }
  }

  /** However the called task and the tasks nested in it work, call and return:
      once they are back at the depth of the call, returning from it succeeds and
      resumes the caller with every register it had (flags up to the always-set
      bit and NT), nested as before the call. */
  lemma NestedRunRestores(g: Gdt, tasks: set<nat>, c: Config, sel: word, acts: seq<Act>)
    requires Nested(g, c.s, tasks, c.stack) && CanCall(g, c.s, tasks, sel)
    ensures Switch(g, c.s, sel, Call).Switched?
    ensures var called := Config(Switch(g, c.s, sel, Call).state, c.stack + [SelectorIndex(sel)]);
      && Nested(g, called.s, tasks, called.stack)
      && var end := RunFrom(g, tasks, called, acts, |c.stack| + 1);
      end.Some? && |end.value.stack| == |c.stack| + 1 ==>
        && Nested(g, end.value.s, tasks, end.value.stack)
        && var back := ReturnSelector(g, end.value.s.mem, Top(end.value.stack));
        && InMemory(g, end.value.s.mem, end.value.s.tr) && InMemory(g, end.value.s.mem, back)
        && Switch(g, end.value.s, back, Iret).Switched?
        && var r := Switch(g, end.value.s, back, Iret).state;
        && r.regs == Resumed(c.s.regs) && Nested(g, r, tasks, c.stack)
  {
    hide TssBase, BackLink, SavedOf, Switch, Refused, LdtOk, IsBusy, BaseOf, InMemory, ReturnSelector, Links,
         Distinct, RunFrom, Resumed, BelowKept, Nested, Tasks, SameContexts;
    NestedHasTop(g, c.s, tasks, c.stack);
    CallNests(g, c.s, tasks, c.stack, sel);
    var called := Config(Switch(g, c.s, sel, Call).state, c.stack + [SelectorIndex(sel)]);
    var end := RunFrom(g, tasks, called, acts, |c.stack| + 1);
    if end.Some? && |end.value.stack| == |c.stack| + 1 {
      ReturnRestores(g, tasks, called, end.value, c.stack, c.s.regs);
    }
  }

  lemma NestedHasTop(g: Gdt, s: State, tasks: set<nat>, stack: seq<nat>)
    requires Nested(g, s, tasks, stack)
    ensures stack != [] && g.base + g.limit < |s.mem| && Top(stack) in tasks
  {
  }

  /** The return at the end of a run that kept what is below the called task. */
  lemma ReturnRestores(g: Gdt, tasks: set<nat>, called: Config, e: Config, stack: seq<nat>, regs: Registers)
    requires Nested(g, called.s, tasks, called.stack) && Nested(g, e.s, tasks, e.stack)
    requires 1 <= |stack| && |called.stack| == |e.stack| == |stack| + 1 && called.stack[..|stack|] == stack
    requires BelowKept(g, tasks, called, e, |stack| + 1) && SavedOf(g, called.s.mem, Top(stack)) == regs
    ensures var back := ReturnSelector(g, e.s.mem, Top(e.stack));
      && InMemory(g, e.s.mem, e.s.tr) && InMemory(g, e.s.mem, back)
      && Switch(g, e.s, back, Iret).Switched?
      && var r := Switch(g, e.s, back, Iret).state;
      && r.regs == Resumed(regs) && Nested(g, r, tasks, stack)
  {
    hide Nested, Tasks, SavedOf, Switch, InMemory, ReturnSelector, Resumed, BelowKept;
    KeptContext(g, tasks, called, e, |stack| + 1, |stack| - 1);
    assert e.stack == e.stack[..|stack| + 1] == called.stack[..|stack| + 1] == called.stack;
    assert called.stack[|stack| - 1] == called.stack[..|stack|][|stack| - 1] == Top(stack);
    ReturnUnnests(g, e.s, tasks, e.stack);
  }

  lemma KeptContext(g: Gdt, tasks: set<nat>, c: Config, c': Config, floor: nat, j: nat)
    requires Nested(g, c.s, tasks, c.stack) && Nested(g, c'.s, tasks, c'.stack) && 1 <= floor
    requires BelowKept(g, tasks, c, c', floor) && j < floor - 1
    ensures floor <= |c.stack| && floor <= |c'.stack| && c'.stack[..floor] == c.stack[..floor]
    ensures SavedOf(g, c'.s.mem, c.stack[j]) == SavedOf(g, c.s.mem, c.stack[j])
  {
  }
}
