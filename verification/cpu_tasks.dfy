/** The part of the CPU that switches tasks, with its registers and memory changed
    in place. Raising #GP is a result; delivering the exception is not modelled. */
module CpuTasks {
  import opened Bytes
  import opened TaskSwitch
  import opened TaskNesting

  class Cpu {
    const g: Gdt
    const ram: array<byte>
    var regs: Registers
    var tr: word
    var cpl: nat
    var descCache: map<word, Descriptor>

    ghost function S(): State
      reads this, ram
    {
      State(regs, cpl, tr, ram[..])
    }

    /** The cached descriptor of the current task gives the base of its TSS, and says that
        it is a 286 TSS, in whose format the task is saved. */
    ghost predicate TaskCached()
      reads this, ram
    {
      && g.base + g.limit < ram.Length && tr in descCache
      && descCache[tr].base == BaseOf(g, ram[..], tr) && descCache[tr].base + TSS_SIZE <= ram.Length
      && TypeOf(descCache[tr].access) in {1, 3}
    }

    constructor (g: Gdt, ram: array<byte>, regs: Registers, tr: word, descriptor: Descriptor)
      ensures this.g == g && this.ram == ram && this.regs == regs && this.tr == tr && cpl == regs[CS] % 4
      ensures descCache == map[tr := descriptor]
    {
      this.g, this.ram, this.regs, this.tr, cpl := g, ram, regs, tr, regs[CS] % 4;
      descCache := map[tr := descriptor];
    }

    function TssWord(offset: nat): (v: word)
      reads `tr, `descCache, ram
      requires tr in descCache && descCache[tr].base + offset + 1 < ram.Length
      ensures v == WordAt(ram[..], descCache[tr].base + offset)
    {
      var a := descCache[tr].base + offset;
      var low: int, high: int := ram[a], ram[a + 1];
      low + 0x100 * high
    }

    method WriteTssWord(offset: nat, v: word)
      requires tr in descCache && descCache[tr].base + offset + 1 < ram.Length
      modifies ram
      ensures ram[..] == PutWord(old(ram[..]), descCache[tr].base + offset, v)
    {
      var a := descCache[tr].base + offset;
      ram[a] := v % 0x100;
      ram[a + 1] := v / 0x100;
    }

    /** One more word of the save area. */
    method SaveWord(j: nat, ghost m: Memory)
      requires j < 15 && |m| == ram.Length
      requires tr in descCache && descCache[tr].base + TSS_SIZE <= ram.Length
      requires ram[..] == PutWords(m, descCache[tr].base + SAVE_AREA, regs, j)
      modifies ram
      ensures ram[..] == PutWords(m, descCache[tr].base + SAVE_AREA, regs, j + 1)
    {
      WriteTssWord(SAVE_AREA + 2 * j, regs[j]);
    }

    /** `_save_task_state` */
    method SaveTaskState()
      requires tr in descCache && descCache[tr].base + TSS_SIZE <= ram.Length
      modifies ram
      ensures ram[..] == PutWords(old(ram[..]), descCache[tr].base + SAVE_AREA, regs, 15)
    {
      hide PutWords;
      ghost var m := ram[..];
      NoWords(m, descCache[tr].base + SAVE_AREA, regs);
      SaveWord(IP, m);
      SaveWord(FLAGS, m);
      SaveWord(AX, m);
      SaveWord(CX, m);
      SaveWord(DX, m);
      SaveWord(BX, m);
      SaveWord(SP, m);
      SaveWord(BP, m);
      SaveWord(SI, m);
      SaveWord(DI, m);
      SaveWord(ES, m);
      SaveWord(CS, m);
      SaveWord(SS, m);
      SaveWord(DS, m);
      SaveWord(LDT, m);
    }

    /** `_set_tss_busy` */
    method SetTssBusy(sel: word, busy: bool)
      requires g.base + g.limit < ram.Length
      modifies this`descCache, ram
      ensures ram[..] == SetBusy(g, old(ram[..]), sel, busy)
      ensures match Peek(g, old(ram[..]), sel)
        case None => descCache == old(descCache)
        case Some(d) => descCache == old(descCache)[sel := d.(access := ram[d.address + 5])]
    {
      var desc := Peek(g, ram[..], sel);
      if desc.None? {
        return;
      }
      var d := desc.value;
      var old': int := d.access;
      var access: byte := (if busy then WithBit(old', BUSY) else WithoutBit(old', BUSY)) % 0x100;
      ram[d.address + 5] := access;
      descCache := descCache[sel := d.(access := access)];
    }

    /** Word j of the save area. */
    function SavedWord(j: nat): (v: word)
      reads `tr, `descCache, ram
      requires j < 15 && tr in descCache && descCache[tr].base + TSS_SIZE <= ram.Length
      ensures v == SavedRegisters(ram[..], descCache[tr].base)[j]
    {
      TssWord(SAVE_AREA + 2 * j)
    }

    /** Register j comes from its place in the save area. */
    method LoadWord(j: nat)
      requires j < 15 && tr in descCache && descCache[tr].base + TSS_SIZE <= ram.Length
      modifies `regs
      ensures regs == old(regs)[j := SavedRegisters(ram[..], descCache[tr].base)[j]]
    {
      regs := regs[j := SavedWord(j)];
    }

    /** The general registers, in the order of `_load_task_state`. */
    method LoadGeneral()
      requires tr in descCache && descCache[tr].base + TSS_SIZE <= ram.Length
      modifies `regs
      ensures forall j :: 0 <= j < 15 ==>
        regs[j]
          == if AX <= j <= BX || BP <= j <= DI then SavedRegisters(ram[..], descCache[tr].base)[j] else old(regs)[j]
    {
      hide SavedRegisters;
      LoadWord(AX);
      LoadWord(CX);
      LoadWord(DX);
      LoadWord(BX);
      LoadWord(BP);
      LoadWord(SI);
      LoadWord(DI);
    }

    /** The part of `_load_task_state` that reads the save area: everything but the
        LDT selector, which is checked first, goes straight into the registers. */
    method LoadFields() returns (ldt: word)
      requires tr in descCache && descCache[tr].base + TSS_SIZE <= ram.Length
      modifies `regs
      ensures ldt == LoadedRegisters(ram[..], descCache[tr].base)[LDT]
      ensures regs[LDT := ldt] == LoadedRegisters(ram[..], descCache[tr].base) && regs[LDT] == old(regs)[LDT]
    {
      hide SavedRegisters, WithBit;
      ghost var w := SavedRegisters(ram[..], descCache[tr].base);
      ldt := SavedWord(LDT);
      LoadGeneral();
      LoadWord(ES);
      LoadWord(CS);
      LoadWord(SS);
      LoadWord(DS);
      LoadWord(SP);
      LoadWord(IP);
      regs := regs[FLAGS := WithBit(SavedWord(FLAGS), 2) % 0x1_0000];
    }

    /** `_load_task_state`: None, or the error code when the LDT selector is refused. */
    method LoadTaskState() returns (fault: Option<nat>)
      requires tr in descCache && descCache[tr].base + TSS_SIZE <= ram.Length && g.base + g.limit < ram.Length
      modifies `regs, `cpl
      ensures var r := LoadedRegisters(ram[..], descCache[tr].base);
        if LdtOk(g, ram[..], r[LDT]) then fault == None && regs == r && cpl == r[CS] % 4
        else fault == Some(r[LDT] - r[LDT] % 4) && regs == r[LDT := old(regs)[LDT]] && cpl == old(cpl)
    {
      hide LoadedRegisters, Peek, LdtOk, TypeOf;
      var ldt := LoadFields();
      assert regs == regs[LDT := ldt][LDT := old(regs)[LDT]];
      LdtMeaning(g, ram[..], ldt);
      if ldt / 4 != 0 {
        var desc := Peek(g, ram[..], ldt);
        if desc.None? || TypeOf(desc.value.access) != 2 {
          return Some(ldt - ldt % 4);
        }
      }
      regs := regs[LDT := ldt];
      cpl := regs[CS] % 4;
      fault := None;
    }

    /** The outgoing task is saved and the busy bits are moved. */
    method SaveAndMark(sel: word, source: Source, ghost tasks: set<nat>)
      requires TaskCached() && Tasks(g, ram[..], tasks) && SelectorIndex(tr) in tasks && !LocalTable(tr)
      requires SelectorIndex(sel) in tasks && !LocalTable(sel)
      modifies `descCache, ram
      ensures InMemory(g, old(ram[..]), tr)
      ensures ram[..] == SwitchedMemory(g, old(S()), sel, source)
    {
      hide Tasks, PutWords, SetBusy, Peek, BaseOf;
      ghost var s := S();
      SwitchBases(g, s, tasks, sel, source);
      SaveTaskState();
      if source == Iret {
        SetTssBusy(tr, false);
      }
      SetTssBusy(sel, true);
    }

    /** The switch itself, once it is not refused: None, or the error code of a #GP
        raised half way. */
    method Enter(sel: word, source: Source, desc: Descriptor, ghost tasks: set<nat>) returns (fault: Option<nat>)
      requires TaskCached() && Tasks(g, ram[..], tasks) && SelectorIndex(tr) in tasks && !LocalTable(tr)
      requires InMemory(g, ram[..], sel) && !Refused(g, S(), sel, source)
      requires SelectorIndex(sel) in tasks && !LocalTable(sel)
      modifies this, ram
      ensures TaskCached() && Tasks(g, ram[..], tasks) && InMemory(g, old(ram[..]), old(tr))
      ensures Switch(g, old(S()), sel, source) == if fault.None? then Switched(S()) else HalfSwitched(S(), fault.value)
    {
      hide Tasks, LoadedRegisters, SavedOf, LdtOk, PutWords, PutWord, SetBusy, WithBit, WithoutBit, Peek, Refused,
           SwitchedMemory, LocalTable;
      ghost var s := S();
      var old' := tr;
      SwitchBases(g, s, tasks, sel, source);
      SaveAndMark(sel, source, tasks);
      tr := sel;
      var d := Peek(g, ram[..], sel);
      descCache := descCache[sel := if d.Some? then d.value else desc];
      ghost var m := ram[..];
      assert descCache[tr].base == BaseOf(g, s.mem, sel) == BaseOf(g, m, sel);
      fault := LoadTaskState();
      assert ram[..] == m;
      if fault.Some? {
        return;
      }
      if source == Call {
        WriteTssWord(0, old');
        regs := regs[FLAGS := WithBit(regs[FLAGS], NT) % 0x1_0000];
        assert ram[..] == PutWord(m, BaseOf(g, s.mem, sel), old');
      } else {
        regs := regs[FLAGS := WithoutBit(regs[FLAGS], NT) % 0x1_0000];
        assert ram[..] == m;
      }
    }

    /** `_do_task_switch` between 286 segments; None when it succeeds, the error
        code of the #GP it raises otherwise. */
    method DoTaskSwitch(sel: word, source: Source, ghost tasks: set<nat>) returns (fault: Option<nat>)
      requires TaskCached() && Tasks(g, ram[..], tasks) && SelectorIndex(tr) in tasks && !LocalTable(tr)
      requires InMemory(g, ram[..], sel) && !Names386(g, ram[..], sel) && !LocalTable(sel)
      requires Refused(g, S(), sel, source) ||
        (SelectorIndex(sel) in tasks && !LocalTable(sel))
      modifies this, ram
      ensures TaskCached() && Tasks(g, ram[..], tasks)
      ensures match Switch(g, old(S()), sel, source)
        case Fault(code) => fault == Some(code) && S() == old(S())
        case Switched(s) => fault == None && S() == s
        case HalfSwitched(s, code) => fault == Some(code) && S() == s
    {
      hide Tasks, LoadedRegisters, SavedOf, LdtOk, PutWords, PutWord, SetBusy, WithBit, WithoutBit;
      ghost var s := S();
      var desc := Peek(g, ram[..], sel);
      if desc.None? || TypeOf(desc.value.access) !in {1, 3, 9, 0xB} {
        return Some(sel - sel % 4);
      }
      if source == Call {
        var required := if cpl > sel % 4 then cpl else sel % 4;
        if TypeOf(desc.value.access) == 3 || Privilege(desc.value.access) < required {
          return Some(sel - sel % 4);
        }
      }
      fault := Enter(sel, source, desc.value, tasks);
    }
  }

  /** Saving and the busy bits do not move a segment. */
  lemma SwitchBases(g: Gdt, s: State, tasks: set<nat>, sel: word, source: Source)
    requires Tasks(g, s.mem, tasks) && SelectorIndex(s.tr) in tasks && !LocalTable(s.tr)
    requires SelectorIndex(sel) in tasks && !LocalTable(sel)
    ensures InMemory(g, s.mem, s.tr)
    ensures var m := SwitchedMemory(g, s, sel, source);
      && Tasks(g, m, tasks) && Peek(g, m, sel).Some? && Peek(g, m, sel).value.base == BaseOf(g, s.mem, sel)
      && TypeOf(Peek(g, m, sel).value.access) in {1, 3}
      && BaseOf(g, PutWord(m, BaseOf(g, m, sel), s.tr), sel) == BaseOf(g, s.mem, sel)
      && Tasks(g, PutWord(m, BaseOf(g, m, sel), s.tr), tasks)
  {
    hide TssBase, Bit, TypeOf, AccessOf, BackLink, SavedRegisters, SwitchedMemory, LdtOk, IsBusy;
    SwitchedView(g, s, tasks, sel, source);
    var m := SwitchedMemory(g, s, sel, source);
    PeekTask(g, s.mem, tasks, sel);
    PeekTask(g, m, tasks, sel);
    LinkFrame(g, m, tasks, SelectorIndex(sel), s.tr);
    PeekTask(g, PutWord(m, BaseOf(g, m, sel), s.tr), tasks, sel);
  }

  lemma LdtMeaning(g: Gdt, m: Memory, ldt: word)
    requires g.base + g.limit < |m|
    ensures LdtOk(g, m, ldt) <==> ldt / 4 == 0 || (Peek(g, m, ldt).Some? && TypeOf(Peek(g, m, ldt).value.access) == 2)
  {
  }

  lemma NoWords(m: Memory, a: nat, ws: seq<word>)
    requires a <= |m|
    ensures PutWords(m, a, ws, 0) == m
  {
  }
}
