/** The arithmetic unit of the CPU (`cpu.py`), which keeps its flags in place. */
module Alu {
  import opened Bytes
  import opened Shifts
  import opened Arithmetic
  import opened DecimalArithmetic

  function OpOf(reg: nat): Op {
    if reg == 0 then Rol else if reg == 1 then Ror else if reg == 2 then Rcl else if reg == 3 then Rcr
    else if reg == 5 then Shr else if reg == 7 then Sar else Shl
  }

  /** The number of steps a count stands for. */
  function Steps(reg: nat, w: nat, count: nat): nat
    requires w >= 1
  {
    if reg <= 3 then count % 0x20 % RingSize(OpOf(reg), w) else count % 0x20
  }

  /** What n steps of the operation of a register field mean: 0 and 1 turn the word up or
      down, 2 and 3 the word with the carry on top, 4 and 6 multiply, 5 divides and 7
      divides a signed number. The carry is the bit that left the word last. */
  ghost predicate Shifted(reg: nat, w: nat, v: nat, cf: bool, n: nat, v': nat, cf': bool)
    requires w >= 1
  {
    && v' < Pow2(w) && (n == 0 ==> v' == v && cf' == cf)
    && (reg == 0 ==> n <= w && Bits(w, v') == Turned(Bits(w, v), n) && (n > 0 ==> cf' == Odd(v')))
    && (reg == 1 ==> n <= w && Turned(Bits(w, v'), n) == Bits(w, v) && (n > 0 ==> cf' == Sign(w, v')))
    && (reg == 2 ==> n <= w + 1 && Bits(w, v') + [cf'] == Turned(Bits(w, v) + [cf], n))
    && (reg == 3 ==> n <= w + 1 && Turned(Bits(w, v') + [cf'], n) == Bits(w, v) + [cf])
    && (reg == 4 || reg == 6 ==>
          v' == v * Pow2(n) % Pow2(w) && (n > 0 ==> cf' == Odd(v * Pow2(n) / Pow2(w))))
    && (reg == 5 ==> v' == v / Pow2(n) && (n > 0 ==> cf' == Odd(v / Pow2(n - 1))))
    && (reg == 7 ==> Signed(w, v') == Signed(w, v) / Pow2(n) && (n > 0 ==> cf' == Odd(Signed(w, v) / Pow2(n - 1))))
  }

  lemma TimesShift(reg: nat, w: nat, x: Operand, n: nat)
    requires reg < 8 && w >= 1 && Fits(w, x) && (reg <= 1 ==> n < w) && (2 <= reg <= 3 ==> n <= w)
    ensures var r := Times(OpOf(reg), w, x, n); Shifted(reg, w, x.val, x.cf, n, r.val, r.cf)
  {
    hide Once, Bits, Pow2, Turned, Sign, Signed;
    if reg == 0 || reg == 2 {
      RotatesRing(OpOf(reg), w, x, n);
    } else if reg == 1 || reg == 3 {
      RotatesRingDown(OpOf(reg), w, x, n);
    } else if reg == 5 {
      ShrDivides(w, x, n);
    } else if reg == 7 {
      SarFloors(w, x, n);
    } else {
      ShlMultiplies(w, x, n);
    }
    if n > 0 {
      RotatedCarry(OpOf(reg), w, x, n);
    }
  }

  /** The flags after an operation of `_alu32` whose exact result is x; y on signed
      operands, and z on their low four bits. */
  ghost predicate Exact(x: int, y: int, z: int, o: Outcome) {
    && ResultFlags(32, x, o) && (o.f.cf <==> !(0 <= x < Pow2(32))) && (o.f.of <==> !InRange(32, y))
    && (o.f.af <==> !(0 <= z < 16))
  }

  lemma SumIsExact(a: nat, b: nat, c: bool)
    requires a < Pow2(32) && b < Pow2(32)
    ensures Exact(a + b + Digit(c), Signed(32, a) + Signed(32, b) + Digit(c), a % 16 + b % 16 + Digit(c),
                  Adc(32, a, b, c))
  {
    hide Pow2, Adc, ResultFlags, InRange, Signed;
    AdcExact(32, a, b, c);
    HalfCarry(32, a, b, c);
  }

  lemma DifferenceIsExact(a: nat, b: nat, c: bool)
    requires a < Pow2(32) && b < Pow2(32)
    ensures Exact(a - b - Digit(c), Signed(32, a) - Signed(32, b) - Digit(c), a % 16 - b % 16 - Digit(c),
                  Sbb(32, a, b, c))
  {
    hide Pow2, Sbb, ResultFlags, InRange, Signed;
    SbbExact(32, a, b, c);
    HalfCarry(32, a, b, c);
  }

  class Unit {
    var cf: bool
    var of: bool
    var zf: bool
    var sf: bool
    var af: bool
    var pf: bool
    var al: nat

    function View(): Flags
      reads this
    {
      Flags(cf, of, zf, sf, af, pf)
    }

    ghost function Accu(): Accumulator
      reads this
    {
      Accumulator(al, cf, af)
    }

    constructor (f: Flags, al: nat)
      requires al < 0x100
      ensures View() == f && this.al == al
    {
      cf, of, zf, sf, af, pf := f.cf, f.of, f.zf, f.sf, f.af, f.pf;
      this.al := al;
    }

    /** `_flags_add8/16/32` */
    method FlagsAdd(w: nat, a: nat, b: nat) returns (r: nat)
      requires w in {8, 16, 32}
      modifies `cf, `of, `zf, `sf, `af, `pf
      ensures Outcome(r, View()) == Add(w, a, b)
      ensures ResultFlags(w, a + b, Outcome(r, View())) && (cf <==> a + b >= Pow2(w))
      ensures a < Pow2(w) && b < Pow2(w) ==>
        (of <==> !InRange(w, Signed(w, a) + Signed(w, b))) && (af <==> a % 16 + b % 16 >= 16)
    {
      hide Pow2, EvenParity, HalfBit, TopBitOf, ResultFlags, InRange, Signed;
      AddedFlags(w, a, b);
      if a < Pow2(w) && b < Pow2(w) {
        PlainAdc(w, a, b, false);
      }
      r := (a + b) % Pow2(w);
      zf := r == 0;
      sf := TopBitOf(w, r);
      cf := a + b > Pow2(w) - 1;
      af := HalfBit(a, b, r);
      of := !(TopBitOf(w, a) != TopBitOf(w, b)) && TopBitOf(w, a) != TopBitOf(w, r);
      pf := EvenParity(r);
    }

    /** `_flags_sub8/16/32` */
    method FlagsSub(w: nat, a: nat, b: nat) returns (r: nat)
      requires w in {8, 16, 32}
      modifies `cf, `of, `zf, `sf, `af, `pf
      ensures Outcome(r, View()) == Sub(w, a, b)
      ensures ResultFlags(w, a - b, Outcome(r, View())) && (cf <==> a < b)
      ensures a < Pow2(w) && b < Pow2(w) ==>
        (of <==> !InRange(w, Signed(w, a) - Signed(w, b))) && (af <==> a % 16 < b % 16)
    {
      hide Pow2, EvenParity, HalfBit, TopBitOf, ResultFlags, InRange, Signed;
      TakenFlags(w, a, b);
      if a < Pow2(w) && b < Pow2(w) {
        PlainSbb(w, a, b, false);
      }
      r := (a - b) % Pow2(w);
      zf := r == 0;
      sf := TopBitOf(w, r);
      cf := a < b;
      af := HalfBit(a, b, r);
      of := TopBitOf(w, a) != TopBitOf(w, b) && TopBitOf(w, a) != TopBitOf(w, r);
      pf := EvenParity(r);
    }

    /** The arithmetic operations of `_alu32`: ADD 0, ADC 2, SBB 3, SUB 5, CMP 7. */
    method Alu32(operation: nat, a: nat, b: nat) returns (r: nat)
      requires operation in {0, 2, 3, 5, 7} && a < Pow2(32) && b < Pow2(32)
      modifies `cf, `of, `zf, `sf, `af, `pf
      ensures var c := old(cf) && operation in {2, 3};
        Outcome(r, View()) == if operation in {0, 2} then Adc(32, a, b, c) else Sbb(32, a, b, c)
      ensures var c := if operation in {2, 3} then Digit(old(cf)) else 0;
        if operation in {0, 2}
        then Exact(a + b + c, Signed(32, a) + Signed(32, b) + c, a % 16 + b % 16 + c, Outcome(r, View()))
        else Exact(a - b - c, Signed(32, a) - Signed(32, b) - c, a % 16 - b % 16 - c, Outcome(r, View()))
    {
      hide Pow2, Adc, Sbb, Exact, Signed;
      var carry := cf && operation in {2, 3};
      if operation in {0, 2} {
        SumIsExact(a, b, carry);
        r := Add32(a, b, carry);
      } else {
        DifferenceIsExact(a, b, carry);
        r := Sub32(a, b, carry);
      }
    }

    /** Its branch for sums: half carry and overflow are those of the operand itself. */
    method Add32(a: nat, b: nat, carry: bool) returns (r: nat)
      modifies `cf, `of, `zf, `sf, `af, `pf
      ensures Outcome(r, View()) == Adc(32, a, b, carry)
    {
      hide Pow2, EvenParity, HalfBit, TopBitOf, ResultFlags, InRange, Signed;
      r := FlagsAdd(32, a, b + Digit(carry));
      af := HalfBit(a, b, r);
      of := !(TopBitOf(32, a) != TopBitOf(32, b)) && TopBitOf(32, a) != TopBitOf(32, r);
    }

    /** Its branch for differences. */
    method Sub32(a: nat, b: nat, carry: bool) returns (r: nat)
      modifies `cf, `of, `zf, `sf, `af, `pf
      ensures Outcome(r, View()) == Sbb(32, a, b, carry)
    {
      hide Pow2, EvenParity, HalfBit, TopBitOf, ResultFlags, InRange, Signed;
      r := FlagsSub(32, a, b + Digit(carry));
      af := HalfBit(a, b, r);
      of := TopBitOf(32, a) != TopBitOf(32, b) && TopBitOf(32, a) != TopBitOf(32, r);
    }

    /** ADC or SBB of a byte to AL, as opcodes 14h and 1Ch do it. */
    method AddToAl(sub: bool, imm: nat)
      requires al < 0x100 && imm < 0x100
      modifies this
      ensures al < 0x100
      ensures var o := if sub then Sub(8, old(al), imm + Digit(old(cf))) else Add(8, old(al), imm + Digit(old(cf)));
        al == o.r && View() == o.f
      ensures var x := if sub then old(al) - imm - Digit(old(cf)) else old(al) + imm + Digit(old(cf));
        ResultFlags(8, x, Outcome(al, View())) && (cf <==> !(0 <= x < 0x100))
    {
      hide Pow2, EvenParity, HalfBit, TopBitOf, ResultFlags;
      Pow8();
      var carry := Digit(cf);
      if sub {
        al := FlagsSub(8, al, imm + carry);
      } else {
        al := FlagsAdd(8, al, imm + carry);
      }
    }

    /** DAA */
    method AdjustAfterAdd()
      requires al < 0x100
      modifies this
      ensures Accu() == Daa(old(Accu())) && al < 0x100
      ensures of == old(of) && zf == (al == 0) && sf == (al >= 0x80) && (pf <==> BitSum(al) % 2 == 0)
    {
      hide BitSum;
      var oldAl, oldCf := al, cf;
      if al % 16 > 9 || af {
        al := (al + 6) % 0x100;
        cf := oldCf || oldAl + 6 > 0xFF;
        af := true;
      } else {
        af := false;
      }
      if oldAl > 0x99 || oldCf {
        al := (al + 0x60) % 0x100;
        cf := true;
      } else {
        cf := false;
      }
      SetSzp();
    }

    /** DAS */
    method AdjustAfterSubtract()
      requires al < 0x100
      modifies this
      ensures Accu() == Das(old(Accu())) && al < 0x100
      ensures of == old(of) && zf == (al == 0) && sf == (al >= 0x80) && (pf <==> BitSum(al) % 2 == 0)
    {
      hide BitSum;
      var oldAl, oldCf := al, cf;
      if al % 16 > 9 || af {
        cf := oldCf || oldAl < 6;
        al := (al - 6) % 0x100;
        af := true;
      } else {
        af := false;
      }
      if oldAl > 0x99 || oldCf {
        al := (al - 0x60) % 0x100;
        cf := true;
      }
      SetSzp();
    }

    method SetSzp()
      requires al < 0x100
      modifies `zf, `sf, `pf
      ensures zf == (al == 0) && sf == (al >= 0x80) && (pf <==> BitSum(al) % 2 == 0)
    {
      hide EvenParity, BitSum;
      ParityMeans(al);
      zf, sf, pf := al == 0, al >= 0x80, EvenParity(al);
    }

    /** One byte of a packed decimal sum or difference. */
    method DecimalStep(sub: bool, imm: nat)
      requires al < 0x100 && imm < 0x100
      modifies this
      ensures Accu() == Adjusted(sub, old(al), imm, old(cf)) && al < 0x100
    {
      AddToAl(sub, imm);
      if sub {
        AdjustAfterSubtract();
      } else {
        AdjustAfterAdd();
      }
    }

    /** A compare, and the jump after it. */
    method CompareAndJump(w: nat, a: nat, b: nat, index: nat) returns (taken: bool)
      requires w in {8, 16, 32} && a < Pow2(w) && b < Pow2(w) && index < 16
      modifies this
      ensures taken == Decided(index, w, a, b)
    {
      hide Pow2, Sub, Condition, Decided;
      var _ := FlagsSub(w, a, b);
      CompareDecides(w, a, b, index);
      taken := Condition(index, View());
    }

    /** `_do_shift` on an operand already fetched. */
    method Shift(reg: nat, w: nat, operand: nat, rawCount: nat) returns (val: nat)
      requires reg < 8 && w in {8, 16, 32} && operand < Pow2(w)
      modifies this
      ensures Operand(val, cf) == Times(OpOf(reg), w, Operand(operand, old(cf)), Steps(reg, w, rawCount))
      ensures var n := rawCount % 32; var steps := if reg <= 1 then n % w else if reg <= 3 then n % (w + 1) else n;
        steps == Steps(reg, w, rawCount) && Shifted(reg, w, operand, old(cf), steps, val, cf)
      ensures Steps(reg, w, rawCount) == 1 ==> (of <==> Sign(w, val) != Sign(w, operand))
      ensures Steps(reg, w, rawCount) != 1 ==> of == (old(of) && Steps(reg, w, rawCount) == 0)
      ensures if reg >= 4 && Steps(reg, w, rawCount) != 0
        then sf == Sign(w, val) && zf == (val == 0) && (pf <==> BitSum(val) % 2 == 0) && !af
        else sf == old(sf) && zf == old(zf) && pf == old(pf) && af == old(af)
    {
      hide Once, Times, Pow2, Sign, EvenParity, BitSum, Shifted;
      var count := rawCount % 0x20;
      if reg in {0, 1} {
        count := count % w;
      } else if reg in {2, 3} {
        count := count % (w + 1);
      }
      TimesShift(reg, w, Operand(operand, cf), count);
      val := Turns(reg, w, operand, count);
      if count > 1 {
        of := false;
      }
      ParityMeans(val);
      if count != 0 && reg in {4, 5, 6, 7} {
        sf, zf, pf, af := Sign(w, val), val == 0, EvenParity(val), false;
      }
    }

    /** Its loop. */
    method Turns(reg: nat, w: nat, operand: nat, count: nat) returns (val: nat)
      requires reg < 8 && w >= 2 && operand < Pow2(w)
      modifies `cf, `of
      ensures Operand(val, cf) == Times(OpOf(reg), w, Operand(operand, old(cf)), count)
      ensures count == 0 ==> of == old(of)
      ensures count == 1 ==> (of <==> Sign(w, val) != Sign(w, operand))
    {
      hide Once, Pow2, Sign, OpOf;
      val := operand;
      ghost var x := Operand(operand, cf);
      for i := 0 to count
        invariant Operand(val, cf) == Times(OpOf(reg), w, x, i)
        invariant i == 0 ==> of == old(of) && val == operand
        invariant i > 0 && count == 1 ==> (of <==> Sign(w, val) != Sign(w, operand))
      {
        if reg in {0, 2} {
          val := RotateLeft(reg, w, val, count);
        } else if reg in {1, 3} {
          val := RotateRight(reg, w, val, count);
        } else {
          val := ShiftOnce(reg, w, val, count);
        }
      }
    }

    /** One turn of it to the left, */
    method RotateLeft(reg: nat, w: nat, operand: nat, count: nat) returns (val: nat)
      requires reg in {0, 2} && w >= 2 && operand < Pow2(w) && count >= 1
      modifies `cf, `of
      ensures Operand(val, cf) == Once(OpOf(reg), w, Operand(operand, old(cf)))
      ensures count == 1 ==> (of <==> Sign(w, val) != Sign(w, operand))
    {
      hide Pow2;
      DoublePow(w);
      Doubled(w, operand);
      var mask, signBit := Pow2(w), Pow2(w - 1);
      var out := operand >= signBit;
      var into := if reg == 0 then out else cf;
      val := operand * 2 % mask + Digit(into);
      cf := out;
      if count == 1 {
        of := (val >= signBit) != cf;
      }
    }

    /** to the right, */
    method RotateRight(reg: nat, w: nat, operand: nat, count: nat) returns (val: nat)
      requires reg in {1, 3} && w >= 2 && operand < Pow2(w) && count >= 1
      modifies `cf, `of
      ensures Operand(val, cf) == Once(OpOf(reg), w, Operand(operand, old(cf)))
      ensures count == 1 ==> (of <==> Sign(w, val) != Sign(w, operand))
    {
      hide Pow2;
      DoublePow(w);
      DoublePow(w - 1);
      var signBit := Pow2(w - 1);
      var out := operand % 2;
      var into := if reg == 1 then out else Digit(cf);
      val := operand / 2 + into * signBit;
      cf := out == 1;
      SecondBit(operand, into, signBit);
      if count == 1 {
        of := (val >= signBit) != (val % signBit >= signBit / 2);
      }
    }

    /** or of a shift. */
    method ShiftOnce(reg: nat, w: nat, operand: nat, count: nat) returns (val: nat)
      requires 4 <= reg < 8 && w >= 2 && operand < Pow2(w) && count >= 1
      modifies `cf, `of
      ensures Operand(val, cf) == Once(OpOf(reg), w, Operand(operand, old(cf)))
      ensures count == 1 ==> (of <==> Sign(w, val) != Sign(w, operand))
    {
      hide Pow2;
      DoublePow(w);
      Doubled(w, operand);
      var mask, signBit := Pow2(w), Pow2(w - 1);
      val := operand;
      if reg == 5 {
        cf := val % 2 == 1;
        of := val >= signBit && count == 1;
        val := val / 2;
      } else if reg == 7 {
        cf := val % 2 == 1;
        val := val / 2 + (if val >= signBit then signBit else 0);
        of := false;
      } else {
        cf := val >= signBit;
        val := val * 2 % mask;
        of := cf != (val >= signBit) && count == 1;
      }
    }
  }

  /** After a rotate to the right the second highest bit is the old sign. */
  lemma SecondBit(v: nat, into: nat, signBit: nat)
    requires into <= 1 && signBit > 0 && signBit % 2 == 0 && v < 2 * signBit
    ensures (v / 2 + into * signBit) % signBit >= signBit / 2 <==> v >= signBit
    ensures v / 2 + into * signBit >= signBit <==> into == 1
  {
    DivModUnique(v / 2 + into * signBit, signBit, into, v / 2);
  }
}
