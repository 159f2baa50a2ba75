/** Shifts and rotates (`cpu.py`), one bit at a time, against what they compute:
    multiplication, floor division and rotation of the ring of bits. */
module Shifts {
  import opened Bytes

  function Pow2(n: nat): (r: nat)
    ensures r >= 1
  {
    if n == 0 then 1 else 2 * Pow2(n - 1)
  }

  datatype Op = Rol | Ror | Rcl | Rcr | Shl | Shr | Sar

  /** The operand and the carry flag. */
  datatype Operand = Operand(val: nat, cf: bool)

  predicate Fits(w: nat, x: Operand) { x.val < Pow2(w) }

  function Sign(w: nat, v: nat): bool
    requires w >= 1
  {
    v >= Pow2(w - 1)
  }

  function Digit(b: bool): nat { if b then 1 else 0 }

  predicate Odd(n: int) { n % 2 == 1 }

  /** One turn of the loop of `_do_shift` at width w. */
  function Once(op: Op, w: nat, x: Operand): (r: Operand)
    requires w >= 1 && Fits(w, x)
    ensures Fits(w, r)
  {
    var half := Pow2(w - 1);
    var out := if op in {Rol, Rcl, Shl} then Sign(w, x.val) else Odd(x.val);
    var val := match op
      case Rol => x.val * 2 % Pow2(w) + Digit(out)
      case Ror => x.val / 2 + Digit(out) * half
      case Rcl => x.val * 2 % Pow2(w) + Digit(x.cf)
      case Rcr => x.val / 2 + Digit(x.cf) * half
      case Shl => x.val * 2 % Pow2(w)
      case Shr => x.val / 2
      case Sar => x.val / 2 + Digit(Sign(w, x.val)) * half;
    Doubled(w, x.val);
    Operand(val, out)
  }

  lemma Doubled(w: nat, v: nat)
    requires w >= 1 && v < Pow2(w)
    ensures v * 2 % Pow2(w) == 2 * v - Digit(Sign(w, v)) * Pow2(w)
  {
    DivModUnique(v * 2, Pow2(w), Digit(Sign(w, v)), 2 * v - Digit(Sign(w, v)) * Pow2(w));
  }

  function Times(op: Op, w: nat, x: Operand, n: nat): (r: Operand)
    requires w >= 1 && Fits(w, x)
    ensures Fits(w, r)
  {
    if n == 0 then x else Once(op, w, Times(op, w, x, n - 1))
  }

  // ---- Shifts are arithmetic ----

  function Signed(w: nat, v: nat): int
    requires w >= 1
  {
    if Sign(w, v) then v - Pow2(w) else v
  }

  lemma ModDouble(x: nat, m: nat)
    requires m > 0
    ensures x % m * 2 % m == 2 * x % m
    ensures x * 2 / m == 2 * (x / m) + x % m * 2 / m
  {
    var q, r := x / m, x % m;
    var q', r' := r * 2 / m, r * 2 % m;
    assert 2 * x == m * (2 * q + q') + r' by {
      assert x == m * q + r && r * 2 == m * q' + r';
      assert m * (2 * q + q') == 2 * (m * q) + m * q';
    }
    DivModUnique(2 * x, m, 2 * q + q', r');
  }

  lemma ShlDoubles(w: nat, y: nat, cf: bool)
    requires w >= 1
    ensures Fits(w, Operand(y % Pow2(w), cf))
    ensures Once(Shl, w, Operand(y % Pow2(w), cf)) == Operand(2 * y % Pow2(w), Odd(2 * y / Pow2(w)))
  {
    hide Pow2, Once;
    var m := Pow2(w);
    var r := y % m;
    ModDouble(y, m);
    OnceShl(w, Operand(r, cf));
    DoubleOver(w, r);
    assert y * 2 == 2 * y;
    OddTwice(y / m, Sign(w, r));
  }

  lemma DoubleOver(w: nat, v: nat)
    requires w >= 1 && v < Pow2(w)
    ensures v * 2 / Pow2(w) == Digit(Sign(w, v))
  {
    DivModUnique(v * 2, Pow2(w), Digit(Sign(w, v)), 2 * v - Digit(Sign(w, v)) * Pow2(w));
  }

  lemma OnceShl(w: nat, x: Operand)
    requires w >= 1 && Fits(w, x)
    ensures Once(Shl, w, x) == Operand(x.val * 2 % Pow2(w), Sign(w, x.val))
  {
    hide Pow2;
  }

  lemma OddTwice(q: nat, d: bool)
    ensures Odd(2 * q + Digit(d)) == d
  {
  }

  lemma TwiceAsMuch(v: nat, n: nat)
    requires n > 0
    ensures v * Pow2(n) == 2 * (v * Pow2(n - 1))
  {
  }

  /** Shifting left multiplies by a power of two, modulo the width; the carry is the
      first bit above the width. */
  lemma {:induction false} ShlMultiplies(w: nat, x: Operand, n: nat)
    requires w >= 1 && Fits(w, x)
    ensures Times(Shl, w, x, n).val == x.val * Pow2(n) % Pow2(w)
    ensures n > 0 ==> Times(Shl, w, x, n).cf == Odd(x.val * Pow2(n) / Pow2(w))
  {
    if n == 0 {
      DivModUnique(x.val, Pow2(w), 0, x.val);
    } else {
      hide Once;
      ShlMultiplies(w, x, n - 1);
      TwiceAsMuch(x.val, n);
      ShlDoubles(w, x.val * Pow2(n - 1), Times(Shl, w, x, n - 1).cf);
    }
  }

  lemma DivTwice(v: int, m: nat)
    requires m > 0
    ensures v / m / 2 == v / (2 * m)
  {
    var q, r := v / m, v % m;
    assert v == m * q + r;
    if q % 2 == 0 {
      assert q == 2 * (q / 2) && m * q == 2 * m * (q / 2);
      DivModUnique(v, 2 * m, q / 2, r);
    } else {
      assert q == 2 * (q / 2) + 1 && m * q == 2 * m * (q / 2) + m;
      DivModUnique(v, 2 * m, q / 2, m + r);
    }
  }

  /** Shifting right divides, rounding down; the carry is the last bit dropped. */
  lemma {:induction false} ShrDivides(w: nat, x: Operand, n: nat)
    requires w >= 1 && Fits(w, x)
    ensures Times(Shr, w, x, n).val == x.val / Pow2(n)
    ensures n > 0 ==> Times(Shr, w, x, n).cf == Odd(x.val / Pow2(n - 1))
  {
    if n > 0 {
      ShrDivides(w, x, n - 1);
      DivTwice(x.val, Pow2(n - 1));
    }
  }

  /** So does the arithmetic shift on signed values, towards minus infinity. */
  lemma {:induction false} SarFloors(w: nat, x: Operand, n: nat)
    requires w >= 1 && Fits(w, x)
    ensures Signed(w, Times(Sar, w, x, n).val) == Signed(w, x.val) / Pow2(n)
    ensures n > 0 ==> Times(Sar, w, x, n).cf == Odd(Signed(w, x.val) / Pow2(n - 1))
  {
    if n > 0 {
      SarFloors(w, x, n - 1);
      DivTwice(Signed(w, x.val), Pow2(n - 1));
      SarHalves(w, Times(Sar, w, x, n - 1));
    }
  }

  lemma SarHalves(w: nat, x: Operand)
    requires w >= 1 && Fits(w, x)
    ensures var r := Once(Sar, w, x);
      Signed(w, r.val) == Signed(w, x.val) / 2 && r.cf == Odd(Signed(w, x.val))
  {
    if w > 1 {
      assert Pow2(w) == 2 * Pow2(w - 1) && Pow2(w - 1) == 2 * Pow2(w - 2);
    }
  }

  // ---- Rotates turn a ring of bits ----

  /** The bits of a word, lowest first. */
  function Bits(w: nat, v: nat): (s: seq<bool>)
    ensures |s| == w
  {
    if w == 0 then [] else [Odd(v)] + Bits(w - 1, v / 2)
  }

  /** The ring a rotate turns: the word, and the carry on top for the rotates
      through carry. */
  function Ring(op: Op, w: nat, x: Operand): seq<bool> {
    if op in {Rcl, Rcr} then Bits(w, x.val) + [x.cf] else Bits(w, x.val)
  }

  function RingSize(op: Op, w: nat): nat { if op in {Rcl, Rcr} then w + 1 else w }

  /** The ring turned n places towards the top. */
  function Turned(s: seq<bool>, n: nat): (r: seq<bool>)
    requires n <= |s|
    ensures |r| == |s|
  {
    s[|s| - n..] + s[..|s| - n]
  }

  lemma {:induction false} BitsOfPushed(w: nat, v: nat, b: bool)
    ensures Bits(w + 1, 2 * v + Digit(b)) == [b] + Bits(w, v)
  {
  }

  lemma {:induction false} TopBit(w: nat, v: nat)
    requires w >= 1 && v < Pow2(w)
    ensures Bits(w, v) == Bits(w - 1, v - Digit(Sign(w, v)) * Pow2(w - 1)) + [Sign(w, v)]
    ensures v - Digit(Sign(w, v)) * Pow2(w - 1) < Pow2(w - 1)
  {
    if w > 1 {
      TopBit(w - 1, v / 2);
    }
  }

  lemma {:induction false} SameBits(w: nat, a: nat, b: nat)
    requires a < Pow2(w) && b < Pow2(w) && Bits(w, a) == Bits(w, b)
    ensures a == b
  {
    if w > 0 {
      assert Bits(w, a)[1..] == Bits(w - 1, a / 2) && Bits(w, b)[1..] == Bits(w - 1, b / 2);
      assert Bits(w, a)[0] == Odd(a) && Bits(w, b)[0] == Odd(b);
      SameBits(w - 1, a / 2, b / 2);
    }
  }

  /** One step up and one step down, without remainders. */
  lemma StepUp(op: Op, w: nat, x: Operand)
    requires w >= 1 && Fits(w, x) && op in {Rol, Rcl}
    ensures var low, into := x.val - Digit(Sign(w, x.val)) * Pow2(w - 1), if op == Rol then Sign(w, x.val) else x.cf;
      low >= 0 && Once(op, w, x) == Operand(2 * low + Digit(into), Sign(w, x.val))
  {
    Doubled(w, x.val);
  }

  lemma StepDown(op: Op, w: nat, low: nat, bit: bool, cf: bool)
    requires w >= 1 && low < Pow2(w - 1) && op in {Ror, Rcr}
    ensures Fits(w, Operand(2 * low + Digit(bit), cf))
    ensures Once(op, w, Operand(2 * low + Digit(bit), cf))
      == Operand(low + Digit(if op == Ror then bit else cf) * Pow2(w - 1), bit)
  {
    hide Pow2;
    DoublePow(w);
    DivModUnique(2 * low + Digit(bit), 2, low, Digit(bit));
  }

  lemma DoublePow(w: nat)
    requires w >= 1
    ensures Pow2(w) == 2 * Pow2(w - 1)
  {
  }

  /** A rotate to the left turns the ring one place up. */
  lemma TurnsUp(op: Op, w: nat, x: Operand)
    requires w >= 1 && Fits(w, x) && op in {Rol, Rcl}
    ensures Ring(op, w, Once(op, w, x)) == Turned(Ring(op, w, x), 1)
  {
    hide Once, Sign, Pow2, Bits;
    var v := x.val;
    var low := v - Digit(Sign(w, v)) * Pow2(w - 1);
    StepUp(op, w, x);
    TopBit(w, v);
    BitsOfPushed(w - 1, low, if op == Rol then Sign(w, v) else x.cf);
  }

  /** A rotate to the right undoes a rotate to the left. */
  lemma DownUndoesUp(w: nat, x: Operand)
    requires w >= 1 && Fits(w, x)
    ensures Once(Ror, w, Once(Rol, w, x)).val == x.val && Once(Rcr, w, Once(Rcl, w, x)) == x
  {
    hide Once, Sign;
    var s := Sign(w, x.val);
    var low := x.val - Digit(s) * Pow2(w - 1);
    TopBit(w, x.val);
    StepUp(Rol, w, x);
    StepUp(Rcl, w, x);
    StepDown(Ror, w, low, s, s);
    StepDown(Rcr, w, low, x.cf, s);
  }

  /** And a rotate to the left undoes a rotate to the right. */
  lemma UpUndoesDown(w: nat, x: Operand)
    requires w >= 1 && Fits(w, x)
    ensures Once(Rol, w, Once(Ror, w, x)).val == x.val && Once(Rcl, w, Once(Rcr, w, x)) == x
  {
    hide Once;
    var low, bit := x.val / 2, Odd(x.val);
    DoublePow(w);
    assert x.val == 2 * low + Digit(bit);
    StepDown(Ror, w, low, bit, x.cf);
    StepDown(Rcr, w, low, bit, x.cf);
    StepUp(Rol, w, Once(Ror, w, x));
    StepUp(Rcl, w, Once(Rcr, w, x));
  }

  function Opposite(op: Op): Op
    requires op.Rol? || op.Ror? || op.Rcl? || op.Rcr?
  {
    match op case Rol => Ror case Ror => Rol case Rcl => Rcr case Rcr => Rcl
  }

  lemma OnceUndone(op: Op, w: nat, x: Operand)
    requires w >= 1 && Fits(w, x) && op in {Rol, Ror, Rcl, Rcr}
    ensures Once(Opposite(op), w, Once(op, w, x)).val == x.val
    ensures op in {Rcl, Rcr} ==> Once(Opposite(op), w, Once(op, w, x)) == x
  {
    hide Once;
    DownUndoesUp(w, x);
    UpUndoesDown(w, x);
  }

  /** The first turn may be taken apart from the rest. */
  lemma {:induction false} FirstTurn(op: Op, w: nat, x: Operand, n: nat)
    requires w >= 1 && Fits(w, x) && n > 0
    ensures Times(op, w, x, n) == Times(op, w, Once(op, w, x), n - 1)
  {
    hide Once;
    if n > 1 {
      FirstTurn(op, w, x, n - 1);
    }
  }

  lemma {:induction false} SameValue(op: Op, w: nat, x: Operand, y: Operand, n: nat)
    requires w >= 1 && Fits(w, x) && x.val == y.val && op in {Rol, Ror}
    ensures Times(op, w, x, n).val == Times(op, w, y, n).val
  {
    if n > 0 {
      SameValue(op, w, x, y, n - 1);
    }
  }

  /** Rotating and rotating back by the same count restores the operand, and through
      the carry the carry as well. */
  lemma {:induction false} RotateAndBack(op: Op, w: nat, x: Operand, n: nat)
    requires w >= 1 && Fits(w, x) && op in {Rol, Ror, Rcl, Rcr}
    ensures Times(Opposite(op), w, Times(op, w, x, n), n).val == x.val
    ensures op in {Rcl, Rcr} ==> Times(Opposite(op), w, Times(op, w, x, n), n) == x
  {
    hide Once;
    if n > 0 {
      var y := Times(op, w, x, n - 1);
      var back := Once(Opposite(op), w, Once(op, w, y));
      FirstTurn(Opposite(op), w, Once(op, w, y), n);
      OnceUndone(op, w, y);
      if op in {Rol, Ror} {
        SameValue(Opposite(op), w, back, y, n - 1);
      }
      RotateAndBack(op, w, x, n - 1);
    }
  }

  lemma TurnedOnce(s: seq<bool>, n: nat)
    requires 0 < n <= |s|
    ensures Turned(Turned(s, n - 1), 1) == Turned(s, n)
  {
  }

  lemma TurnedNot(s: seq<bool>)
    ensures Turned(s, 0) == s
  {
  }

  /** n turns of a rotate to the left turn the ring n places, and turning it all the
      way round is no turn: counts may be reduced modulo the length of the ring. */
  lemma {:induction false} RotatesRing(op: Op, w: nat, x: Operand, n: nat)
    requires w >= 1 && Fits(w, x) && op in {Rol, Rcl} && n <= |Ring(op, w, x)|
    ensures Ring(op, w, Times(op, w, x, n)) == Turned(Ring(op, w, x), n)
  {
    hide Once, Bits, Pow2, Turned, Ring;
    if n > 0 {
      RotatesRing(op, w, x, n - 1);
      TurnsUp(op, w, Times(op, w, x, n - 1));
      TurnedOnce(Ring(op, w, x), n);
    } else {
      TurnedNot(Ring(op, w, x));
    }
  }

  /** n turns of a rotate to the right turn it n places down: up again it is the ring it
      was. */
  lemma RotatesRingDown(op: Op, w: nat, x: Operand, n: nat)
    requires w >= 1 && Fits(w, x) && op in {Ror, Rcr} && n <= RingSize(op, w)
    ensures Turned(Ring(op, w, Times(op, w, x, n)), n) == Ring(op, w, x)
  {
    hide Once, Bits, Pow2, Turned;
    RotatesRing(Opposite(op), w, Times(op, w, x, n), n);
    RotateAndBack(op, w, x, n);
  }

  /** The carry after a rotate is the bit that came round last. */
  lemma RotatedCarry(op: Op, w: nat, x: Operand, n: nat)
    requires w >= 1 && Fits(w, x) && n > 0
    ensures op == Rol ==> Times(op, w, x, n).cf == Odd(Times(op, w, x, n).val)
    ensures op == Ror ==> Times(op, w, x, n).cf == Sign(w, Times(op, w, x, n).val)
  {
    hide Once, Sign, Pow2;
    var y := Times(op, w, x, n - 1);
    if op == Rol {
      StepUp(op, w, y);
    } else if op == Ror {
      LowHalf(w, y.val);
      StepDown(op, w, y.val / 2, Odd(y.val), y.cf);
      TopOf(w, y.val / 2, Odd(y.val));
    }
  }

  lemma LowHalf(w: nat, v: nat)
    requires w >= 1 && v < Pow2(w)
    ensures v / 2 < Pow2(w - 1) && v == 2 * (v / 2) + Digit(Odd(v))
  {
    DoublePow(w);
  }

  lemma TopOf(w: nat, low: nat, bit: bool)
    requires w >= 1 && low < Pow2(w - 1)
    ensures Sign(w, low + Digit(bit) * Pow2(w - 1)) == bit
  {
  }

  lemma FullTurn(op: Op, w: nat, x: Operand)
    requires w >= 1 && Fits(w, x) && op in {Rol, Rcl}
    ensures var r := Times(op, w, x, if op == Rol then w else w + 1);
      r.val == x.val && (op == Rcl ==> r == x)
  {
    hide Once, Bits;
    var s := Ring(op, w, x);
    var r := Times(op, w, x, |s|);
    RotatesRing(op, w, x, |s|);
    assert Turned(s, |s|) == s;
    if op == Rcl {
      assert s[..w] == Bits(w, x.val) && Ring(op, w, r)[..w] == Bits(w, r.val);
      assert s[w] == x.cf && Ring(op, w, r)[w] == r.cf;
    }
    SameBits(w, r.val, x.val);
  }

  lemma {:induction false} TimesSplit(op: Op, w: nat, x: Operand, a: nat, b: nat)
    requires w >= 1 && Fits(w, x)
    ensures Times(op, w, x, a + b) == Times(op, w, Times(op, w, x, a), b)
  {
    hide Once;
    if b > 0 {
      TimesSplit(op, w, x, a, b - 1);
    }
  }

  lemma FullTurnAnyWay(op: Op, w: nat, x: Operand)
    requires w >= 1 && Fits(w, x) && op in {Rol, Ror, Rcl, Rcr}
    ensures var r := Times(op, w, x, RingSize(op, w));
      r.val == x.val && (op in {Rcl, Rcr} ==> r == x)
  {
    hide Once;
    var up := if op in {Rol, Ror} then Rol else Rcl;
    FullTurn(up, w, x);
    if op in {Ror, Rcr} {
      var turned := Times(up, w, x, RingSize(op, w));
      RotateAndBack(up, w, x, RingSize(op, w));
      if op == Ror {
        SameValue(op, w, turned, x, RingSize(op, w));
      }
    }
  }

  /** Turning a ring all the way round is no turn: reducing the count modulo the
      length of the ring does not change the operand, nor the carry where the carry
      is in the ring. */
  lemma {:induction false} CountsWrap(op: Op, w: nat, x: Operand, n: nat)
    requires w >= 1 && Fits(w, x) && op in {Rol, Ror, Rcl, Rcr}
    ensures var r, r' := Times(op, w, x, n), Times(op, w, x, n % RingSize(op, w));
      r.val == r'.val && (op in {Rcl, Rcr} ==> r == r')
  {
    hide Once;
    var size := RingSize(op, w);
    if n >= size {
      var turned := Times(op, w, x, size);
      TimesSplit(op, w, x, size, n - size);
      FullTurnAnyWay(op, w, x);
      if op in {Rol, Ror} {
        SameValue(op, w, turned, x, n - size);
      }
      CountsWrap(op, w, x, n - size);
      DivModUnique(n, size, 1 + (n - size) / size, (n - size) % size);
    } else {
      DivModUnique(n, size, 0, n);
    }
  }
}
