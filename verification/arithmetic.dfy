/** Addition and subtraction with flags (`cpu.py`): what the flags decide after a
    compare, multi-word chains, and decimal arithmetic with the adjust instructions. */
module Arithmetic {
  import opened Bytes
  import opened Shifts

  datatype Flags = Flags(cf: bool, of: bool, zf: bool, sf: bool, af: bool, pf: bool)

  datatype Outcome = Outcome(r: nat, f: Flags)

  function Ones(n: nat): nat {
    if n == 0 then 0 else n % 2 + Ones(n / 2)
  }

  predicate EvenParity(n: nat) { Ones(n % 0x100) % 2 == 0 }

  /** The top bit at width w, of a number that may be wider. */
  predicate TopBitOf(w: nat, n: nat)
    requires w >= 1
  {
    Odd(n / Pow2(w - 1))
  }

  /** Bit 4 of a ^ b ^ r. */
  predicate HalfBit(a: nat, b: nat, r: nat) { Odd(a / 16 + b / 16 + r / 16) }

  /** `_flags_add8/16/32` */
  function Add(w: nat, a: nat, b: nat): Outcome
    requires w >= 1
  {
    var r := (a + b) % Pow2(w);
    Outcome(r, Flags(a + b >= Pow2(w), TopBitOf(w, a) == TopBitOf(w, b) && TopBitOf(w, a) != TopBitOf(w, r),
                     r == 0, TopBitOf(w, r), HalfBit(a, b, r), EvenParity(r)))
  }

  /** `_flags_sub8/16/32` */
  function Sub(w: nat, a: nat, b: nat): Outcome
    requires w >= 1
  {
    var r := (a - b) % Pow2(w);
    Outcome(r, Flags(a < b, TopBitOf(w, a) != TopBitOf(w, b) && TopBitOf(w, a) != TopBitOf(w, r),
                     r == 0, TopBitOf(w, r), HalfBit(a, b, r), EvenParity(r)))
  }

  // ---- Parity ----

  /** The bit of n with weight m. */
  function BitOf(n: nat, m: nat): nat
    requires m > 0
  {
    n / m % 2
  }

  /** How many of the low eight bits are set. */
  function BitSum(n: nat): nat {
    var b := n % 0x100;
    BitOf(b, 1) + BitOf(b, 2) + BitOf(b, 4) + BitOf(b, 8) + BitOf(b, 16) + BitOf(b, 32) + BitOf(b, 64) + BitOf(b, 128)
  }

  lemma OnesStep(n: nat, m: nat)
    requires m > 0
    ensures Ones(n / m) == BitOf(n, m) + Ones(n / (2 * m))
  {
    DivTwice(n, m);
  }

  lemma OnesEnds(b: nat)
    requires b < 0x100
    ensures Ones(b / 1) == Ones(b) && Ones(b / 0x100) == 0
  {
  }

  lemma OnesAreBits(b: nat)
    requires b < 0x100
    ensures Ones(b) == BitOf(b, 1) + BitOf(b, 2) + BitOf(b, 4) + BitOf(b, 8) + BitOf(b, 16) + BitOf(b, 32)
                       + BitOf(b, 64) + BitOf(b, 128)
  {
    hide Ones, BitOf;
    OnesEnds(b);
    OnesStep(b, 1);
    OnesStep(b, 2);
    OnesStep(b, 4);
    OnesStep(b, 8);
    OnesStep(b, 16);
    OnesStep(b, 32);
    OnesStep(b, 64);
    OnesStep(b, 128);
  }

  /** The parity flag counts the low eight bits, at any width. */
  lemma ParityMeans(n: nat)
    ensures EvenParity(n) <==> BitSum(n) % 2 == 0
  {
    hide Ones, BitOf;
    OnesAreBits(n % 0x100);
  }

  // ---- Conditions after a compare ----

  /** The conditions of the sixteen short jumps. */
  predicate Condition(index: nat, f: Flags) {
    if index == 0 then f.of
    else if index == 1 then !f.of
    else if index == 2 then f.cf
    else if index == 3 then !f.cf
    else if index == 4 then f.zf
    else if index == 5 then !f.zf
    else if index == 6 then f.zf || f.cf
    else if index == 7 then !(f.zf || f.cf)
    else if index == 8 then f.sf
    else if index == 9 then !f.sf
    else if index == 10 then f.pf
    else if index == 11 then !f.pf
    else if index == 12 then f.sf != f.of
    else if index == 13 then f.sf == f.of
    else if index == 14 then f.zf || f.sf != f.of
    else !(f.zf || f.sf != f.of)
  }

  predicate InRange(w: nat, x: int)
    requires w >= 1
  {
    0 <= x + Pow2(w - 1) < Pow2(w)
  }

  lemma TopBitIsSign(w: nat, v: nat)
    requires w >= 1 && v < Pow2(w)
    ensures TopBitOf(w, v) == Sign(w, v)
  {
    DivModUnique(v, Pow2(w - 1), Digit(Sign(w, v)), v - Digit(Sign(w, v)) * Pow2(w - 1));
  }

  lemma Wrapped(w: nat, x: int)
    requires w >= 1 && 0 <= x + Pow2(w) && x < 2 * Pow2(w)
    ensures x % Pow2(w) == if x < 0 then x + Pow2(w) else if x < Pow2(w) then x else x - Pow2(w)
  {
    var m := Pow2(w);
    if x < 0 {
      DivModUnique(x, m, -1, x + m);
    } else if x < m {
      DivModUnique(x, m, 0, x);
    } else {
      DivModUnique(x, m, 1, x - m);
    }
  }

  /** What the sixteen short jumps are for, after comparing a with b. */
  predicate Decided(index: nat, w: nat, a: nat, b: nat)
    requires w >= 1
  {
    var x, y := Signed(w, a), Signed(w, b);
    if index == 0 then !InRange(w, x - y)
    else if index == 1 then InRange(w, x - y)
    else if index == 2 then a < b
    else if index == 3 then a >= b
    else if index == 4 then a == b
    else if index == 5 then a != b
    else if index == 6 then a <= b
    else if index == 7 then a > b
    else if index == 8 then if InRange(w, x - y) then x < y else x > y
    else if index == 9 then if InRange(w, x - y) then x >= y else x <= y
    else if index == 10 then BitSum((a - b) % Pow2(w)) % 2 == 0
    else if index == 11 then BitSum((a - b) % Pow2(w)) % 2 == 1
    else if index == 12 then x < y
    else if index == 13 then x >= y
    else if index == 14 then x <= y
    else x > y
  }

  lemma CompareFlags(w: nat, a: nat, b: nat)
    requires w >= 1 && a < Pow2(w) && b < Pow2(w)
    ensures var f, x, y := Sub(w, a, b).f, Signed(w, a), Signed(w, b);
      && (f.cf <==> a < b) && (f.zf <==> a == b) && (f.zf <==> x == y)
      && (f.of <==> !InRange(w, x - y)) && (f.sf != f.of <==> x < y)
  {
    hide Pow2, EvenParity, HalfBit, TopBitOf;
    Wrapped(w, a - b);
    TopBitIsSign(w, a);
    TopBitIsSign(w, b);
    TopBitIsSign(w, (a - b) % Pow2(w));
    DoublePow(w);
  }

  /** After comparing a with b, the jumps decide the unsigned order, the signed order,
      equality, signed overflow, the sign and the parity of the difference. */
  lemma CompareDecides(w: nat, a: nat, b: nat, index: nat)
    requires w >= 1 && a < Pow2(w) && b < Pow2(w)
    ensures Condition(index, Sub(w, a, b).f) <==> Decided(index, w, a, b)
  {
    hide Pow2, EvenParity, BitSum, HalfBit, TopBitOf, InRange, Signed;
    CompareFlags(w, a, b);
    ParityMeans((a - b) % Pow2(w));
  }

  /** The result is x at width w, and zero, sign and parity flag are those of the result. */
  ghost predicate ResultFlags(w: nat, x: int, o: Outcome)
    requires w >= 1
  {
    && o.r == x % Pow2(w) && (o.f.zf <==> x % Pow2(w) == 0) && (o.f.sf <==> Signed(w, o.r) < 0)
    && (o.f.pf <==> BitSum(o.r) % 2 == 0)
  }

  lemma SignMeans(w: nat, r: nat)
    requires w >= 1 && r < Pow2(w)
    ensures TopBitOf(w, r) <==> Signed(w, r) < 0
  {
    TopBitIsSign(w, r);
  }

  lemma AddedFlags(w: nat, a: nat, b: nat)
    requires w >= 1
    ensures ResultFlags(w, a + b, Add(w, a, b))
  {
    hide Pow2, EvenParity, BitSum, HalfBit, TopBitOf, Signed;
    SignMeans(w, (a + b) % Pow2(w));
    ParityMeans((a + b) % Pow2(w));
  }

  lemma TakenFlags(w: nat, a: nat, b: nat)
    requires w >= 1
    ensures ResultFlags(w, a - b, Sub(w, a, b))
  {
    hide Pow2, EvenParity, BitSum, HalfBit, TopBitOf, Signed;
    SignMeans(w, (a - b) % Pow2(w));
    ParityMeans((a - b) % Pow2(w));
  }

  // ---- Chains of dwords ----

  /** `_alu32` for ADC and SBB: auxiliary carry and overflow are taken from the
      operand without the carry. */
  function Adc(w: nat, a: nat, b: nat, c: bool): Outcome
    requires w >= 1
  {
    var o := Add(w, a, b + Digit(c));
    o.(f := o.f.(af := HalfBit(a, b, o.r),
                 of := TopBitOf(w, a) == TopBitOf(w, b) && TopBitOf(w, a) != TopBitOf(w, o.r)))
  }

  function Sbb(w: nat, a: nat, b: nat, c: bool): Outcome
    requires w >= 1
  {
    var o := Sub(w, a, b + Digit(c));
    o.(f := o.f.(af := HalfBit(a, b, o.r),
                 of := TopBitOf(w, a) != TopBitOf(w, b) && TopBitOf(w, a) != TopBitOf(w, o.r)))
  }

  /** The overflow of a sum or difference of two signed numbers of half range h, and
      the signed result when there is none. */
  function SignedAt(h: nat, v: nat): int {
    if v >= h then v - 2 * h else v
  }

  lemma AddedSigned(h: nat, a: nat, b: nat, c: nat, r: nat)
    requires a < 2 * h && b < 2 * h && c <= 1 && r == if a + b + c < 2 * h then a + b + c else a + b + c - 2 * h
    ensures var sum := SignedAt(h, a) + SignedAt(h, b) + c;
      && (((a >= h) == (b >= h) && (a >= h) != (r >= h)) <==> !(0 <= sum + h < 2 * h))
      && (0 <= sum + h < 2 * h ==> SignedAt(h, r) == sum)
  {
  }

  lemma TakenSigned(h: nat, a: nat, b: nat, c: nat, r: nat)
    requires a < 2 * h && b < 2 * h && c <= 1 && r == if a < b + c then a - b - c + 2 * h else a - b - c
    ensures var rest := SignedAt(h, a) - SignedAt(h, b) - c;
      && (((a >= h) != (b >= h) && (a >= h) != (r >= h)) <==> !(0 <= rest + h < 2 * h))
      && (0 <= rest + h < 2 * h ==> SignedAt(h, r) == rest)
  {
  }

  lemma SignedIsAt(w: nat, v: nat)
    requires w >= 1 && v < Pow2(w)
    ensures Signed(w, v) == SignedAt(Pow2(w - 1), v) && TopBitOf(w, v) == (v >= Pow2(w - 1))
  {
    hide Pow2, TopBitOf;
    DoublePow(w);
    TopBitIsSign(w, v);
  }

  lemma CarriedFlags(w: nat, a: nat, b: nat, c: bool)
    requires w >= 1
    ensures ResultFlags(w, a + b + Digit(c), Adc(w, a, b, c)) && ResultFlags(w, a - b - Digit(c), Sbb(w, a, b, c))
  {
    hide Pow2, EvenParity, HalfBit, TopBitOf, Signed, BitSum, Add, Sub;
    AddedFlags(w, a, b + Digit(c));
    TakenFlags(w, a, b + Digit(c));
  }

  lemma AdcExact(w: nat, a: nat, b: nat, c: bool)
    requires w >= 1 && a < Pow2(w) && b < Pow2(w)
    ensures var o := Adc(w, a, b, c);
      && o.r < Pow2(w) && o.r + Digit(o.f.cf) * Pow2(w) == a + b + Digit(c)
      && (o.f.of <==> !InRange(w, Signed(w, a) + Signed(w, b) + Digit(c)))
      && (!o.f.of ==> Signed(w, o.r) == Signed(w, a) + Signed(w, b) + Digit(c))
      && ResultFlags(w, a + b + Digit(c), o)
  {
    hide Pow2, EvenParity, HalfBit, TopBitOf, Signed, SignedAt, ResultFlags;
    CarriedFlags(w, a, b, c);
    var r := (a + b + Digit(c)) % Pow2(w);
    DoublePow(w);
    Wrapped(w, a + b + Digit(c));
    SignedIsAt(w, a);
    SignedIsAt(w, b);
    SignedIsAt(w, r);
    AddedSigned(Pow2(w - 1), a, b, Digit(c), r);
  }

  lemma SbbExact(w: nat, a: nat, b: nat, c: bool)
    requires w >= 1 && a < Pow2(w) && b < Pow2(w)
    ensures var o := Sbb(w, a, b, c);
      && o.r < Pow2(w) && o.r - Digit(o.f.cf) * Pow2(w) == a - b - Digit(c)
      && (o.f.of <==> !InRange(w, Signed(w, a) - Signed(w, b) - Digit(c)))
      && (!o.f.of ==> Signed(w, o.r) == Signed(w, a) - Signed(w, b) - Digit(c))
      && ResultFlags(w, a - b - Digit(c), o)
  {
    hide Pow2, EvenParity, HalfBit, TopBitOf, Signed, SignedAt, ResultFlags;
    CarriedFlags(w, a, b, c);
    var r := (a - (b + Digit(c))) % Pow2(w);
    DoublePow(w);
    Wrapped(w, a - (b + Digit(c)));
    SignedIsAt(w, a);
    SignedIsAt(w, b);
    SignedIsAt(w, r);
    TakenSigned(Pow2(w - 1), a, b, Digit(c), r);
  }

  lemma ThirtyTwo(w: nat)
    requires w >= 5
    ensures Pow2(w) == 32 * Pow2(w - 5)
  {
    DoublePow(w);
    DoublePow(w - 1);
    DoublePow(w - 2);
    DoublePow(w - 3);
    DoublePow(w - 4);
  }

  lemma BitFour(n: int, r: nat)
    ensures Odd((32 * n + r) / 16) == Odd(r / 16)
  {
    DivModUnique(32 * n + r, 16, 2 * n + r / 16, r % 16);
  }

  lemma Split(x: int, m: int)
    requires m > 0
    ensures x == m * (x / m) + x % m
  {
  }

  /** Dropping the bits above the width keeps bit 4. */
  lemma LowBitsKept(w: nat, x: int)
    requires w >= 5
    ensures Odd(x % Pow2(w) / 16) == Odd(x / 16)
  {
    hide Pow2, Odd;
    ThirtyTwo(w);
    var k := Pow2(w - 5);
    var q, r := x / Pow2(w), x % Pow2(w);
    Split(x, Pow2(w));
    MulAssoc(32, k, q);
    BitFour(k * q, r);
  }

  lemma MulAssoc(a: int, b: int, c: int)
    ensures a * b * c == a * (b * c)
  {
  }

  /** The half carry is exact as well: the carry out of the low four bits. */
  lemma HalfCarry(w: nat, a: nat, b: nat, c: bool)
    requires w >= 5 && a < Pow2(w) && b < Pow2(w)
    ensures Adc(w, a, b, c).f.af <==> a % 16 + b % 16 + Digit(c) >= 16
    ensures Sbb(w, a, b, c).f.af <==> a % 16 - b % 16 - Digit(c) < 0
  {
    hide Pow2, EvenParity, TopBitOf, HalfBit, Odd;
    Sixteens(a, b, Digit(c));
    LowBitsKept(w, a + b + Digit(c));
    AddedHalf(a, b, (a + b + Digit(c)) % Pow2(w), a + b + Digit(c), a % 16 + b % 16 + Digit(c) >= 16);
    LowBitsKept(w, a - (b + Digit(c)));
    TakenHalf(a, b, (a - (b + Digit(c))) % Pow2(w), a - (b + Digit(c)), a % 16 - b % 16 - Digit(c) < 0);
  }

  lemma SumParity(p: int, q: int, s: int, t: int, k: bool)
    requires Odd(s) == Odd(t) && (t == p + q + Digit(k) || t == p - q - Digit(k))
    ensures Odd(p + q + s) == k
  {
  }

  lemma AddedHalf(a: nat, b: nat, r: nat, x: int, k: bool)
    requires Odd(r / 16) == Odd(x / 16) && x / 16 == a / 16 + b / 16 + Digit(k)
    ensures HalfBit(a, b, r) == k
  {
    hide Odd;
    SumParity(a / 16, b / 16, r / 16, x / 16, k);
  }

  lemma TakenHalf(a: nat, b: nat, r: nat, x: int, k: bool)
    requires Odd(r / 16) == Odd(x / 16) && x / 16 == a / 16 - b / 16 - Digit(k)
    ensures HalfBit(a, b, r) == k
  {
    hide Odd;
    SumParity(a / 16, b / 16, r / 16, x / 16, k);
  }

  lemma Sixteens(a: nat, b: nat, c: nat)
    requires c <= 1
    ensures (a + b + c) / 16 == a / 16 + b / 16 + (if a % 16 + b % 16 + c >= 16 then 1 else 0)
    ensures (a - (b + c)) / 16 == a / 16 - b / 16 - (if a % 16 - b % 16 - c < 0 then 1 else 0)
  {
  }

  // ---- The forms that add the carry to the operand first ----

  lemma TopBitOfNext(w: nat, b: nat, c: bool)
    requires w >= 1 && b < Pow2(w)
    ensures TopBitOf(w, b + Digit(c)) == (Sign(w, b) != (c && b + 1 in {Pow2(w - 1), Pow2(w)}))
  {
    DoublePow(w);
    var n, h := b + Digit(c), Pow2(w - 1);
    var q := if n < h then 0 else if n < 2 * h then 1 else 2;
    DivModUnique(n, h, q, n - q * h);
  }

  lemma HalfOfNext(a: nat, b: nat, c: bool, r: nat)
    ensures HalfBit(a, b + Digit(c), r) == (HalfBit(a, b, r) != (c && b % 16 == 15))
  {
  }

  /** The 8-bit and 16-bit ADC pass operand plus carry to the plain addition. The
      carry out stays exact; the overflow flag is exact except when the carry pushes
      the largest positive operand over, the half carry except when it fills a
      nibble. */
  lemma PlainAdc(w: nat, a: nat, b: nat, c: bool)
    requires w >= 5 && a < Pow2(w) && b < Pow2(w)
    ensures var o := Add(w, a, b + Digit(c));
      && ResultFlags(w, a + b + Digit(c), o) && (o.f.cf <==> a + b + Digit(c) >= Pow2(w))
      && ((o.f.of <==> !InRange(w, Signed(w, a) + Signed(w, b) + Digit(c))) <==> !(c && b == Pow2(w - 1) - 1))
      && ((o.f.af <==> a % 16 + b % 16 + Digit(c) >= 16) <==> !(c && b % 16 == 15))
  {
    hide Pow2, EvenParity, HalfBit, TopBitOf;
    AddedFlags(w, a, b + Digit(c));
    AdcExact(w, a, b, c);
    HalfCarry(w, a, b, c);
    HalfOfNext(a, b, c, (a + b + Digit(c)) % Pow2(w));
    TopBitIsSign(w, a);
    TopBitIsSign(w, b);
    TopBitIsSign(w, (a + b + Digit(c)) % Pow2(w));
    TopBitOfNext(w, b, c);
    DoublePow(w);
    Wrapped(w, a + b + Digit(c));
  }

  /** SBB likewise. */
  lemma PlainSbb(w: nat, a: nat, b: nat, c: bool)
    requires w >= 5 && a < Pow2(w) && b < Pow2(w)
    ensures var o := Sub(w, a, b + Digit(c));
      && ResultFlags(w, a - b - Digit(c), o) && (o.f.cf <==> a - b - Digit(c) < 0)
      && ((o.f.of <==> !InRange(w, Signed(w, a) - Signed(w, b) - Digit(c))) <==> !(c && b == Pow2(w - 1) - 1))
      && ((o.f.af <==> a % 16 - b % 16 - Digit(c) < 0) <==> !(c && b % 16 == 15))
  {
    hide Pow2, EvenParity, HalfBit, TopBitOf;
    TakenFlags(w, a, b + Digit(c));
    SbbExact(w, a, b, c);
    HalfCarry(w, a, b, c);
    HalfOfNext(a, b, c, (a - (b + Digit(c))) % Pow2(w));
    TopBitIsSign(w, a);
    TopBitIsSign(w, b);
    TopBitIsSign(w, (a - (b + Digit(c))) % Pow2(w));
    TopBitOfNext(w, b, c);
    DoublePow(w);
    Wrapped(w, a - (b + Digit(c)));
  }

  lemma HalfOfZero(a: nat)
    ensures !HalfBit(a, 0, a)
  {
  }

  /** The immediate forms also drop the bit above the width before adding, and then
      lose the carry out exactly when the carry wraps the immediate to zero. The other
      flags are exact up to the same operands as before. */
  lemma MaskedAdc(w: nat, a: nat, b: nat, c: bool)
    requires w >= 5 && a < Pow2(w) && b < Pow2(w)
    ensures var o := Add(w, a, (b + Digit(c)) % Pow2(w));
      && ResultFlags(w, a + b + Digit(c), o)
      && ((o.f.cf <==> a + b + Digit(c) >= Pow2(w)) <==> !(c && b == Pow2(w) - 1))
      && ((o.f.of <==> !InRange(w, Signed(w, a) + Signed(w, b) + Digit(c))) <==> !(c && b == Pow2(w - 1) - 1))
      && ((o.f.af <==> a % 16 + b % 16 + Digit(c) >= 16) <==> !(c && b % 16 == 15))
  {
    hide Pow2, EvenParity, HalfBit, TopBitOf;
    AddedFlags(w, a, (b + Digit(c)) % Pow2(w));
    Wrapped(w, b + Digit(c));
    if c && b == Pow2(w) - 1 {
      WrapsToZero(w, a, b);
    } else {
      PlainAdc(w, a, b, c);
    }
  }

  lemma MaskedSbb(w: nat, a: nat, b: nat, c: bool)
    requires w >= 5 && a < Pow2(w) && b < Pow2(w)
    ensures var o := Sub(w, a, (b + Digit(c)) % Pow2(w));
      && ResultFlags(w, a - b - Digit(c), o)
      && ((o.f.cf <==> a - b - Digit(c) < 0) <==> !(c && b == Pow2(w) - 1))
      && ((o.f.of <==> !InRange(w, Signed(w, a) - Signed(w, b) - Digit(c))) <==> !(c && b == Pow2(w - 1) - 1))
      && ((o.f.af <==> a % 16 - b % 16 - Digit(c) < 0) <==> !(c && b % 16 == 15))
  {
    hide Pow2, EvenParity, HalfBit, TopBitOf;
    TakenFlags(w, a, (b + Digit(c)) % Pow2(w));
    Wrapped(w, b + Digit(c));
    if c && b == Pow2(w) - 1 {
      WrapsToZero(w, a, b);
    } else {
      PlainSbb(w, a, b, c);
    }
  }

  /** The one operand that wraps, with the carry: nothing is added or taken. */
  lemma WrapsToZero(w: nat, a: nat, b: nat)
    requires w >= 5 && a < Pow2(w) && b == Pow2(w) - 1
    ensures a % Pow2(w) == a == (a + b + 1) % Pow2(w) == (a - b - 1) % Pow2(w)
    ensures !HalfBit(a, 0, a) && b % 16 == 15 && b != Pow2(w - 1) - 1
    ensures Signed(w, b) == -1 && InRange(w, Signed(w, a)) && TopBitOf(w, a) == Sign(w, a) && !TopBitOf(w, 0)
  {
    hide Pow2, HalfBit, TopBitOf;
    Wrapped(w, a);
    Wrapped(w, a + b + 1);
    Wrapped(w, a - b - 1);
    HalfOfZero(a);
    DoublePow(w);
    ThirtyTwo(w);
    TopBitIsSign(w, a);
    TopBitIsSign(w, 0);
  }

  // ---- Chains over many words ----

  datatype Chain = Chain(words: seq<nat>, cf: bool, of: bool)

  predicate Words(w: nat, s: seq<nat>) {
    forall i :: 0 <= i < |s| ==> s[i] < Pow2(w)
  }

  /** The weight of word k. */
  function Place(w: nat, k: nat): (r: nat)
    ensures r >= 1
  {
    if k == 0 then 1 else
      MulGrows(Pow2(w), Place(w, k - 1));
      Pow2(w) * Place(w, k - 1)
  }

  /** A word, a carry or a half range at its place. */
  function Scaled(x: int, p: nat): (r: int)
    ensures x >= 0 ==> r >= 0
  {
    if x >= 0 then
      NatTimes(x, p);
      x * p
    else x * p
  }

  /** The number that words spell, lowest first. */
  function Number(w: nat, s: seq<nat>): nat {
    if s == [] then 0 else Number(w, s[..|s| - 1]) + Scaled(s[|s| - 1], Place(w, |s| - 1))
  }

  /** ADC (SBB when `sub`) over the words from the lowest up. */
  function AdcChain(sub: bool, w: nat, a: seq<nat>, b: seq<nat>, c: bool): (r: Chain)
    requires w >= 1 && |a| == |b|
    ensures |r.words| == |a|
  {
    if a == [] then Chain([], c, false)
    else
      var n := |a| - 1;
      var low := AdcChain(sub, w, a[..n], b[..n], c);
      var o := if sub then Sbb(w, a[n], b[n], low.cf) else Adc(w, a[n], b[n], low.cf);
      Chain(low.words + [o.r], o.f.cf, o.f.of)
  }

  lemma ScaledSum(x: int, y: int, p: nat)
    ensures Scaled(x + y, p) == Scaled(x, p) + Scaled(y, p)
  {
  }

  lemma ScaledUp(x: int, m: nat, p: nat)
    ensures Scaled(x, m * p) == Scaled(x * m, p)
  {
  }

  /** The top words and carries at their places, apart from the rest. */
  lemma NextPlace(r: int, cf: int, m: nat, a: int, b: int, c: int, p: nat)
    requires r + cf * m == a + b + c
    ensures Scaled(r, p) + Scaled(cf, m * p) == Scaled(a, p) + Scaled(b, p) + Scaled(c, p)
  {
    hide Scaled;
    ScaledUp(cf, m, p);
    ScaledSum(r, cf * m, p);
    ScaledSum(a, b, p);
    ScaledSum(a + b, c, p);
  }

  lemma Negated(x: int, p: nat)
    ensures Scaled(-x, p) == -Scaled(x, p)
  {
  }

  lemma TopWord(w: nat, s: seq<nat>)
    requires s != []
    ensures Number(w, s) == Number(w, s[..|s| - 1]) + Scaled(s[|s| - 1], Place(w, |s| - 1))
    ensures Place(w, |s|) == Pow2(w) * Place(w, |s| - 1)
  {
  }

  lemma Nothing(w: nat, x: int)
    ensures Number(w, []) == 0 && Place(w, 0) == 1 && Scaled(x, 1) == x
  {
  }

  /** A chain of additions computes the exact sum with the carry out, */
  lemma {:induction false} ChainAdds(w: nat, a: seq<nat>, b: seq<nat>, c: bool)
    requires w >= 1 && |a| == |b| && Words(w, a) && Words(w, b)
    ensures var r := AdcChain(false, w, a, b, c);
      Words(w, r.words) && Number(w, r.words) + Scaled(Digit(r.cf), Place(w, |a|))
        == Number(w, a) + Number(w, b) + Digit(c)
  {
    hide Adc, Sbb, Pow2, Number, Place, Scaled;
    if a != [] {
      var n := |a| - 1;
      var low, r := AdcChain(false, w, a[..n], b[..n], c), AdcChain(false, w, a, b, c);
      ChainAdds(w, a[..n], b[..n], c);
      AdcExact(w, a[n], b[n], low.cf);
      assert r.words[..n] == low.words;
      TopWord(w, a);
      TopWord(w, b);
      TopWord(w, r.words);
      NextPlace(r.words[n], Digit(r.cf), Pow2(w), a[n], b[n], Digit(low.cf), Place(w, n));
    } else {
      Nothing(w, Digit(c));
    }
  }

  /** and a chain of subtractions the exact difference with the borrow out. */
  lemma {:induction false} ChainSubtracts(w: nat, a: seq<nat>, b: seq<nat>, c: bool)
    requires w >= 1 && |a| == |b| && Words(w, a) && Words(w, b)
    ensures var r := AdcChain(true, w, a, b, c);
      Words(w, r.words) && Number(w, r.words) - Scaled(Digit(r.cf), Place(w, |a|))
        == Number(w, a) - Number(w, b) - Digit(c)
  {
    hide Adc, Sbb, Pow2, Number, Place, Scaled;
    if a != [] {
      var n := |a| - 1;
      var low, r := AdcChain(true, w, a[..n], b[..n], c), AdcChain(true, w, a, b, c);
      ChainSubtracts(w, a[..n], b[..n], c);
      SbbExact(w, a[n], b[n], low.cf);
      assert r.words[..n] == low.words;
      TopWord(w, a);
      TopWord(w, b);
      TopWord(w, r.words);
      Negated(Digit(r.cf), Place(w, |a|));
      Negated(b[n], Place(w, n));
      Negated(Digit(low.cf), Place(w, n));
      NegatedProduct(Digit(r.cf), Pow2(w));
      var bn: int := b[n];
      NextPlace(r.words[n], 0 - Digit(r.cf), Pow2(w), a[n], -bn, 0 - Digit(low.cf), Place(w, n));
    } else {
      Nothing(w, Digit(c));
    }
  }

  lemma NegatedProduct(x: int, m: int)
    ensures (-x) * m == -(x * m)
  {
  }

  /** The number that words spell when the top one is signed. */
  function SignedNumber(w: nat, s: seq<nat>): int
    requires w >= 1 && s != []
  {
    Number(w, s[..|s| - 1]) + Scaled(Signed(w, s[|s| - 1]), Place(w, |s| - 1))
  }

  lemma ScaledGrows(a: int, b: int, p: nat)
    requires a <= b
    ensures Scaled(a, p) <= Scaled(b, p)
  {
  }

  lemma {:induction false} NumberFits(w: nat, s: seq<nat>)
    requires Words(w, s)
    ensures Number(w, s) < Place(w, |s|)
  {
    hide Number, Place, Pow2, Scaled;
    if s != [] {
      var n := |s| - 1;
      var p := Place(w, n);
      TopWord(w, s);
      NumberFits(w, s[..n]);
      ScaledSum(s[n], 1, p);
      ScaledGrows(s[n] + 1, Pow2(w), p);
      Units(Pow2(w), p);
    } else {
      Nothing(w, 0);
    }
  }

  lemma Units(m: nat, p: nat)
    ensures Scaled(m, p) == m * p && Scaled(1, p) == p && Scaled(0, p) == 0
  {
  }

  /** Scaling by a weight and adding less than the weight keeps the range. */
  lemma ScaledRange(x: int, h: nat, low: nat, p: nat)
    requires low < p
    ensures 0 <= x + h < 2 * h <==> 0 <= low + Scaled(x, p) + Scaled(h, p) < 2 * Scaled(h, p)
  {
    hide Scaled;
    ScaledSum(x, h, p);
    ScaledSum(h, h, p);
    Units(0, p);
    if x + h < 0 {
      ScaledGrows(x + h, -1, p);
      Negated(1, p);
    } else if x + h >= 2 * h {
      ScaledGrows(2 * h, x + h, p);
    } else {
      ScaledGrows(0, x + h, p);
      ScaledGrows(x + h + 1, 2 * h, p);
      ScaledSum(x + h, 1, p);
    }
  }

  lemma TopDecides(lowA: int, lowB: int, c: int, lowR: nat, cl: int, sa: int, sb: int, sr: int, h: nat, p: nat,
                   of: bool)
    requires lowR + Scaled(cl, p) == lowA + lowB + c && lowR < p
    requires (of <==> !(0 <= sa + sb + cl + h < 2 * h)) && (!of ==> sr == sa + sb + cl)
    ensures var exact := lowA + Scaled(sa, p) + (lowB + Scaled(sb, p)) + c;
      (of <==> !(0 <= exact + Scaled(h, p) < 2 * Scaled(h, p))) && (!of ==> lowR + Scaled(sr, p) == exact)
  {
    hide Scaled;
    var top := sa + sb + cl;
    ScaledSum(sa, sb, p);
    ScaledSum(sa + sb, cl, p);
    ScaledRange(top, h, lowR, p);
  }

  function ExactSum(sub: bool, w: nat, a: seq<nat>, b: seq<nat>, c: bool): int
    requires w >= 1 && a != [] && b != []
  {
    if sub then SignedNumber(w, a) - SignedNumber(w, b) - Digit(c)
    else SignedNumber(w, a) + SignedNumber(w, b) + Digit(c)
  }

  /** The overflow flag of the last word says whether the signed sum of the whole
      numbers leaves the range of that many words. */
  lemma ChainOverflow(sub: bool, w: nat, a: seq<nat>, b: seq<nat>, c: bool)
    requires w >= 1 && |a| == |b| > 0 && Words(w, a) && Words(w, b)
    ensures var r, half := AdcChain(sub, w, a, b, c), Scaled(Pow2(w - 1), Place(w, |a| - 1));
      && (r.of <==> !(0 <= ExactSum(sub, w, a, b, c) + half < 2 * half))
      && (!r.of ==> SignedNumber(w, r.words) == ExactSum(sub, w, a, b, c))
  {
    hide Adc, Sbb, Pow2, Number, Place, Signed, Scaled;
    var n := |a| - 1;
    var low, r := AdcChain(sub, w, a[..n], b[..n], c), AdcChain(sub, w, a, b, c);
    assert r.words[..n] == low.words;
    if sub {
      TopTaken(w, a, b, c, low);
    } else {
      TopAdded(w, a, b, c, low);
    }
  }

  lemma TopAdded(w: nat, a: seq<nat>, b: seq<nat>, c: bool, low: Chain)
    requires w >= 1 && |a| == |b| > 0 && Words(w, a) && Words(w, b)
    requires low == AdcChain(false, w, a[..|a| - 1], b[..|a| - 1], c)
    ensures var n := |a| - 1;
      var o, half, exact := Adc(w, a[n], b[n], low.cf), Scaled(Pow2(w - 1), Place(w, n)), ExactSum(false, w, a, b, c);
      && (o.f.of <==> !(0 <= exact + half < 2 * half))
      && (!o.f.of ==> Number(w, low.words) + Scaled(Signed(w, o.r), Place(w, n)) == exact)
  {
    hide Adc, Pow2, Number, Place, Signed, Scaled, AdcChain;
    var n := |a| - 1;
    var o := Adc(w, a[n], b[n], low.cf);
    ChainAdds(w, a[..n], b[..n], c);
    AdcExact(w, a[n], b[n], low.cf);
    NumberFits(w, low.words);
    DoublePow(w);
    TopDecides(Number(w, a[..n]), Number(w, b[..n]), Digit(c), Number(w, low.words), Digit(low.cf),
               Signed(w, a[n]), Signed(w, b[n]), Signed(w, o.r), Pow2(w - 1), Place(w, n), o.f.of);
  }

  lemma TopTaken(w: nat, a: seq<nat>, b: seq<nat>, c: bool, low: Chain)
    requires w >= 1 && |a| == |b| > 0 && Words(w, a) && Words(w, b)
    requires low == AdcChain(true, w, a[..|a| - 1], b[..|a| - 1], c)
    ensures var n := |a| - 1;
      var o, half, exact := Sbb(w, a[n], b[n], low.cf), Scaled(Pow2(w - 1), Place(w, n)), ExactSum(true, w, a, b, c);
      && (o.f.of <==> !(0 <= exact + half < 2 * half))
      && (!o.f.of ==> Number(w, low.words) + Scaled(Signed(w, o.r), Place(w, n)) == exact)
  {
    hide Sbb, Pow2, Number, Place, Signed, Scaled, AdcChain;
    var n := |a| - 1;
    var o, p := Sbb(w, a[n], b[n], low.cf), Place(w, n);
    ChainSubtracts(w, a[..n], b[..n], c);
    SbbExact(w, a[n], b[n], low.cf);
    NumberFits(w, low.words);
    DoublePow(w);
    Negated(Signed(w, b[n]), p);
    Negated(Digit(low.cf), p);
    TopDecides(Number(w, a[..n]), 0 - Number(w, b[..n]), 0 - Digit(c), Number(w, low.words), 0 - Digit(low.cf),
               Signed(w, a[n]), -Signed(w, b[n]), Signed(w, o.r), Pow2(w - 1), p, o.f.of);
  }
}
