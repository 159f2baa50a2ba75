/** Packed decimal arithmetic (`cpu.py`): ADC followed by DAA and SBB followed by
    DAS, byte by byte over numbers of any length. */
module DecimalArithmetic {
  import opened Shifts
  import opened Arithmetic

  /** AL and the two flags the adjust instructions use. */
  datatype Accumulator = Accumulator(al: nat, cf: bool, af: bool)

  function Daa(s: Accumulator): (r: Accumulator)
  {
    var adjust := s.al % 16 > 9 || s.af;
    var al := if adjust then (s.al + 6) % 0x100 else s.al;
    if s.al > 0x99 || s.cf then Accumulator((al + 0x60) % 0x100, true, adjust) else Accumulator(al, false, adjust)
  }

  function Das(s: Accumulator): (r: Accumulator)
  {
    var adjust := s.al % 16 > 9 || s.af;
    var al := if adjust then (s.al - 6) % 0x100 else s.al;
    var cf := if adjust then s.cf || s.al < 6 else s.cf;
    if s.al > 0x99 || s.cf then Accumulator((al - 0x60) % 0x100, true, adjust) else Accumulator(al, cf, adjust)
  }

  /** What DAA and DAS do to any AL, a packed sum or not: 6 is added or taken for a low digit
      above 9 or a half carry, 0x60 for more than 0x99 or a carry. DAA leaves the carry set
      in the second case only, DAS also when taking 6 borrows. */
  lemma DaaCorrects(s: Accumulator)
    requires s.al < 0x100
    ensures var low, high := s.af || s.al % 16 >= 10, s.cf || s.al >= 154;
      Daa(s) == Accumulator((s.al + (if low then 6 else 0) + (if high then 96 else 0)) % 256, high, low)
  {
  }

  lemma DasCorrects(s: Accumulator)
    requires s.al < 0x100
    ensures var low, high := s.af || s.al % 16 >= 10, s.cf || s.al >= 154;
      Das(s) == Accumulator((s.al - (if low then 6 else 0) - (if high then 96 else 0)) % 256,
                            high || (low && s.al < 6), low)
  {
  }

  /** ADC or SBB of a byte and the adjust instruction after it. */
  function Adjusted(sub: bool, x: nat, y: nat, c: bool): Accumulator {
    var o := if sub then Sub(8, x, y + Digit(c)) else Add(8, x, y + Digit(c));
    var s := Accumulator(o.r, o.f.cf, o.f.af);
    if sub then Das(s) else Daa(s)
  }

  /** Two decimal digits in a byte. */
  predicate IsPacked(x: nat) { x / 16 <= 9 && x % 16 <= 9 }

  function Decimal(x: nat): nat { x / 16 * 10 + x % 16 }

  lemma Pow8()
    ensures Pow2(8) == 0x100
  {
  }

  lemma Wrap(n: int)
    requires -0x100 <= n < 0x200
    ensures n % 0x100 == if n < 0 then n + 0x100 else if n < 0x100 then n else n - 0x100
  {
  }

  lemma Nibbles(high: nat, low: nat)
    requires low < 16
    ensures (16 * high + low) / 16 == high && (16 * high + low) % 16 == low
  {
  }

  /** DAA on the sum of high digits h and low digits s (with the carry in s). */
  lemma DaaDigits(h: nat, s: nat)
    requires h <= 18 && s <= 19
    ensures var n, d := 16 * h + s, if s >= 10 then 1 else 0;
      Daa(Accumulator(n % 0x100, n >= 0x100, s >= 16))
      == Accumulator(16 * (if h + d >= 10 then h + d - 10 else h + d) + s - 10 * d, h + d >= 10, s >= 10)
  {
    var n := 16 * h + s;
    Wrap(n);
    var k := if s >= 16 then 1 else 0;
    Nibbles(if h + k >= 16 then h + k - 16 else h + k, s - 16 * k);
    var al := n % 0x100;
    Wrap(al + 6);
    Wrap((if s >= 10 then (al + 6) % 0x100 else al) + 0x60);
  }

  lemma PackedDigits(y: nat, c: bool)
    requires IsPacked(y)
    ensures y / 16 <= 9 && y % 16 <= 9 && y == 16 * (y / 16) + y % 16
    ensures (y + Digit(c)) / 16 == y / 16 && (y + Digit(c)) % 16 == y % 16 + Digit(c)
  {
  }

  lemma AddedByte(x: nat, y: nat, c: bool)
    requires IsPacked(x) && IsPacked(y)
    ensures var h, s := x / 16 + y / 16, x % 16 + y % 16 + Digit(c);
      var n := 16 * h + s;
      h <= 18 && s <= 19 && Adjusted(false, x, y, c) == Daa(Accumulator(n % 0x100, n >= 0x100, s >= 16))
  {
    hide Pow2, EvenParity, TopBitOf, Daa, HalfBit;
    hide IsPacked;
    Pow8();
    PackedDigits(x, false);
    PackedDigits(y, c);
    HalfOfSum(x, y + Digit(c));
  }

  /** The digits h and s, and the carry out of the high one, as one number. */
  lemma DigitsValue(h: nat, s: nat)
    requires h <= 9 && s <= 9
    ensures IsPacked(16 * h + s) && Decimal(16 * h + s) == 10 * h + s
  {
    Nibbles(h, s);
  }

  lemma AddAdjusts(x: nat, y: nat, c: bool)
    requires IsPacked(x) && IsPacked(y)
    ensures var r := Adjusted(false, x, y, c);
      IsPacked(r.al) && Decimal(r.al) + Digit(r.cf) * 100 == Decimal(x) + Decimal(y) + Digit(c)
  {
    hide Adjusted, Daa;
    var h, s := x / 16 + y / 16, x % 16 + y % 16 + Digit(c);
    AddedByte(x, y, c);
    DaaDigits(h, s);
    var d := if s >= 10 then 1 else 0;
    DigitsValue(if h + d >= 10 then h + d - 10 else h + d, s - 10 * d);
  }

  lemma HalfOfSum(x: nat, y: nat)
    requires x + y < 0x200 && x % 16 <= 9 && y % 16 <= 10
    ensures HalfBit(x, y, (x + y) % 0x100) <==> x % 16 + y % 16 >= 16
  {
    hide HalfBit, Odd;
    var n := x + y;
    Sixteens(x, y, 0);
    Split(n, 0x100);
    BitFour(8 * (n / 0x100), n % 0x100);
    AddedHalf(x, y, n % 0x100, n, x % 16 + y % 16 >= 16);
  }

  /** DAS on the difference of high digits h and low digits s (less the borrow). */
  lemma DasDigits(h: int, s: int)
    requires -9 <= h <= 9 && -10 <= s <= 9
    ensures var n, d := 16 * h + s, if s < 0 then 1 else 0;
      Das(Accumulator(n % 0x100, n < 0, s < 0))
      == Accumulator(16 * (if h - d < 0 then h - d + 10 else h - d) + s + 10 * d, h - d < 0, s < 0)
  {
    var n := 16 * h + s;
    Wrap(n);
    var d := if s < 0 then 1 else 0;
    Nibbles(if h - d < 0 then h - d + 16 else h - d, s + 16 * d);
    var al := n % 0x100;
    Wrap(al - 6);
    Wrap((if s < 0 then (al - 6) % 0x100 else al) - 0x60);
  }

  lemma TakenByte(x: nat, y: nat, c: bool)
    requires IsPacked(x) && IsPacked(y)
    ensures var h, s := x / 16 - y / 16, x % 16 - y % 16 - Digit(c);
      var n := 16 * h + s;
      -9 <= h <= 9 && -10 <= s <= 9 && Adjusted(true, x, y, c) == Das(Accumulator(n % 0x100, n < 0, s < 0))
  {
    hide Pow2, EvenParity, TopBitOf, Das, HalfBit;
    hide IsPacked;
    Pow8();
    PackedDigits(x, false);
    PackedDigits(y, c);
    HalfOfDifference(x, y + Digit(c));
  }

  lemma SubAdjusts(x: nat, y: nat, c: bool)
    requires IsPacked(x) && IsPacked(y)
    ensures var r := Adjusted(true, x, y, c);
      IsPacked(r.al) && Decimal(r.al) - Digit(r.cf) * 100 == Decimal(x) - Decimal(y) - Digit(c)
  {
    hide Adjusted, Das;
    var h, s := x / 16 - y / 16, x % 16 - y % 16 - Digit(c);
    TakenByte(x, y, c);
    DasDigits(h, s);
    var d := if s < 0 then 1 else 0;
    DigitsValue(if h - d < 0 then h - d + 10 else h - d, s + 10 * d);
  }

  lemma HalfOfDifference(x: nat, y: nat)
    requires x < 0x100 && y < 0x100 && x % 16 <= 9 && y % 16 <= 10
    ensures HalfBit(x, y, (x - y) % 0x100) <==> x % 16 < y % 16
  {
    hide HalfBit, Odd;
    var n := x - y;
    Sixteens(x, y, 0);
    Split(n, 0x100);
    BitFour(8 * (n / 0x100), n % 0x100);
    TakenHalf(x, y, n % 0x100, n, x % 16 < y % 16);
  }

  // ---- Numbers of any length ----

  predicate Packed(s: seq<nat>) {
    forall i :: 0 <= i < |s| ==> IsPacked(s[i])
  }

  function Hundreds(k: nat): nat {
    if k == 0 then 1 else 100 * Hundreds(k - 1)
  }

  /** The decimal number that packed bytes spell, lowest first. */
  function DecimalNumber(s: seq<nat>): nat {
    if s == [] then 0 else DecimalNumber(s[..|s| - 1]) + Scaled(Decimal(s[|s| - 1]), Hundreds(|s| - 1))
  }

  /** The byte loop, from the lowest byte up: the result and the last carry. */
  function DecimalChain(sub: bool, a: seq<nat>, b: seq<nat>, c: bool): (r: (seq<nat>, bool))
    requires |a| == |b|
    ensures |r.0| == |a|
  {
    if a == [] then ([], c)
    else
      var n := |a| - 1;
      var (low, carry) := DecimalChain(sub, a[..n], b[..n], c);
      var top := Adjusted(sub, a[n], b[n], carry);
      (low + [top.al], top.cf)
  }

  lemma TopDigits(s: seq<nat>)
    requires s != []
    ensures DecimalNumber(s) == DecimalNumber(s[..|s| - 1]) + Scaled(Decimal(s[|s| - 1]), Hundreds(|s| - 1))
    ensures Hundreds(|s|) == 100 * Hundreds(|s| - 1)
  {
  }

  lemma NoDigits(x: int)
    ensures DecimalNumber([]) == 0 && Scaled(x, Hundreds(0)) == x
  {
  }

  /** Adding packed numbers of any length gives the digits of the decimal sum, and
      the last carry is the decimal carry. */
  lemma {:induction false} DecimalAdds(a: seq<nat>, b: seq<nat>, c: bool)
    requires |a| == |b| && Packed(a) && Packed(b)
    ensures var (r, carry) := DecimalChain(false, a, b, c);
      Packed(r) && DecimalNumber(r) + Scaled(Digit(carry), Hundreds(|a|))
        == DecimalNumber(a) + DecimalNumber(b) + Digit(c)
  {
    hide Adjusted, IsPacked, Decimal, DecimalNumber, Hundreds, Scaled;
    if a != [] {
      var n := |a| - 1;
      var (low, carry) := DecimalChain(false, a[..n], b[..n], c);
      var (r, out) := DecimalChain(false, a, b, c);
      DecimalAdds(a[..n], b[..n], c);
      AddAdjusts(a[n], b[n], carry);
      assert r[..n] == low;
      TopDigits(a);
      TopDigits(b);
      TopDigits(r);
      NextPlace(Decimal(r[n]), Digit(out), 100, Decimal(a[n]), Decimal(b[n]), Digit(carry), Hundreds(n));
    } else {
      NoDigits(Digit(c));
    }
  }

  /** Subtracting gives the digits of the difference, and the last carry is the
      decimal borrow. */
  lemma {:induction false} DecimalSubtracts(a: seq<nat>, b: seq<nat>, c: bool)
    requires |a| == |b| && Packed(a) && Packed(b)
    ensures var (r, borrow) := DecimalChain(true, a, b, c);
      Packed(r) && DecimalNumber(r) - Scaled(Digit(borrow), Hundreds(|a|))
        == DecimalNumber(a) - DecimalNumber(b) - Digit(c)
  {
    hide Adjusted, IsPacked, Decimal, DecimalNumber, Hundreds, Scaled;
    if a != [] {
      var n := |a| - 1;
      var (low, borrow) := DecimalChain(true, a[..n], b[..n], c);
      var (r, out) := DecimalChain(true, a, b, c);
      DecimalSubtracts(a[..n], b[..n], c);
      SubAdjusts(a[n], b[n], borrow);
      assert r[..n] == low;
      TopDigits(a);
      TopDigits(b);
      TopDigits(r);
      var bn: int := Decimal(b[n]);
      Negated(Digit(out), Hundreds(|a|));
      Negated(bn, Hundreds(n));
      Negated(Digit(borrow), Hundreds(n));
      NextPlace(Decimal(r[n]), 0 - Digit(out), 100, Decimal(a[n]), -bn, 0 - Digit(borrow), Hundreds(n));
    } else {
      NoDigits(Digit(c));
    }
  }
}
