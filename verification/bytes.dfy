/** Bytes, the Python slice operations the emulator applies to them, and the small
    types and arithmetic facts that several modules share. */
module Bytes {

  datatype Option<T> = None | Some(value: T)

  type byte = x: int | 0 <= x < 256

  type word = x: int | 0 <= x < 0x1_0000

  function Zeros(n: nat): seq<byte> {
    seq(n, _ => 0)
  }

  /** Python's `s[i:j]` for non-negative bounds: both ends are clamped. */
  function Slice<T>(s: seq<T>, i: nat, j: nat): seq<T>
    requires i <= j
  {
    if j <= |s| then s[i..j] else if i <= |s| then s[i..] else []
  }

  /** Python's `s[:n]`. */
  function Take<T>(s: seq<T>, n: nat): seq<T> {
    if n < |s| then s[..n] else s
  }

  /** A zeroed buffer of n bytes whose front is overwritten by s. */
  function PadTo(s: seq<byte>, n: nat): (r: seq<byte>)
    requires |s| <= n
    ensures |r| == n
  {
    s + Zeros(n - |s|)
  }

  /** s with the stretch from `at` on replaced by another of the same length. */
  function Spliced<T>(s: seq<T>, at: nat, piece: seq<T>): (r: seq<T>)
    requires at + |piece| <= |s|
    ensures |r| == |s|
    ensures forall i :: 0 <= i < |s| ==> r[i] == if at <= i < at + |piece| then piece[i - at] else s[i]
  {
    s[..at] + piece + s[at + |piece|..]
  }

  /** `int.from_bytes(s[off:off + 2], 'little')` */
  function Le16(s: seq<byte>, off: nat): (r: nat)
    requires off + 1 < |s|
    ensures r < 0x1_0000
  {
    var low: int, high: int := s[off], s[off + 1];
    low + 0x100 * high
  }

  /** `int.from_bytes(s[off:off + 4], 'little')` */
  function Le32(s: seq<byte>, off: nat): (r: nat)
    requires off + 3 < |s|
    ensures r < 0x1_0000_0000
  {
    Le16(s, off) + 0x1_0000 * Le16(s, off + 2)
  }

  /** `(n & 0xFFFF).to_bytes(2, 'little')` */
  function ToLe16(n: nat): (s: seq<byte>)
    ensures |s| == 2 && Le16(s, 0) == n % 0x1_0000
  {
    DivModUnique(n, 0x1_0000, n / 0x100 / 0x100, n % 0x100 + 0x100 * (n / 0x100 % 0x100));
    [n % 0x100, n / 0x100 % 0x100]
  }

  /** `(n & 0xFFFFFFFF).to_bytes(4, 'little')` */
  function ToLe32(n: nat): (s: seq<byte>)
    ensures |s| == 4 && Le32(s, 0) == n % 0x1_0000_0000
  {
    var low, high := ToLe16(n), ToLe16(n / 0x1_0000);
    assert Le16(low + high, 0) == Le16(low, 0) && Le16(low + high, 2) == Le16(high, 0);
    DivModUnique(n, 0x1_0000_0000, n / 0x1_0000 / 0x1_0000, Le32(low + high, 0));
    low + high
  }

  lemma MulGrows(d: int, k: int)
    requires d > 0 && k > 0
    ensures d * k >= d
  {
  }

  lemma MulLe(a: int, b: int, k: nat)
    requires a <= b
    ensures a * k <= b * k
  {
  }

  lemma NatTimes(a: nat, b: nat)
    ensures a * b >= 0
  {
  }

  /** Quotient and remainder are determined by their defining equation. */
  lemma DivModUnique(n: int, d: int, q: int, r: int)
    requires 0 <= r < d && n == d * q + r
    ensures n / d == q && n % d == r
  {
    var q', r' := n / d, n % d;
    assert d * (q - q') == r' - r;
    if q > q' {
      MulGrows(d, q - q');
    } else if q < q' {
      MulGrows(d, q' - q);
    }
  }

  /** The digits of v in the bases the packed formats use. */
  lemma Digits(v: nat) returns (d0: nat, d1: nat, d2: nat, d3: nat)
    ensures d0 < 0x10 && d1 < 0x10 && d2 < 0x10
    ensures v == d0 + 0x10 * d1 + 0x100 * d2 + 0x1000 * d3
    ensures v % 0x10 == d0 && v / 0x10 == d1 + 0x10 * d2 + 0x100 * d3
    ensures v % 0x100 == d0 + 0x10 * d1 && v / 0x100 == d2 + 0x10 * d3
    ensures v / 0x10 % 0x100 == d1 + 0x10 * d2 && v / 0x100 % 0x10 == d2
    ensures v % 0x1000 == d0 + 0x10 * d1 + 0x100 * d2
  {
    d0 := v % 0x10;
    d1 := v / 0x10 % 0x10;
    d2 := v / 0x100 % 0x10;
    d3 := v / 0x1000;
    DivModUnique(v, 0x100, v / 0x10 / 0x10, d0 + 0x10 * d1);
    DivModUnique(v, 0x1000, v / 0x100 / 0x10, d0 + 0x10 * d1 + 0x100 * d2);
    DivModUnique(v / 0x10, 0x100, d3, d1 + 0x10 * d2);
    DivModUnique(v / 0x100, 0x10, d3, d2);
  }

  predicate Distinct<T(==)>(s: seq<T>) {
    forall i, j :: 0 <= i < j < |s| ==> s[i] != s[j]
  }

  /** Pigeonhole: distinct numbers below n are at most n many. */
  lemma {:induction false} DistinctBound(s: seq<nat>, n: nat)
    requires Distinct(s)
    requires forall i :: 0 <= i < |s| ==> s[i] < n
    ensures |s| <= n
  {
    if s != [] {
      assert s[0] < n;
      if k: nat :| 0 <= k < |s| && s[k] == n - 1 {
        DistinctBound(s[..k] + s[k + 1..], n - 1);
      } else {
        DistinctBound(s, n - 1);
      }
    }
  }
}
