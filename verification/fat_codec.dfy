/** The packed FAT entries of FAT12 (12 bits) and FAT16 (16 bits). */
module FatCodec {
  import opened Bytes

  /** FAT16 overrides only this codec and the three marker values. */
  datatype Kind = Fat12 | Fat16 {
    function Modulus(): nat {
      match this case Fat12 => 0x1000 case Fat16 => 0x1_0000
    }

    /** Smallest entry value that ends a chain. */
    function Bad(): nat {
      match this case Fat12 => 0xFF7 case Fat16 => 0xFFF7
    }

    function Eoc(): nat {
      match this case Fat12 => 0xFF8 case Fat16 => 0xFFF8
    }

    /** Byte offset of entry c. */
    function Offset(c: nat): nat {
      match this case Fat12 => c * 3 / 2 case Fat16 => c * 2
    }
  }

  ghost predicate InFat(kind: Kind, fat: seq<byte>, c: nat) {
    kind.Offset(c) + 1 < |fat|
  }

  /** The 12 bits of an entry in the two bytes at its offset. */
  function Read12(even: bool, b0: byte, b1: byte): (v: nat)
    ensures v < 0x1000
  {
    var low: int, high: int := b0, b1;
    var raw := low + 0x100 * high;
    if even then raw % 0x1000 else raw / 0x10 % 0x1000
  }

  /** The first of the two bytes with v stored in it, and the second. */
  function First12(even: bool, b0: byte, v: nat): byte {
    var low: int := b0;
    if even then v % 0x100 else low % 0x10 + v % 0x10 * 0x10
  }

  function Second12(even: bool, b1: byte, v: nat): byte {
    var high: int := b1;
    if even then high / 0x10 * 0x10 + v / 0x100 % 0x10 else v / 0x10 % 0x100
  }

  /** FAT12 entry 0 is the media byte alone; the others are nibble-packed. */
  function GetEntry(kind: Kind, fat: seq<byte>, c: nat): (v: nat)
    requires InFat(kind, fat, c)
    ensures v < kind.Modulus()
  {
    match kind
    case Fat12 => if c == 0 then fat[0] else Read12(c % 2 == 0, fat[c * 3 / 2], fat[c * 3 / 2 + 1])
    case Fat16 => Le16(fat, c * 2)
  }

  function PutEntry(kind: Kind, fat: seq<byte>, c: nat, v: nat): (r: seq<byte>)
    requires InFat(kind, fat, c)
    ensures |r| == |fat|
    ensures forall i :: 0 <= i < |fat| && i != kind.Offset(c) && i != kind.Offset(c) + 1 ==> r[i] == fat[i]
  {
    var off := kind.Offset(c);
    match kind
    case Fat12 =>
      fat[off := First12(c % 2 == 0, fat[off], v)][off + 1 := Second12(c % 2 == 0, fat[off + 1], v)]
    case Fat16 =>
      fat[off := v % 0x100][off + 1 := v / 0x100 % 0x100]
  }

  /** The byte arithmetic above is the source's masking and shifting. */
  lemma NibbleMasks(b: bv16, v: bv16)
    requires b <= 0xFF
    ensures (b & 0xF0) | ((v >> 8) & 0x0F) == b / 0x10 * 0x10 + v / 0x100 % 0x10
    ensures (b & 0x0F) | ((v << 4) & 0xF0) == b % 0x10 + v % 0x10 * 0x10
    ensures v & 0xFF == v % 0x100 && (v >> 4) & 0xFF == v / 0x10 % 0x100
  {
  }

  /** The two bytes hold the value that was stored. */
  lemma TwelveRead(even: bool, b0: byte, b1: byte, v: nat)
    ensures Read12(even, First12(even, b0, v), Second12(even, b1, v)) == v % 0x1000
  {
    var d0, d1, d2, d3 := Digits(v);
    var low: int, high: int := b0, b1;
    if even {
      DivModUnique(v % 0x100 + 0x100 * (high / 0x10 * 0x10 + d2), 0x1000, high / 0x10, v % 0x1000);
    } else {
      DivModUnique(low % 0x10 + d0 * 0x10 + 0x100 * (d1 + 0x10 * d2), 0x10, v % 0x1000, low % 0x10);
    }
  }

  lemma SixteenRead(v: nat)
    ensures v % 0x100 + 0x100 * (v / 0x100 % 0x100) == v % 0x1_0000
  {
    DivModUnique(v, 0x1_0000, v / 0x100 / 0x100, v % 0x100 + 0x100 * (v / 0x100 % 0x100));
  }

  /** Reading back entry c yields the value cut to the entry's width. Entry 0 of
      a FAT12 is the one exception: only its low byte is ever read. */
  lemma PutThenGet(kind: Kind, fat: seq<byte>, c: nat, v: nat)
    requires InFat(kind, fat, c)
    ensures GetEntry(kind, PutEntry(kind, fat, c, v), c) ==
            if kind == Fat12 && c == 0 then v % 0x100 else v % kind.Modulus()
  {
    hide Read12, First12, Second12;
    match kind
    case Fat16 => SixteenRead(v);
    case Fat12 =>
      if c == 0 {
        FirstOfEven(fat[0], v);
      } else {
        TwelveRead(c % 2 == 0, fat[c * 3 / 2], fat[c * 3 / 2 + 1], v);
      }
  }

  lemma FirstOfEven(b0: byte, v: nat)
    ensures First12(true, b0, v) == v % 0x100
  {
  }

  /** The entry behind an even one keeps its value, although its first byte changes. */
  lemma SharedHigh(mid: byte, v: nat, next: byte)
    ensures Read12(false, Second12(true, mid, v), next) == Read12(false, mid, next)
  {
    var m: int, x: int, nibble := mid, next, v / 0x100 % 0x10;
    DivModUnique(m / 0x10 * 0x10 + nibble + 0x100 * x, 0x10, m / 0x10 + 0x10 * x, nibble);
    DivModUnique(m + 0x100 * x, 0x10, m / 0x10 + 0x10 * x, m % 0x10);
  }

  /** The entry before an odd one keeps its value, although its second byte changes. */
  lemma SharedLow(prev: byte, mid: byte, v: nat)
    ensures Read12(true, prev, First12(false, mid, v)) == Read12(true, prev, mid)
  {
    var p: int, m: int, nibble := prev, mid, v % 0x10;
    DivModUnique(p + 0x100 * (m % 0x10 + nibble * 0x10), 0x1000, nibble, p + 0x100 * (m % 0x10));
    DivModUnique(p + 0x100 * m, 0x1000, m / 0x10, p + 0x100 * (m % 0x10));
  }

  /** Writing entry c leaves every other entry alone, although neighbouring
      FAT12 entries share a byte. */
  lemma PutKeepsOthers(kind: Kind, fat: seq<byte>, c: nat, v: nat, d: nat)
    requires InFat(kind, fat, c) && InFat(kind, fat, d) && c != d
    ensures GetEntry(kind, PutEntry(kind, fat, c, v), d) == GetEntry(kind, fat, d)
  {
    if kind == Fat12 && d != 0 {
      TwelveKeepsOthers(fat, c, v, d);
    }
  }

  lemma TwelveKeepsOthers(fat: seq<byte>, c: nat, v: nat, d: nat)
    requires InFat(Fat12, fat, c) && InFat(Fat12, fat, d) && c != d && d != 0
    ensures GetEntry(Fat12, PutEntry(Fat12, fat, c, v), d) == GetEntry(Fat12, fat, d)
  {
    hide Read12, First12, Second12;
    var off := c * 3 / 2;
    if d == c + 1 && c % 2 == 0 {
      NextTo(c);
      SharedHigh(fat[off + 1], v, fat[off + 2]);
    } else if c == d + 1 && d % 2 == 0 {
      NextTo(d);
      SharedLow(fat[off - 1], fat[off], v);
    } else {
      Apart(c, d);
    }
  }

  /** An even entry and the one behind it share a byte. */
  lemma NextTo(c: nat)
    requires c % 2 == 0
    ensures (c + 1) * 3 / 2 == c * 3 / 2 + 1 && (c + 1) % 2 == 1
  {
  }

  /** Other pairs of FAT12 entries share no byte. */
  lemma Apart(c: nat, d: nat)
    requires c != d
    requires !(d == c + 1 && c % 2 == 0) && !(c == d + 1 && d % 2 == 0)
    ensures d * 3 / 2 + 1 < c * 3 / 2 || c * 3 / 2 + 1 < d * 3 / 2
  {
    assert c * 3 / 2 == c + c / 2 && d * 3 / 2 == d + d / 2;
  }
}
