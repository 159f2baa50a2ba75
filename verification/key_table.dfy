/** Building the table of key sequences, in the order of `_build_sequences`. */
module KeyTable {
  import opened Bytes
  import opened KeyDecoder

  type Table = map<seq<byte>, byte>

  const NAV_LETTERS: seq<byte> := [0x41, 0x42, 0x43, 0x44, 0x48, 0x46]
  const FUNCTION_LETTERS: seq<byte> := [0x50, 0x51, 0x52, 0x53]
  const FUNCTION_NUMBERS: seq<int> := [11, 12, 13, 14, 15, 17, 18, 19, 20, 21, 23, 24]

  /** The table maps exactly the key sequences, each to its scan code. */
  ghost predicate IsTable(m: Table) {
    && (forall k :: k in m <==> IsKey(k))
    && (forall k :: k in m ==> m[k] == KeyScan(k).value)
  }

  // ---- The place of a key in the building order ----

  ghost function LetterIndex(b: byte): int {
    match b
    case 0x41 => 0 case 0x42 => 1 case 0x43 => 2 case 0x44 => 3 case 0x48 => 4 case 0x46 => 5
    case 0x50 => 0 case 0x51 => 1 case 0x52 => 2 case 0x53 => 3
    case _ => 0
  }

  ghost function NumberIndex(n: int): int {
    match n
    case 11 => 0 case 12 => 1 case 13 => 2 case 14 => 3 case 15 => 4 case 17 => 5
    case 18 => 6 case 19 => 7 case 20 => 8 case 21 => 9 case 23 => 10 case 24 => 11
    case _ => 0
  }

  /** Group 0 holds the navigation letters, 1 the navigation numbers, 2 the
      function letters, 3 the function numbers, 4 the back tab. */
  ghost function Group(k: seq<byte>): int
    requires IsKey(k)
  {
    var last := k[|k| - 1];
    if last == TILDE then (if |k| == 4 || |k| == 6 then 1 else 3)
    else if last == 0x5A then 4
    else if NavigationLetter(last).Some? then 0
    else 2
  }

  ghost function Index(k: seq<byte>): int
    requires IsKey(k)
  {
    match Group(k)
    case 1 => Digit(k[2]) - 1
    case 3 => NumberIndex(Number(k[2], k[3]))
    case _ => LetterIndex(k[|k| - 1])
  }

  /** 0 and 1 for the plain forms, 2 to 8 for the modified ones. */
  ghost function Variant(k: seq<byte>): int
    requires IsKey(k)
  {
    if |k| >= 6 then Digit(k[|k| - 2]) else if k[1] == LETTER_O then 1 else 0
  }

  /** k comes before the place (group, index, variant). */
  ghost predicate Before(k: seq<byte>, group: int, index: int, variant: int)
    requires IsKey(k)
  {
    || Group(k) < group
    || (Group(k) == group && (Index(k) < index || (Index(k) == index && Variant(k) < variant)))
  }

  /** The table holds exactly the keys before a place. */
  ghost predicate Upto(m: Table, group: int, index: int, variant: int) {
    && (forall k :: k in m <==> IsKey(k) && Before(k, group, index, variant))
    && (forall k :: k in m ==> m[k] == KeyScan(k).value)
  }

  ghost predicate At(k: seq<byte>, group: int, index: int, variant: int) {
    IsKey(k) && Group(k) == group && Index(k) == index && Variant(k) == variant
  }

  /** A place holds at most one key. */
  lemma PlaceIsUnique(a: seq<byte>, b: seq<byte>)
    requires IsKey(a) && IsKey(b) && Group(a) == Group(b) && Index(a) == Index(b) && Variant(a) == Variant(b)
    ensures a == b
  {
    SameEnds(a, b);
    SameInside(a, b);
  }

  lemma SameEnds(a: seq<byte>, b: seq<byte>)
    requires IsKey(a) && IsKey(b) && Group(a) == Group(b) && Index(a) == Index(b) && Variant(a) == Variant(b)
    ensures |a| == |b| && a[|a| - 1] == b[|b| - 1] && a[1] == b[1]
  {
  }

  lemma SameInside(a: seq<byte>, b: seq<byte>)
    requires IsKey(a) && IsKey(b) && Group(a) == Group(b) && Index(a) == Index(b) && Variant(a) == Variant(b)
    requires |a| == |b| && a[|a| - 1] == b[|b| - 1] && a[1] == b[1]
    ensures a == b
  {
    assert forall i :: 0 <= i < |a| ==> a[i] == b[i];
  }

  lemma PlaceBounds(k: seq<byte>)
    requires IsKey(k)
    ensures 0 <= Group(k) <= 4 && 0 <= Variant(k) <= 8
    ensures 0 <= Index(k) < match Group(k) case 0 => 6 case 1 => 8 case 2 => 4 case 3 => 12 case _ => 1
    ensures Group(k) == 1 || Group(k) == 3 || Group(k) == 4 ==> Variant(k) != 1
    ensures Group(k) == 2 ==> Variant(k) != 0
    ensures Group(k) == 4 ==> Variant(k) == 0
  {
  }

  // ---- Moving through the order ----

  /** Every assignment writes a key that is not in the table yet: no later one overwrites
      an earlier one. */
  lemma Insert(m: Table, k: seq<byte>, group: int, index: int, variant: int)
    requires Upto(m, group, index, variant) && At(k, group, index, variant)
    ensures k !in m && Upto(m[k := KeyScan(k).value], group, index, variant + 1)
  {
    hide Group, Index, Variant, KeyScan;
    var m' := m[k := KeyScan(k).value];
    forall x | IsKey(x)
      ensures x in m' <==> Before(x, group, index, variant + 1)
    {
      if At(x, group, index, variant) {
        PlaceIsUnique(k, x);
      }
    }
    assert forall x :: x in m' ==> IsKey(x);
  }

  /** Moves on when no key has the places in between. */
  lemma Skip(m: Table, group: int, index: int, variant: int, group': int, index': int, variant': int)
    requires Upto(m, group, index, variant)
    requires forall k :: IsKey(k) ==> (Before(k, group, index, variant) <==> Before(k, group', index', variant'))
    ensures Upto(m, group', index', variant')
  {
  }

  lemma NextIndex(m: Table, group: int, index: int)
    requires Upto(m, group, index, 9)
    ensures Upto(m, group, index + 1, 0)
  {
  }

  lemma NextGroup(m: Table, group: int)
    requires 0 <= group <= 3
    requires Upto(m, group, match group case 0 => 6 case 1 => 8 case 2 => 4 case _ => 12, 0)
    ensures Upto(m, group + 1, 0, 0)
  {
    hide Group, Index, Variant, IsKey;
    var n := match group case 0 => 6 case 1 => 8 case 2 => 4 case _ => 12;
    forall k | IsKey(k)
      ensures Before(k, group, n, 0) <==> Before(k, group + 1, 0, 0)
    {
      PlaceBounds(k);
    }
    Skip(m, group, n, 0, group + 1, 0, 0);
  }

  /** Only one plain form exists in the groups 1, 2 and 3. */
  lemma SkipPlain(m: Table, group: int, index: int, variant: int)
    requires ((group == 1 || group == 3) && variant == 1) || (group == 2 && variant == 0)
    requires Upto(m, group, index, variant)
    ensures Upto(m, group, index, variant + 1)
  {
  }

  // ---- Building ----

  /** Adds the modified forms 2 to 8 of a letter key. */
  method AddModifiedLetters(m: Table, group: int, index: int, letter: byte) returns (r: Table)
    requires (group == 0 && 0 <= index < 6 && letter == NAV_LETTERS[index]) ||
             (group == 2 && 0 <= index < 4 && letter == FUNCTION_LETTERS[index])
    requires Upto(m, group, index, 2)
    ensures Upto(r, group, index + 1, 0)
  {
    hide Upto;
    r := m;
    for modifier := 2 to 9
      invariant Upto(r, group, index, modifier)
    {
      var key := [ESC, BRACKET, 0x31, SEMICOLON, 0x30 + modifier, letter];
      assert At(key, group, index, modifier);
      Insert(r, key, group, index, modifier);
      var scan := if group == 0 then NavigationScan(NavigationLetter(letter).value, modifier)
                  else FunctionScan(FunctionLetter(letter).value, modifier);
      assert KeyScan(key) == Some(scan);
      r := r[key := scan];
    }
    NextIndex(r, group, index);
  }

  method AddNavigationLetters(m: Table) returns (r: Table)
    requires Upto(m, 0, 0, 0)
    ensures Upto(r, 1, 0, 0)
  {
    hide Upto;
    r := m;
    for index := 0 to 6
      invariant Upto(r, 0, index, 0)
    {
      var letter := NAV_LETTERS[index];
      var scan := NavigationLetter(letter).value;
      var csi, ss := [ESC, BRACKET, letter], [ESC, LETTER_O, letter];
      assert At(csi, 0, index, 0) && At(ss, 0, index, 1) && KeyScan(csi) == KeyScan(ss) == Some(scan);
      Insert(r, csi, 0, index, 0);
      Insert(r[csi := scan], ss, 0, index, 1);
      r := r[csi := scan][ss := scan];
      r := AddModifiedLetters(r, 0, index, letter);
    }
    NextGroup(r, 0);
  }

  method AddFunctionLetters(m: Table) returns (r: Table)
    requires Upto(m, 2, 0, 0)
    ensures Upto(r, 3, 0, 0)
  {
    hide Upto;
    r := m;
    for index := 0 to 4
      invariant Upto(r, 2, index, 0)
    {
      var letter := FUNCTION_LETTERS[index];
      var scan := FunctionLetter(letter).value;
      var ss := [ESC, LETTER_O, letter];
      assert At(ss, 2, index, 1) && KeyScan(ss) == Some(scan);
      SkipPlain(r, 2, index, 0);
      Insert(r, ss, 2, index, 1);
      r := r[ss := scan];
      r := AddModifiedLetters(r, 2, index, letter);
    }
    NextGroup(r, 2);
  }

  method AddNavigationNumbers(m: Table) returns (r: Table)
    requires Upto(m, 1, 0, 0)
    ensures Upto(r, 2, 0, 0)
  {
    hide Upto;
    r := m;
    for number := 1 to 9
      invariant Upto(r, 1, number - 1, 0)
    {
      var scan := NavigationNumber(number).value;
      var prefix := [ESC, BRACKET, 0x30 + number];
      var plain := prefix + [TILDE];
      assert At(plain, 1, number - 1, 0) && KeyScan(plain) == Some(scan);
      Insert(r, plain, 1, number - 1, 0);
      r := r[plain := scan];
      SkipPlain(r, 1, number - 1, 1);
      for modifier := 2 to 9
        invariant Upto(r, 1, number - 1, modifier)
      {
        var key := prefix + [SEMICOLON, 0x30 + modifier, TILDE];
        assert At(key, 1, number - 1, modifier) && KeyScan(key) == Some(NavigationScan(scan, modifier));
        Insert(r, key, 1, number - 1, modifier);
        r := r[key := NavigationScan(scan, modifier)];
      }
      NextIndex(r, 1, number - 1);
    }
    NextGroup(r, 1);
  }

  method AddFunctionNumbers(m: Table) returns (r: Table)
    requires Upto(m, 3, 0, 0)
    ensures Upto(r, 4, 0, 0)
  {
    hide Upto;
    r := m;
    for index := 0 to 12
      invariant Upto(r, 3, index, 0)
    {
      var number := FUNCTION_NUMBERS[index];
      var scan := FunctionNumber(number).value;
      var tens, ones: byte := 0x30 + number / 10, 0x30 + number % 10;
      assert Number(tens, ones) == number;
      var prefix := [ESC, BRACKET, tens, ones];
      var plain := prefix + [TILDE];
      assert At(plain, 3, index, 0) && KeyScan(plain) == Some(scan);
      Insert(r, plain, 3, index, 0);
      r := r[plain := scan];
      SkipPlain(r, 3, index, 1);
      for modifier := 2 to 9
        invariant Upto(r, 3, index, modifier)
      {
        var key := prefix + [SEMICOLON, 0x30 + modifier, TILDE];
        assert At(key, 3, index, modifier) && KeyScan(key) == Some(FunctionScan(scan, modifier));
        Insert(r, key, 3, index, modifier);
        r := r[key := FunctionScan(scan, modifier)];
      }
      NextIndex(r, 3, index);
    }
    NextGroup(r, 3);
  }

  /** `_build_sequences`, with the back tab added behind it. */
  method BuildSequences() returns (m: Table)
    ensures IsTable(m)
  {
    StartEmpty();
    m := AddNavigationLetters(map[]);
    m := AddNavigationNumbers(m);
    m := AddFunctionLetters(m);
    m := AddFunctionNumbers(m);
    var backTab := [ESC, BRACKET, 0x5A];
    Insert(m, backTab, 4, 0, 0);
    m := m[backTab := 0x0F];
    AllPlaced(m);
  }

  lemma StartEmpty()
    ensures Upto(map[], 0, 0, 0)
  {
    forall k | IsKey(k)
      ensures !Before(k, 0, 0, 0)
    {
      PlaceBounds(k);
    }
  }

  lemma AllPlaced(m: Table)
    requires Upto(m, 4, 0, 1)
    ensures IsTable(m)
  {
    hide Group, Index, Variant, IsKey;
    forall k | IsKey(k)
      ensures Before(k, 4, 0, 1)
    {
      PlaceBounds(k);
    }
  }

  /** The `_PREFIXES` set of a table. */
  method BuildPrefixes(m: Table) returns (prefixes: set<seq<byte>>)
    requires IsTable(m)
    ensures forall raw :: raw in prefixes <==> KeyStart(raw)
  {
    prefixes := set k, n | k in m.Keys && 1 <= n < |k| :: k[..n];
    forall raw
      ensures raw in prefixes <==> KeyStart(raw)
    {
      if KeyStart(raw) {
        var k :| IsKey(k) && |raw| < |k| && raw == k[..|raw|];
        assert k in m.Keys && 1 <= |raw| < |k|;
      }
    }
  }
}
