/** The scan codes behind the key sequences and the Alt chords: which key each stands for,
    and which of them the guest can tell apart. */
module KeyCodes {
  import opened Bytes
  import opened KeyDecoder

  // ---- What the guest can tell apart ----

  /** The modifiers 2 to 8 as the BIOS sees them: Alt wins over Control, Control over
      Shift. */
  datatype Held = Plain | Shift | Control | Alt

  function HeldKey(modifier: int): Held {
    if modifier in {3, 4, 7, 8} then Alt else if modifier in {5, 6} then Control
    else if modifier == 2 then Shift else Plain
  }

  /** The scan code of function key n with a modifier, from the BIOS table. */
  lemma FunctionCodes(n: int, modifier: int)
    requires 1 <= n <= 12
    ensures var base := if n <= 10 then 0x3A + n else 0x4C + n;
      FunctionScan(base, modifier) ==
      match HeldKey(modifier)
      case Plain => base
      case Shift => if n <= 10 then 0x53 + n else 0x7C + n
      case Control => if n <= 10 then 0x5D + n else 0x7E + n
      case Alt => if n <= 10 then 0x67 + n else 0x80 + n
  {
  }

  /** The keys of the two navigation tables, by their plain scan code. */
  predicate NavigationBase(base: byte) {
    base in {0x47, 0x48, 0x49, 0x4B, 0x4D, 0x4F, 0x50, 0x51, 0x52, 0x53}
  }

  predicate FunctionBase(base: byte) {
    0x3B <= base <= 0x44 || base == 0x57 || base == 0x58
  }

  /** Scan codes tell the navigation keys and what is held with them apart, but for
      Shift, which they do not show. */
  lemma NavigationCodesDiffer(a: byte, m: int, b: byte, n: int)
    requires NavigationBase(a) && NavigationBase(b)
    ensures NavigationScan(a, m) == NavigationScan(b, n) <==>
      a == b && (HeldKey(m) == HeldKey(n) || (HeldKey(m) in {Plain, Shift} && HeldKey(n) in {Plain, Shift}))
  {
  }

  /** What Shift, Control and Alt add to the code of a function key. */
  lemma FunctionOffset(base: byte, modifier: int)
    requires FunctionBase(base)
    ensures var late := base >= 0x57;
      FunctionScan(base, modifier) == base +
        match HeldKey(modifier)
        case Plain => 0
        case Shift => if late then 0x30 else 0x19
        case Control => if late then 0x32 else 0x23
        case Alt => if late then 0x34 else 0x2D
  {
  }

  /** They tell the function keys and what is held with them apart, but for two: plain F11
      and F12 have the codes of F4 and F5 with Shift. */
  lemma FunctionCodesDiffer(a: byte, m: int, b: byte, n: int)
    requires FunctionBase(a) && FunctionBase(b)
    ensures FunctionScan(a, m) == FunctionScan(b, n) <==>
      (a == b && HeldKey(m) == HeldKey(n)) || SameCode(a, m, b, n) || SameCode(b, n, a, m)
  {
    hide FunctionScan, HeldKey;
    FunctionOffset(a, m);
    FunctionOffset(b, n);
  }

  predicate SameCode(a: byte, m: int, b: byte, n: int) {
    HeldKey(m) == Plain && HeldKey(n) == Shift && ((a == 0x57 && b == 0x3E) || (a == 0x58 && b == 0x3F))
  }

  /** And they tell a function key from a navigation key. */
  lemma FunctionOrNavigation(a: byte, m: int, b: byte, n: int)
    requires FunctionBase(a) && NavigationBase(b)
    ensures FunctionScan(a, m) != NavigationScan(b, n)
  {
    hide FunctionScan;
    FunctionOffset(a, m);
  }

  /** The key and the modifier that a sequence spells. */
  function BaseOf(k: seq<byte>): byte
    requires IsKey(k)
  {
    var last := k[|k| - 1];
    if last == 0x5A then 0x0F
    else if last == TILDE && |k| % 2 == 0 then NavigationNumber(Digit(k[2])).value
    else if last == TILDE then FunctionNumber(Number(k[2], k[3])).value
    else if NavigationLetter(last).Some? then NavigationLetter(last).value
    else FunctionLetter(last).value
  }

  function ModifierOf(k: seq<byte>): int {
    if |k| >= 6 then Digit(k[|k| - 2]) else 1
  }

  /** What every key sequence stands for: a navigation or function key with what is held,
      or the back tab. */
  lemma KeyNames(k: seq<byte>)
    requires IsKey(k)
    ensures var base, m, scan := BaseOf(k), ModifierOf(k), KeyScan(k).value;
      || (NavigationBase(base) && scan == NavigationScan(base, m))
      || (FunctionBase(base) && scan == FunctionScan(base, m))
      || (k == [0x1B, 0x5B, 0x5A] && scan == 0x0F)
  {
  }

  // ---- The keyboard, key by key ----

  /** Alt chords have the codes of the rows of the keyboard, key by key from the left;
      the digits with Shift or without. */
  lemma DigitRow(i: nat)
    requires i < 12
    ensures AltScan("1234567890-="[i] as byte) == AltScan("!@#$%^&*()_+"[i] as byte) == Some(0x02 + i)
  {
  }

  lemma UpperRow(i: nat)
    requires i < 12
    ensures AltScan("qwertyuiop[]"[i] as byte) == Some(0x10 + i)
  {
  }

  lemma HomeRow(i: nat)
    requires i < 12
    ensures AltScan("asdfghjkl;'`"[i] as byte) == Some(0x1E + i)
  {
  }

  lemma LowerRow(i: nat)
    requires i < 11
    ensures AltScan("\\zxcvbnm,./"[i] as byte) == Some(0x2B + i)
  {
  }

  /** With Shift the keys of the letter rows have the same codes. */
  lemma CapitalKeys(b: byte)
    requires 0x41 <= b <= 0x5A
    ensures AltScan(b) == AltScan(b + 0x20)
  {
  }

  lemma ShiftedSigns(i: nat)
    requires i < 9
    ensures AltScan("{}:\"~|<>?"[i] as byte) == AltScan("[];'`\\,./"[i] as byte)
  {
  }

  /** The other keys, and the bytes that are none. */
  lemma OtherKeys(b: byte)
    ensures b == 0x20 ==> AltScan(b) == Some(0x39)
    ensures b == 0x0D ==> AltScan(b) == Some(0x1C)
    ensures b == 0x09 ==> AltScan(b) == Some(0x0F)
    ensures b == 0x08 ==> AltScan(b) == Some(0x0E)
    ensures b >= 0x7F || (b < 0x20 && b !in {0x08, 0x09, 0x0D}) ==> AltScan(b) == None
  {
  }

  /** The arrow keys, Home and End in both forms, and F1 to F4. */
  lemma LetterKeys(i: nat)
    ensures i < 6 ==> var b := "ABCDHF"[i] as byte;
      KeyScan([0x1B, 0x5B, b]) == KeyScan([0x1B, 0x4F, b]) == Some([0x48, 0x50, 0x4D, 0x4B, 0x47, 0x4F][i])
    ensures i < 4 ==> KeyScan([0x1B, 0x4F, "PQRS"[i] as byte]) == Some(0x3B + i)
  {
  }

  /** The numbered keys: Home, Ins, Del, End, PgUp, PgDn, Home and End again; and F1 to F12,
      with gaps in the numbers. */
  lemma NumberedKeys(n: nat)
    requires 1 <= n <= 8 || 11 <= n <= 24
    ensures n <= 8 ==>
      KeyScan([0x1B, 0x5B, 0x30 + n, 0x7E]) == Some([0x47, 0x52, 0x53, 0x4F, 0x49, 0x51, 0x47, 0x4F][n - 1])
    ensures n >= 11 ==>
      (KeyScan([0x1B, 0x5B, 0x30 + n / 10, 0x30 + n % 10, 0x7E])
       == if n <= 15 then Some(0x30 + n) else if 17 <= n <= 21 then Some(0x2F + n)
          else if n >= 23 then Some(0x40 + n) else None)
  {
  }

  /** The modified forms: the modifier is a digit from 2 to 8 behind a semicolon. */
  lemma ModifiedLetters(i: nat, d: byte)
    ensures i < 6 ==> var b := "ABCDHF"[i] as byte;
      KeyScan([0x1B, 0x5B, 0x31, 0x3B, d, b])
      == if 0x32 <= d <= 0x38 then Some(NavigationScan(KeyScan([0x1B, 0x5B, b]).value, d - 0x30)) else None
    ensures i < 4 ==> var b := "PQRS"[i] as byte;
      KeyScan([0x1B, 0x5B, 0x31, 0x3B, d, b])
      == if 0x32 <= d <= 0x38 then Some(FunctionScan(KeyScan([0x1B, 0x4F, b]).value, d - 0x30)) else None
  {
  }

  lemma ModifiedNumbers(n: nat, d: byte)
    requires 1 <= n <= 8 || 11 <= n <= 24
    ensures n <= 8 ==>
      (KeyScan([0x1B, 0x5B, 0x30 + n, 0x3B, d, 0x7E])
       == if 0x32 <= d <= 0x38 then Some(NavigationScan(KeyScan([0x1B, 0x5B, 0x30 + n, 0x7E]).value, d - 0x30))
          else None)
    ensures n >= 11 ==> var plain := KeyScan([0x1B, 0x5B, 0x30 + n / 10, 0x30 + n % 10, 0x7E]);
      KeyScan([0x1B, 0x5B, 0x30 + n / 10, 0x30 + n % 10, 0x3B, d, 0x7E])
      == if plain.Some? && 0x32 <= d <= 0x38 then Some(FunctionScan(plain.value, d - 0x30)) else None
  {
  }

  /** The navigation keys with Alt and with Control: Home, up, PgUp, left, right, End,
      down, PgDn, Ins and Del. */
  lemma NavigationCodes(i: nat, modifier: int)
    requires i < 10
    ensures var base := [0x47, 0x48, 0x49, 0x4B, 0x4D, 0x4F, 0x50, 0x51, 0x52, 0x53][i];
      NavigationScan(base, modifier) ==
      match HeldKey(modifier)
      case Alt => base + 0x50
      case Control => [0x77, 0x8D, 0x84, 0x73, 0x74, 0x75, 0x91, 0x76, 0x92, 0x93][i]
      case _ => base
  {
  }
}
