/** The incremental decoder of terminal key sequences (`terminal_keyboard.py`). */
module KeyDecoder {
  import opened Bytes

  datatype Event = Ascii(code: byte) | Extended(scan: byte)

  const ESC: byte := 0x1B
  const BRACKET: byte := 0x5B
  const LETTER_O: byte := 0x4F
  const SEMICOLON: byte := 0x3B
  const TILDE: byte := 0x7E

  // ---- Scan codes ----

  /** Arrow keys, Home and End by their final letter. */
  function NavigationLetter(b: byte): Option<byte> {
    match b
    case 0x41 => Some(0x48)
    case 0x42 => Some(0x50)
    case 0x43 => Some(0x4D)
    case 0x44 => Some(0x4B)
    case 0x48 => Some(0x47)
    case 0x46 => Some(0x4F)
    case _ => None
  }

  /** F1 to F4 by their final letter. */
  function FunctionLetter(b: byte): Option<byte> {
    match b
    case 0x50 => Some(0x3B)
    case 0x51 => Some(0x3C)
    case 0x52 => Some(0x3D)
    case 0x53 => Some(0x3E)
    case _ => None
  }

  /** Navigation keys numbered 1 to 8. */
  function NavigationNumber(n: int): Option<byte> {
    match n
    case 1 => Some(0x47)
    case 2 => Some(0x52)
    case 3 => Some(0x53)
    case 4 => Some(0x4F)
    case 5 => Some(0x49)
    case 6 => Some(0x51)
    case 7 => Some(0x47)
    case 8 => Some(0x4F)
    case _ => None
  }

  /** Function keys numbered 11 to 24, with gaps. */
  function FunctionNumber(n: int): Option<byte> {
    match n
    case 11 => Some(0x3B)
    case 12 => Some(0x3C)
    case 13 => Some(0x3D)
    case 14 => Some(0x3E)
    case 15 => Some(0x3F)
    case 17 => Some(0x40)
    case 18 => Some(0x41)
    case 19 => Some(0x42)
    case 20 => Some(0x43)
    case 21 => Some(0x44)
    case 23 => Some(0x57)
    case 24 => Some(0x58)
    case _ => None
  }

  /** `_function_scan`, reduced to a byte; every scan the table holds fits one. */
  function FunctionScan(scan: byte, modifier: int): byte {
    var base: int := scan;
    (if modifier == 2 then (if base <= 0x44 then base + 0x19 else 0x87 + base - 0x57)
     else if modifier in {3, 4, 7, 8} then (if base <= 0x44 then base + 0x2D else 0x8B + base - 0x57)
     else if modifier in {5, 6} then (if base <= 0x44 then base + 0x23 else 0x89 + base - 0x57)
     else base) % 0x100
  }

  function CtrlNavigation(base: byte): byte {
    match base
    case 0x47 => 0x77 case 0x48 => 0x8D case 0x49 => 0x84
    case 0x4B => 0x73 case 0x4D => 0x74 case 0x4F => 0x75
    case 0x50 => 0x91 case 0x51 => 0x76 case 0x52 => 0x92 case 0x53 => 0x93
    case _ => 0
  }

  function AltNavigation(base: byte): byte {
    match base
    case 0x47 => 0x97 case 0x48 => 0x98 case 0x49 => 0x99
    case 0x4B => 0x9B case 0x4D => 0x9D case 0x4F => 0x9F
    case 0x50 => 0xA0 case 0x51 => 0xA1 case 0x52 => 0xA2 case 0x53 => 0xA3
    case _ => 0
  }

  /** `_navigation_scan`; the table only asks for bases of the two lists above. */
  function NavigationScan(base: byte, modifier: int): byte {
    if modifier in {3, 4, 7, 8} then AltNavigation(base)
    else if modifier in {5, 6} then CtrlNavigation(base)
    else base
  }

  // ---- The key sequences ----

  /** The modifier 2..8 written by a digit. */
  predicate IsModifier(b: byte) {
    0x32 <= b <= 0x38
  }

  function Digit(b: byte): int {
    b - 0x30
  }

  function Number(tens: byte, ones: byte): int {
    Digit(tens) * 10 + Digit(ones)
  }

  predicate IsDigit(b: byte) {
    0x30 <= b <= 0x39
  }

  /** The scan code of a key sequence; None for byte strings that are none. */
  function KeyScan(k: seq<byte>): Option<byte> {
    if |k| < 3 || k[0] != ESC then None
    else if k[1] == LETTER_O then
      if |k| != 3 then None
      else if NavigationLetter(k[2]).Some? then NavigationLetter(k[2])
      else FunctionLetter(k[2])
    else if k[1] != BRACKET then None
    else if |k| == 3 then
      if k[2] == 0x5A then Some(0x0F) else NavigationLetter(k[2])
    else if |k| == 4 then
      if k[3] == TILDE then NavigationNumber(Digit(k[2])) else None
    else if |k| == 5 then
      if k[4] == TILDE && IsDigit(k[2]) && IsDigit(k[3]) then FunctionNumber(Number(k[2], k[3])) else None
    else if |k| == 6 then
      if k[3] != SEMICOLON || !IsModifier(k[4]) then None
      else if k[5] == TILDE then
        match NavigationNumber(Digit(k[2])) case None => None case Some(s) => Some(NavigationScan(s, Digit(k[4])))
      else if k[2] != 0x31 then None
      else if NavigationLetter(k[5]).Some? then Some(NavigationScan(NavigationLetter(k[5]).value, Digit(k[4])))
      else
        match FunctionLetter(k[5]) case None => None case Some(s) => Some(FunctionScan(s, Digit(k[4])))
    else if |k| == 7 then
      if k[4] != SEMICOLON || !IsModifier(k[5]) || k[6] != TILDE || !IsDigit(k[2]) || !IsDigit(k[3]) then None
      else
        match FunctionNumber(Number(k[2], k[3])) case None => None case Some(s) => Some(FunctionScan(s, Digit(k[5])))
    else None
  }

  predicate IsKey(k: seq<byte>) {
    KeyScan(k).Some?
  }

  /** The non-empty proper prefixes of key sequences: the `_PREFIXES` set. */
  ghost predicate KeyStart(raw: seq<byte>) {
    raw != [] && exists k :: IsKey(k) && |raw| < |k| && raw == k[..|raw|]
  }

  /** No key sequence is a proper prefix of another. */
  lemma PrefixFree(a: seq<byte>, b: seq<byte>)
    requires IsKey(a) && IsKey(b) && |a| <= |b| && a == b[..|a|]
    ensures a == b
  {
  }

  // ---- One decoding step ----

  /** Alt chords: ESC followed by an ordinary key. */
  function OrdinaryScan(b: byte): Option<byte> {
    match b
    case 0x31 => Some(0x02) case 0x32 => Some(0x03) case 0x33 => Some(0x04) case 0x34 => Some(0x05)
    case 0x35 => Some(0x06) case 0x36 => Some(0x07) case 0x37 => Some(0x08) case 0x38 => Some(0x09)
    case 0x39 => Some(0x0A) case 0x30 => Some(0x0B) case 0x2D => Some(0x0C) case 0x3D => Some(0x0D)
    case 0x71 => Some(0x10) case 0x77 => Some(0x11) case 0x65 => Some(0x12) case 0x72 => Some(0x13)
    case 0x74 => Some(0x14) case 0x79 => Some(0x15) case 0x75 => Some(0x16) case 0x69 => Some(0x17)
    case 0x6F => Some(0x18) case 0x70 => Some(0x19) case 0x5B => Some(0x1A) case 0x5D => Some(0x1B)
    case 0x61 => Some(0x1E) case 0x73 => Some(0x1F) case 0x64 => Some(0x20) case 0x66 => Some(0x21)
    case 0x67 => Some(0x22) case 0x68 => Some(0x23) case 0x6A => Some(0x24) case 0x6B => Some(0x25)
    case 0x6C => Some(0x26) case 0x3B => Some(0x27) case 0x27 => Some(0x28) case 0x60 => Some(0x29)
    case 0x5C => Some(0x2B) case 0x7A => Some(0x2C) case 0x78 => Some(0x2D) case 0x63 => Some(0x2E)
    case 0x76 => Some(0x2F) case 0x62 => Some(0x30) case 0x6E => Some(0x31) case 0x6D => Some(0x32)
    case 0x2C => Some(0x33) case 0x2E => Some(0x34) case 0x2F => Some(0x35) case 0x20 => Some(0x39)
    case 0x0D => Some(0x1C) case 0x09 => Some(0x0F) case 0x08 => Some(0x0E) case 0x21 => Some(0x02)
    case 0x40 => Some(0x03) case 0x23 => Some(0x04) case 0x24 => Some(0x05) case 0x25 => Some(0x06)
    case 0x5E => Some(0x07) case 0x26 => Some(0x08) case 0x2A => Some(0x09) case 0x28 => Some(0x0A)
    case 0x29 => Some(0x0B) case 0x5F => Some(0x0C) case 0x2B => Some(0x0D) case 0x7B => Some(0x1A)
    case 0x7D => Some(0x1B) case 0x3A => Some(0x27) case 0x22 => Some(0x28) case 0x7E => Some(0x29)
    case 0x7C => Some(0x2B) case 0x3C => Some(0x33) case 0x3E => Some(0x34) case 0x3F => Some(0x35)
    case _ => None
  }

  /** The scan code of an Alt chord; capital letters count as small ones. */
  function AltScan(b: byte): Option<byte> {
    if OrdinaryScan(b).Some? then OrdinaryScan(b)
    else if 0x41 <= b <= 0x5A then OrdinaryScan(b + 0x20)
    else None
  }

  /** LF becomes CR and DEL becomes BS. */
  function Translate(b: byte): byte {
    if b == 0x0A then 0x0D else if b == 0x7F then 0x08 else b
  }

  /** The length of the longest key sequence that starts raw and has at most n
      bytes; 0 when there is none. */
  function LongestKey(raw: seq<byte>, n: nat): (len: nat)
    requires n <= |raw|
    ensures len <= n
    ensures len > 0 ==> IsKey(raw[..len])
    ensures forall i :: len < i <= n ==> !IsKey(raw[..i])
  {
    if n == 0 then 0 else if IsKey(raw[..n]) then n else LongestKey(raw, n - 1)
  }

  datatype Step = Wait | Emit(event: Event, used: nat)

  /** One iteration of the decoding loop on a non-empty buffer. */
  ghost function NextStep(raw: seq<byte>, force: bool): (s: Step)
    requires raw != []
    ensures s.Emit? ==> 1 <= s.used <= |raw|
    ensures s.Wait? ==> !force && KeyStart(raw)
  {
    var len := LongestKey(raw, |raw|);
    if raw[0] != ESC then Emit(Ascii(Translate(raw[0])), 1)
    else if len > 0 then Emit(Extended(KeyScan(raw[..len]).value), len)
    else if KeyStart(raw) && !force then Wait
    else if |raw| >= 2 && raw[1] != BRACKET && raw[1] != LETTER_O && AltScan(raw[1]).Some? then
      Emit(Extended(AltScan(raw[1]).value), 2)
    else
      LoneEscapeWaits(raw);
      Emit(Ascii(ESC), 1)
  }

  /** The second waiting test of the loop, for a buffer of one byte, adds nothing:
      a lone ESC is a key start. */
  lemma LoneEscapeWaits(raw: seq<byte>)
    ensures raw == [ESC] ==> KeyStart(raw)
  {
    var k := [ESC, BRACKET, 0x41];
    assert IsKey(k) && k[..1] == [ESC];
  }

  /** What decoding a buffer emits, and the bytes it leaves. */
  ghost function Decode(raw: seq<byte>, force: bool): (seq<Event>, seq<byte>)
    decreases |raw|
  {
    if raw == [] then ([], [])
    else
      match NextStep(raw, force)
      case Wait => ([], raw)
      case Emit(event, used) =>
        var (events, left) := Decode(raw[used..], force);
        ([event] + events, left)
  }

  // ---- Chunks ----

  lemma KeyStartShrinks(raw: seq<byte>, more: seq<byte>)
    requires raw != [] && KeyStart(raw + more)
    ensures KeyStart(raw)
  {
    var k :| IsKey(k) && |raw + more| < |k| && raw + more == k[..|raw + more|];
    assert raw == k[..|raw|];
  }

  /** A key that more bytes complete was waited for. */
  lemma LongestKeyStable(raw: seq<byte>, more: seq<byte>)
    requires raw != []
    ensures var len, len' := LongestKey(raw, |raw|), LongestKey(raw + more, |raw + more|);
            if len > 0 then len' == len else len' > 0 ==> KeyStart(raw)
  {
    var all := raw + more;
    var len, len' := LongestKey(raw, |raw|), LongestKey(all, |all|);
    assert forall i :: 0 <= i <= |raw| ==> all[..i] == raw[..i];
    if len > 0 {
      assert len' >= len;
      PrefixFree(raw[..len], all[..len']);
    } else if len' > |raw| {
      assert raw == all[..len'][..|raw|];
    }
  }

  /** A step that does not wait is the same step whatever bytes follow. */
  lemma StepStable(raw: seq<byte>, more: seq<byte>)
    requires raw != [] && NextStep(raw, false).Emit?
    ensures NextStep(raw + more, false) == NextStep(raw, false)
  {
    var all := raw + more;
    LongestKeyStable(raw, more);
    var len := LongestKey(raw, |raw|);
    if raw[0] == ESC && len > 0 {
      assert all[..len] == raw[..len];
    } else if raw[0] == ESC {
      LoneEscapeWaits(raw);
      assert |raw| >= 2 && all[1] == raw[1];
      if KeyStart(all) {
        KeyStartShrinks(raw, more);
      }
    }
  }

  /** Decoding what arrives later together with what was left over is the same as
      decoding everything at once. */
  lemma {:induction false} DecodeSplit(raw: seq<byte>, more: seq<byte>)
    ensures var (events, left) := Decode(raw, false);
            Decode(raw + more, false) == (events + Decode(left + more, false).0, Decode(left + more, false).1)
    decreases |raw|
  {
    hide NextStep;
    if raw == [] {
      assert [] + more == more;
    } else if NextStep(raw, false).Emit? {
      var used := NextStep(raw, false).used;
      StepStable(raw, more);
      var (events, left) := Decode(raw[used..], false);
      assert (raw + more)[used..] == raw[used..] + more;
      DecodeSplit(raw[used..], more);
      var event := NextStep(raw, false).event;
      assert ([event] + events) + Decode(left + more, false).0 == [event] + (events + Decode(left + more, false).0);
    } else {
      assert [] + Decode(raw + more, false).0 == Decode(raw + more, false).0;
    }
  }

  function Flatten(chunks: seq<seq<byte>>): seq<byte> {
    if chunks == [] then [] else Flatten(chunks[..|chunks| - 1]) + chunks[|chunks| - 1]
  }

  /** Feeding chunk after chunk to a decoder that starts with an empty buffer. */
  ghost function FeedAll(chunks: seq<seq<byte>>): (seq<Event>, seq<byte>) {
    if chunks == [] then ([], [])
    else
      var (events, left) := FeedAll(chunks[..|chunks| - 1]);
      var (more, rest) := Decode(left + chunks[|chunks| - 1], false);
      (events + more, rest)
  }

  /** However the bytes are cut into chunks, the events and the bytes left over
      are those of feeding them at once. */
  lemma {:induction false} ChunksDoNotMatter(chunks: seq<seq<byte>>)
    ensures FeedAll(chunks) == Decode(Flatten(chunks), false)
  {
    if chunks != [] {
      var front := chunks[..|chunks| - 1];
      ChunksDoNotMatter(front);
      DecodeSplit(Flatten(front), chunks[|chunks| - 1]);
    }
  }

  // ---- Nothing is swallowed ----

  /** The bytes each event of a decode consumed. */
  ghost function Pieces(raw: seq<byte>, force: bool): seq<seq<byte>>
    decreases |raw|
  {
    if raw == [] then []
    else
      match NextStep(raw, force)
      case Wait => []
      case Emit(_, used) => [raw[..used]] + Pieces(raw[used..], force)
  }

  /** Two bytes that are an Alt chord: no key sequence starts with them. */
  ghost predicate IsChord(piece: seq<byte>) {
    |piece| == 2 && piece[0] == ESC && AltScan(piece[1]).Some? && !KeyStart(piece)
  }

  /** What a piece of input means by itself: a byte, a key sequence or an Alt chord. */
  ghost function Meaning(piece: seq<byte>): Option<Event> {
    if |piece| == 1 then Some(Ascii(Translate(piece[0])))
    else if IsKey(piece) then Some(Extended(KeyScan(piece).value))
    else if IsChord(piece) then Some(Extended(AltScan(piece[1]).value))
    else None
  }

  /** After an Escape only "[" and "O" start a key sequence. */
  lemma SecondByte(raw: seq<byte>)
    requires |raw| == 2 && raw[0] == ESC
    ensures KeyStart(raw) <==> raw[1] == 0x5B || raw[1] == 0x4F
  {
    if raw[1] == BRACKET || raw[1] == LETTER_O {
      assert IsKey(raw + [0x41]) && (raw + [0x41])[..2] == raw;
    }
  }

  ghost function Join(pieces: seq<seq<byte>>): seq<byte> {
    if pieces == [] then [] else pieces[0] + Join(pieces[1..])
  }

  /** The pieces and the bytes left over make up the input in order, and every
      event is the meaning of its own piece. */
  lemma {:induction false} NothingSwallowed(raw: seq<byte>, force: bool)
    ensures Join(Pieces(raw, force)) + Decode(raw, force).1 == raw
    ensures |Pieces(raw, force)| == |Decode(raw, force).0|
    ensures forall i :: 0 <= i < |Pieces(raw, force)| ==>
      Meaning(Pieces(raw, force)[i]) == Some(Decode(raw, force).0[i])
    decreases |raw|
  {
    hide NextStep, Meaning, Join;
    if raw != [] && NextStep(raw, force).Emit? {
      var used := NextStep(raw, force).used;
      StepMeaning(raw, force);
      NothingSwallowed(raw[used..], force);
      var rest, left := Join(Pieces(raw[used..], force)), Decode(raw, force).1;
      JoinFirst(raw[..used], Pieces(raw[used..], force));
      assert (raw[..used] + rest) + left == raw[..used] + (rest + left);
    } else {
      JoinNothing(raw);
    }
  }

  lemma JoinNothing(left: seq<byte>)
    ensures Join([]) + left == left
  {
  }

  lemma JoinFirst(piece: seq<byte>, rest: seq<seq<byte>>)
    ensures Join([piece] + rest) == piece + Join(rest)
  {
  }

  lemma StepMeaning(raw: seq<byte>, force: bool)
    requires raw != [] && NextStep(raw, force).Emit?
    ensures var s := NextStep(raw, force); Meaning(raw[..s.used]) == Some(s.event)
  {
    if |raw| >= 2 && raw[0] == ESC {
      SecondByte(raw[..2]);
    }
  }

  /** A forced decode, as after a timeout, leaves nothing in the buffer. */
  lemma {:induction false} ForcedEmpties(raw: seq<byte>)
    ensures Decode(raw, true).1 == []
    decreases |raw|
  {
    if raw != [] {
      ForcedEmpties(raw[NextStep(raw, true).used..]);
    }
  }

  /** What an unforced decode leaves is empty or the start of a key sequence. */
  lemma {:induction false} LeftIsKeyStart(raw: seq<byte>)
    ensures var left := Decode(raw, false).1; left == [] || (KeyStart(left) && left[0] == ESC)
    decreases |raw|
  {
    if raw != [] {
      match NextStep(raw, false)
      case Wait =>
      case Emit(_, used) => LeftIsKeyStart(raw[used..]);
    }
  }

  // ---- What is decoded, case by case ----

  /** Decoding yields this event for the first bytes and goes on behind them. */
  ghost predicate Yields(piece: seq<byte>, event: Event, rest: seq<byte>, force: bool) {
    Decode(piece + rest, force) == ([event] + Decode(rest, force).0, Decode(rest, force).1)
  }

  lemma StepYields(piece: seq<byte>, event: Event, rest: seq<byte>, force: bool)
    requires piece != [] && NextStep(piece + rest, force) == Emit(event, |piece|)
    ensures Yields(piece, event, rest, force)
  {
    hide NextStep;
    assert (piece + rest)[|piece|..] == rest;
  }

  /** The longest key sequence a buffer starts with is the only one. */
  lemma OnlyKey(k: seq<byte>, rest: seq<byte>)
    requires IsKey(k)
    ensures LongestKey(k + rest, |k + rest|) == |k|
  {
    hide KeyScan;
    var raw := k + rest;
    var len := LongestKey(raw, |raw|);
    assert raw[..|k|] == k;
    PrefixFree(k, raw[..len]);
  }

  /** A key sequence gives its scan code, whatever follows. */
  lemma KeyYields(k: seq<byte>, rest: seq<byte>, force: bool)
    requires IsKey(k)
    ensures Yields(k, Extended(KeyScan(k).value), rest, force)
  {
    hide KeyStart;
    OnlyKey(k, rest);
    assert (k + rest)[..|k|] == k;
    StepYields(k, Extended(KeyScan(k).value), rest, force);
  }

  /** No key sequence starts with a chord, so that one gives its scan code, whatever
      follows. */
  lemma ChordYields(chord: seq<byte>, rest: seq<byte>, force: bool)
    requires IsChord(chord)
    ensures Yields(chord, Extended(AltScan(chord[1]).value), rest, force)
  {
    hide AltScan;
    var raw := chord + rest;
    SecondByte(chord);
    assert raw[0] == ESC && raw[1] == chord[1] && raw[..2] == chord;
    assert LongestKey(raw, |raw|) == 0;
    if KeyStart(raw) {
      KeyStartShrinks(chord, rest);
    }
    StepYields(chord, Extended(AltScan(chord[1]).value), rest, force);
  }

  /** Any byte but an Escape stands for itself, Enter and Backspace as DOS has them. */
  lemma ByteYields(b: byte, rest: seq<byte>, force: bool)
    requires b != ESC
    ensures Yields([b], Ascii(if b == 0x0A then 0x0D else if b == 0x7F then 0x08 else b), rest, force)
  {
    hide KeyScan, AltScan, KeyStart;
    StepYields([b], Ascii(Translate(b)), rest, force);
  }

  /** An Escape that begins neither a key sequence nor a chord, nor what may become a
      key sequence unless time is up, is the Escape key. */
  lemma EscapeYields(rest: seq<byte>, force: bool)
    requires forall n :: 0 <= n <= |[ESC] + rest| ==> !IsKey(([ESC] + rest)[..n])
    requires rest != [] ==> !IsChord([ESC, rest[0]])
    requires !force ==> !KeyStart([ESC] + rest)
    ensures Yields([ESC], Ascii(0x1B), rest, force)
  {
    hide KeyScan, AltScan;
    var raw := [ESC] + rest;
    if rest != [] {
      SecondByte([ESC, rest[0]]);
    }
    assert LongestKey(raw, |raw|) == 0;
    StepYields([ESC], Ascii(ESC), rest, force);
  }

  /** The start of a key sequence is waited for, unless time is up. */
  lemma StartWaits(raw: seq<byte>)
    requires KeyStart(raw)
    ensures Decode(raw, false) == ([], raw)
  {
    hide AltScan;
    var k :| IsKey(k) && |raw| < |k| && raw == k[..|raw|];
    var len := LongestKey(raw, |raw|);
    if len > 0 {
      assert raw[..len] == k[..len];
      PrefixFree(raw[..len], k);
    }
  }
}
