/** Directory trees, and what it means for a volume to hold one in the place
    where `hostbridge.py` puts it. */
module HostTree {
  import opened Bytes
  import opened DosNames

  datatype Node = File(name: seq<byte>, data: seq<byte>) | Dir(name: seq<byte>, items: seq<Node>)

  // ---- Names ----

  /** The characters the bridge accepts in either part of a host name. */
  predicate NameChar(b: byte) {
    || 0x41 <= b <= 0x5A || 0x30 <= b <= 0x39
    || b in [0x20, 0x21, 0x23, 0x24, 0x25, 0x26, 0x27, 0x28, 0x29, 0x2D, 0x40, 0x5E, 0x5F, 0x60, 0x7B, 0x7D, 0x7E]
  }

  predicate NamePart(s: seq<byte>, max: nat) {
    1 <= |s| <= max && forall i :: 0 <= i < |s| ==> NameChar(s[i])
  }

  function BaseOf(name: seq<byte>): seq<byte> {
    Before(name, FirstDot(name))
  }

  function ExtOf(name: seq<byte>): seq<byte> {
    After(name, FirstDot(name))
  }

  /** The names matched by the bridge's pattern: 1 to 8 characters, then possibly
      a dot and 1 to 3 more. */
  predicate ShortName(name: seq<byte>) {
    NamePart(BaseOf(name), 8) && (FirstDot(name) < |name| ==> NamePart(ExtOf(name), 3))
  }

  function Joined(n: Name83): seq<byte> {
    if n.ext != [] then n.base + [DOT] + n.ext else n.base
  }

  /** `DirEntry.full_name` */
  function FullName(raw: Slot): seq<byte> {
    Joined(NameOf(raw))
  }

  /** A host name with the blanks at the end of its parts cut off. */
  function Trimmed(name: seq<byte>): seq<byte> {
    Joined(Name83(RStrip(BaseOf(name)), RStrip(ExtOf(name))))
  }

  predicate KeepsName(name: seq<byte>) {
    !EndsInBlank(BaseOf(name)) && !EndsInBlank(ExtOf(name))
  }

  const NAME_SIGNS: set<char> :=
    {' ', '!', '#', '$', '%', '&', '\'', '(', ')', '-', '@', '^', '_', '`', '{', '}', '~'}

  /** They are the capital letters, the digits, the blank and sixteen signs. */
  lemma NameCharsAre(b: byte)
    ensures NameChar(b) <==> 'A' <= b as char <= 'Z' || '0' <= b as char <= '9' || (b as char) in NAME_SIGNS
  {
  }

  lemma NameCharsAreUpper()
    ensures forall b: byte :: NameChar(b) ==> UpperByte(b) == b && b != DOT && b != END_MARK && b != DELETED
  {
  }

  /** A short name has no lower-case letter and at most one dot. */
  lemma ShortNameBytes(name: seq<byte>)
    requires ShortName(name)
    ensures Upper(name) == name && LastDot(name) == FirstDot(name)
  {
    hide NameChar;
    var d := FirstDot(name);
    NameCharsAreUpper();
    forall i | 0 <= i < |name|
      ensures i != d ==> NameChar(name[i]) && name[i] != DOT
      ensures UpperByte(name[i]) == name[i]
    {
      if i < d {
        assert name[i] == BaseOf(name)[i];
      } else if i > d {
        assert name[i] == ExtOf(name)[i - d - 1];
      }
    }
  }

  lemma SplitShortName(name: seq<byte>)
    requires ShortName(name)
    ensures Split83(name) == Name83(LJust(BaseOf(name), 8), LJust(ExtOf(name), 3))
    ensures EntryPrefix(name)
  {
    hide LastDot, FirstDot, Upper, NameChar, Before, After;
    ShortNameBytes(name);
    NameCharsAreUpper();
    assert NameChar(BaseOf(name)[0]);
  }

  /** The first byte of a stored host name is neither mark nor a dot. */
  predicate EntryPrefix(name: seq<byte>) {
    var b := Split83(name).base[0];
    b != END_MARK && b != DELETED && b != DOT
  }

  lemma {:induction false} StripsToSelf(s: seq<byte>)
    ensures RStrip(s) == s <==> !EndsInBlank(s)
  {
  }

  /** From its directory entry a name comes back trimmed. That is the same name if
      and only if no part of it ends in a blank, although the bridge accepts others. */
  lemma FullNameOfEntry(name: seq<byte>, raw: Slot)
    requires ShortName(name) && NameOf(raw) == Stripped(Split83(name))
    ensures FullName(raw) == Trimmed(name)
    ensures Trimmed(name) == name <==> KeepsName(name)
  {
    hide NameOf, Split83, RStrip, LastDot, FirstDot, NameChar;
    SplitShortName(name);
    StripPadding(BaseOf(name), 8);
    StripPadding(ExtOf(name), 3);
    StripsToSelf(BaseOf(name));
    StripsToSelf(ExtOf(name));
    JoinParts(name, FirstDot(name), RStrip(BaseOf(name)), RStrip(ExtOf(name)));
  }

  /** "A " with a blank is a name the bridge accepts, and does not give back. */
  lemma BlankIsLost()
    ensures ShortName([0x41, SPACE]) && !KeepsName([0x41, SPACE]) && Trimmed([0x41, SPACE]) == [0x41]
  {
    var name: seq<byte> := [0x41, SPACE];
    assert BaseOf(name) == name && ExtOf(name) == [];
    assert name[..1] == [0x41];
    assert RStrip(name) == RStrip([0x41]) == [0x41] && RStrip([]) == [];
  }

  lemma JoinParts(name: seq<byte>, d: nat, base: seq<byte>, ext: seq<byte>)
    requires d <= |name| && (d < |name| ==> name[d] == DOT && d + 1 < |name|) && DOT !in name[..d]
    requires base <= Before(name, d) && ext <= After(name, d)
    ensures (if ext != [] then base + [DOT] + ext else base) == name <==>
      base == Before(name, d) && ext == After(name, d)
  {
  }
}
