/** 8.3 names and the 32-byte directory entries that hold them. */
module DosNames {
  import opened Bytes

  const SPACE: byte := 0x20
  const DOT: byte := 0x2E

  /** File names as their ASCII codes; the empty name is allowed, as in the source. */
  predicate Printable(name: seq<byte>) {
    forall i :: 0 <= i < |name| ==> 0x20 <= name[i] < 0x7F
  }

  function UpperByte(b: byte): byte {
    if 0x61 <= b <= 0x7A then b - 0x20 else b
  }

  function Upper(s: seq<byte>): (r: seq<byte>)
    ensures |r| == |s|
  {
    seq(|s|, i requires 0 <= i < |s| => UpperByte(s[i]))
  }

  function FirstDot(s: seq<byte>): (d: nat)
    ensures d <= |s| && DOT !in s[..d] && (d < |s| ==> s[d] == DOT)
  {
    if s == [] then 0
    else if s[0] == DOT then 0
    else
      var d := 1 + FirstDot(s[1..]);
      assert s[..d] == [s[0]] + s[1..][..d - 1];
      d
  }

  /** |s| when there is no dot. */
  function LastDot(s: seq<byte>): (d: nat)
    ensures d <= |s| && (d < |s| ==> s[d] == DOT && DOT !in s[d + 1..])
    ensures d == |s| ==> DOT !in s
  {
    if DOT !in s then |s|
    else if s[|s| - 1] == DOT then |s| - 1
    else
      var front := s[..|s| - 1];
      assert s == front + [s[|s| - 1]];
      var d := LastDot(front);
      assert s[d + 1..] == front[d + 1..] + [s[|s| - 1]];
      d
  }

  predicate OneDotAtMost(name: seq<byte>) {
    FirstDot(name) == LastDot(name)
  }

  function LJust(s: seq<byte>, n: nat): (r: seq<byte>)
    requires |s| <= n
    ensures |r| == n
  {
    s + seq(n - |s|, _ => SPACE)
  }

  function RStrip(s: seq<byte>): (r: seq<byte>)
    ensures r <= s && (r != [] ==> r[|r| - 1] != SPACE && r[|r| - 1] != 0)
  {
    if s != [] && (s[|s| - 1] == SPACE || s[|s| - 1] == 0) then RStrip(s[..|s| - 1]) else s
  }

  datatype Name83 = Name83(base: seq<byte>, ext: seq<byte>)

  function Before(s: seq<byte>, d: nat): seq<byte> {
    if d < |s| then s[..d] else s
  }

  function After(s: seq<byte>, d: nat): seq<byte> {
    if d < |s| then s[d + 1..] else []
  }

  function Pad83(base: seq<byte>, ext: seq<byte>): (r: Name83)
    ensures |r.base| == 8 && |r.ext| == 3
  {
    Name83(LJust(Take(base, 8), 8), LJust(Take(ext, 3), 3))
  }

  /** `_split_83`: cut at the last dot, upper case, padded to 8 + 3. */
  function Split83(name: seq<byte>): (r: Name83)
    ensures |r.base| == 8 && |r.ext| == 3
  {
    var u := Upper(name);
    Pad83(Before(u, LastDot(u)), After(u, LastDot(u)))
  }

  /** The target of `find_file`: cut at the first dot, upper case, not padded. */
  function FindTarget(name: seq<byte>): Name83 {
    var u := Upper(name);
    Name83(Take(Before(u, FirstDot(u)), 8), Take(After(u, FirstDot(u)), 3))
  }

  function Stripped(n: Name83): Name83 {
    Name83(RStrip(n.base), RStrip(n.ext))
  }

  predicate EndsInBlank(s: seq<byte>) {
    s != [] && (s[|s| - 1] == SPACE || s[|s| - 1] == 0)
  }

  lemma {:induction false} StripPadding(s: seq<byte>, n: nat)
    requires |s| <= n
    ensures RStrip(LJust(s, n)) == RStrip(s)
    decreases n - |s|
  {
    var r := LJust(s, n);
    if |s| < n {
      assert r[..n - 1] == LJust(s, n - 1);
      StripPadding(s, n - 1);
    } else {
      assert r == s;
    }
  }

  /** The two ways of splitting the name agree, so that `find_file` looks for what
      `write_file` stores. */
  predicate Findable(name: seq<byte>) {
    Stripped(Split83(name)) == FindTarget(name)
  }

  /** With at most one dot they agree exactly when neither part, cut to its width,
      ends in a blank. */
  lemma SplitsAgree(name: seq<byte>)
    requires OneDotAtMost(Upper(name))
    ensures Findable(name) <==> !EndsInBlank(FindTarget(name).base) && !EndsInBlank(FindTarget(name).ext)
  {
    var t := FindTarget(name);
    StripPadding(t.base, 8);
    StripPadding(t.ext, 3);
  }

  /** "A.B.C" */
  const TWO_DOTS: seq<byte> := [0x41, DOT, 0x42, DOT, 0x43]

  lemma TwoDotsStored()
    ensures Upper(TWO_DOTS) == TWO_DOTS && LastDot(TWO_DOTS) == 3
    ensures Stripped(Split83(TWO_DOTS)).base == TWO_DOTS[..3]
  {
    var name := TWO_DOTS;
    assert name[1] in name;
    assert name[..4][3] == DOT && name[..4][3] in name[..4];
    assert LastDot(name) == LastDot(name[..4]) == 3;
    StripPadding(name[..3], 8);
    assert RStrip(name[..3]) == name[..3];
  }

  lemma TwoDotsSought()
    ensures Upper(TWO_DOTS) == TWO_DOTS && FirstDot(TWO_DOTS) == 1
    ensures FindTarget(TWO_DOTS).base == TWO_DOTS[..1]
  {
  }

  /** It is stored as "A.B" + "C" but looked up as "A" + "B.C". */
  lemma TwoDotsDisagree()
    ensures Printable(TWO_DOTS) && !Findable(TWO_DOTS)
  {
    hide Split83, FindTarget, Stripped;
    TwoDotsStored();
    TwoDotsSought();
    assert |FindTarget(TWO_DOTS).base| == 1;
  }

  // ---- Directory entries ----

  const END_MARK: byte := 0x00
  const DELETED: byte := 0xE5
  const ATTR_DIRECTORY: byte := 0x10
  const ATTR_ARCHIVE: byte := 0x20

  type Slot = s: seq<byte> | |s| == 32 witness Zeros(32)

  /** Directory entry i of a buffer of entries. */
  function SlotAt(root: seq<byte>, i: nat): Slot
    requires (i + 1) * 32 <= |root|
  {
    root[i * 32..(i + 1) * 32]
  }

  predicate Live(raw: Slot) {
    raw[0] != END_MARK && raw[0] != DELETED
  }

  function NameOf(raw: Slot): Name83 {
    Name83(RStrip(raw[..8]), RStrip(raw[8..11]))
  }

  predicate IsDir(raw: Slot) {
    raw[11] / 0x10 % 2 == 1
  }

  function FirstCluster(raw: Slot): nat {
    Le16(raw, 26)
  }

  function SizeOf(raw: Slot): nat {
    Le32(raw, 28)
  }

  /** `_names_match`: the comparison of `_put_root_entry` and `delete_file`. */
  predicate NamesMatch(raw: Slot, n: Name83) {
    NameOf(raw) == Stripped(n)
  }

  /** The comparison of `find_file`. */
  predicate FindMatches(raw: Slot, target: Name83) {
    Upper(NameOf(raw).base) == target.base && Upper(NameOf(raw).ext) == target.ext
  }

  /** 1980-01-01, 00:00. */
  function Stamp(): seq<byte> {
    [0x00, 0x00, 0x21, 0x00, 0x21, 0x00, 0x00, 0x00, 0x00, 0x00, 0x21, 0x00]
  }

  function MakeDirEntry(n: Name83, first: nat, size: nat, attr: byte): (raw: Slot)
    requires |n.base| == 8 && |n.ext| == 3
  {
    n.base + n.ext + [attr, 0, 0] + Stamp() + ToLe16(first) + ToLe32(size)
  }

  lemma MadeEntry(n: Name83, first: nat, size: nat, attr: byte)
    requires |n.base| == 8 && |n.ext| == 3
    ensures var raw := MakeDirEntry(n, first, size, attr);
            && NameOf(raw) == Stripped(n) && raw[0] == n.base[0] && raw[11] == attr
            && FirstCluster(raw) == first % 0x1_0000 && SizeOf(raw) == size % 0x1_0000_0000
  {
    var raw := MakeDirEntry(n, first, size, attr);
    assert raw[..8] == n.base && raw[8..11] == n.ext;
    assert Le16(raw, 26) == Le16(ToLe16(first), 0);
    assert Le16(raw, 28) == Le16(ToLe32(size), 0) && Le16(raw, 30) == Le16(ToLe32(size), 2);
  }

  lemma PaddedIsPrintable(s: seq<byte>, n: nat)
    requires |s| <= n && Printable(s) && Upper(s) == s
    ensures Printable(LJust(s, n)) && Upper(LJust(s, n)) == LJust(s, n)
  {
    var r := LJust(s, n);
    assert forall i :: 0 <= i < n ==> r[i] == if i < |s| then s[i] else SPACE;
    assert forall i :: 0 <= i < |s| ==> UpperByte(s[i]) == s[i] by {
      assert forall i :: 0 <= i < |s| ==> Upper(s)[i] == UpperByte(s[i]);
    }
  }

  lemma UpperIsPrintable(s: seq<byte>)
    requires Printable(s)
    ensures Printable(Upper(s)) && Upper(Upper(s)) == Upper(s)
  {
  }

  lemma PartIsUpper(s: seq<byte>, i: nat, j: nat)
    requires Printable(s) && Upper(s) == s && i <= j <= |s|
    ensures Printable(s[i..j]) && Upper(s[i..j]) == s[i..j]
  {
    assert forall k :: 0 <= k < |s| ==> UpperByte(s[k]) == s[k] by {
      assert forall k :: 0 <= k < |s| ==> Upper(s)[k] == UpperByte(s[k]);
    }
  }

  /** A stored name is printable, so that its first byte is never a directory mark,
      and upper case. */
  lemma SplitIsLive(name: seq<byte>)
    requires Printable(name)
    ensures Printable(Split83(name).base) && Printable(Split83(name).ext)
    ensures Upper(Split83(name).base) == Split83(name).base && Upper(Split83(name).ext) == Split83(name).ext
  {
    hide Upper, Printable, LastDot, LJust;
    var u := Upper(name);
    var d := LastDot(u);
    UpperIsPrintable(name);
    var base, ext := Take(Before(u, d), 8), Take(After(u, d), 3);
    assert base == u[0..|base|];
    PartIsUpper(u, 0, |base|);
    var at := if d < |u| then d + 1 else 0;
    assert ext == u[at..at + |ext|];
    PartIsUpper(u, at, at + |ext|);
    PaddedIsPrintable(base, 8);
    PaddedIsPrintable(ext, 3);
  }

  lemma {:induction false} StripUpper(s: seq<byte>)
    requires Upper(s) == s
    ensures Upper(RStrip(s)) == RStrip(s)
  {
  }
}
