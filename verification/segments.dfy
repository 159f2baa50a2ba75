/** Copies between host buffers and segment:offset memory (`bios.py`), in chunks,
    against copying byte by byte with real-mode wrapping. */
module Segments {
  import opened Bytes

  const MIB := 0x10_0000
  const SEGMENT := 0x1_0000

  type Memory = seq<byte>

  // ---- Addresses ----

  /** Where segment:offset is, with the 20-bit wrap. */
  function Physical(segment: word, offset: word): (a: nat)
    ensures a < MIB
  {
    (segment * 16 + offset) % MIB
  }

  function Wrap(offset: nat): word { offset % SEGMENT }

  /** The address of byte i of a buffer when every byte is addressed on its own: the
      offset wraps at 64 KiB, the address at 1 MiB. */
  function ByteAddress(segment: word, offset: word, i: nat): (a: nat)
    ensures a < MIB
  {
    Physical(segment, Wrap(offset + i))
  }

  /** The address the chunked copies use in a memory of `size` bytes: the next one,
      except after the end of the segment or of the memory. */
  function Address(size: nat, segment: word, offset: word, i: nat): (a: nat)
    requires size >= MIB
    ensures a < size
  {
    if i == 0 then Physical(segment, offset)
    else
      var a := Address(size, segment, offset, i - 1);
      if Wrap(offset + i) == 0 || a + 1 >= size then Physical(segment, Wrap(offset + i)) else a + 1
  }

  lemma NextOffset(offset: nat)
    ensures Wrap(offset + 1) == if Wrap(offset) == SEGMENT - 1 then 0 else Wrap(offset) + 1
  {
  }

  lemma NextPhysical(segment: word, offset: word)
    requires offset + 1 < SEGMENT
    ensures Physical(segment, offset + 1)
      == if Physical(segment, offset) + 1 == MIB then 0 else Physical(segment, offset) + 1
  {
  }

  /** A segment starts 16 bytes above the one before it, and segment 0 with the memory. */
  lemma Paragraphs(segment: word, offset: word)
    ensures segment == 0 ==> Physical(segment, offset) == offset
    ensures segment + 1 < SEGMENT && offset + 16 < SEGMENT ==>
      Physical(segment + 1, offset) == Physical(segment, offset + 16)
  {
  }

  /** Two names for the same byte: what one segment is above the other makes up for what
      its offset is below, or differs from that by 1 MiB. */
  lemma SameByte(s: word, o: word, s': word, o': word)
    ensures Physical(s, o) == Physical(s', o') <==>
      16 * s + o - (16 * s' + o') in {-0x10_0000, 0, 0x10_0000}
  {
  }

  /** Whatever the size of the memory, the chunks agree with the wrapped addresses
      modulo 1 MiB, */
  lemma {:induction false} AddressWraps(size: nat, segment: word, offset: word, i: nat)
    requires size >= MIB
    ensures Address(size, segment, offset, i) % MIB == ByteAddress(segment, offset, i)
  {
    hide Wrap, Physical;
    if i > 0 {
      AddressWraps(size, segment, offset, i - 1);
      NextOffset(offset + i - 1);
      NextModulo(Address(size, segment, offset, i - 1));
      SmallModulo(Physical(segment, Wrap(offset + i)));
      if Wrap(offset + i) != 0 {
        NextPhysical(segment, Wrap(offset + i - 1));
      }
    } else {
      NoWrap(offset);
      SmallModulo(Physical(segment, offset));
    }
  }

  lemma SmallModulo(a: nat)
    requires a < MIB
    ensures a % MIB == a
  {
  }

  lemma NextModulo(a: nat)
    ensures (a + 1) % MIB == if a % MIB + 1 == MIB then 0 else a % MIB + 1
  {
  }

  /** and in a memory of 1 MiB they are the same. */
  lemma ChunksWrap(segment: word, offset: word, i: nat)
    ensures Address(MIB, segment, offset, i) == ByteAddress(segment, offset, i)
  {
    hide ByteAddress;
    AddressWraps(MIB, segment, offset, i);
    SmallModulo(Address(MIB, segment, offset, i));
  }

  lemma NoWrap(offset: word)
    ensures Wrap(offset) == offset
  {
  }

  /** The offset at which the chunk of byte i starts in a large memory. */
  function ChunkStart(offset: word, i: nat): word {
    if offset + i < SEGMENT then offset else 0
  }

  lemma {:induction false} ChunksRunOn(size: nat, segment: word, offset: word, i: nat)
    requires size >= MIB + SEGMENT
    ensures var start := ChunkStart(offset, i);
      start <= Wrap(offset + i)
      && Address(size, segment, offset, i) == Physical(segment, start) + (Wrap(offset + i) - start)
  {
    hide Physical;
    if i > 0 {
      ChunksRunOn(size, segment, offset, i - 1);
      NextOffset(offset + i - 1);
    }
  }

  /** In a memory that reaches a segment beyond 1 MiB they follow it exactly as long
      as the chunk does not cross 1 MiB; then they run on instead of wrapping. */
  lemma LargeMemoryAddress(size: nat, segment: word, offset: word, i: nat)
    requires size >= MIB + SEGMENT
    ensures Address(size, segment, offset, i) == ByteAddress(segment, offset, i) <==>
      Physical(segment, ChunkStart(offset, i)) + (Wrap(offset + i) - ChunkStart(offset, i)) < MIB
  {
    ChunksRunOn(size, segment, offset, i);
    var start, o := ChunkStart(offset, i), Wrap(offset + i);
    RunOn(segment, start, o);
  }

  lemma RunOn(segment: word, start: word, o: word)
    requires start <= o
    ensures Physical(segment, o) == Physical(segment, start) + (o - start) <==>
      Physical(segment, start) + (o - start) < MIB
  {
  }

  /** The bytes of a buffer of at most 64 KiB lie at different addresses. */
  lemma AddressesDiffer(segment: word, offset: word, i: nat, j: nat)
    requires i < j < i + SEGMENT
    ensures ByteAddress(segment, offset, i) != ByteAddress(segment, offset, j)
  {
    hide Physical;
    var a, b := Wrap(offset + i), Wrap(offset + j);
    assert a != b by {
      var q, q' := (offset + i) / SEGMENT, (offset + j) / SEGMENT;
      assert offset + i == SEGMENT * q + a && offset + j == SEGMENT * q' + b;
    }
    PlacesDiffer(segment, a, b);
  }

  lemma PlacesDiffer(segment: word, a: word, b: word)
    requires a != b
    ensures Physical(segment, a) != Physical(segment, b)
  {
  }

  // ---- Copying ----

  /** Memory after storing the bytes one by one. */
  function Stored(m: Memory, segment: word, offset: word, data: seq<byte>): (r: Memory)
    requires |m| >= MIB
    ensures |r| == |m|
  {
    if data == [] then m
    else Stored(m, segment, offset, data[..|data| - 1])[Address(|m|, segment, offset, |data| - 1) := data[|data| - 1]]
  }

  function Fetched(m: Memory, segment: word, offset: word, n: nat): (r: seq<byte>)
    requires |m| >= MIB
    ensures |r| == n
  {
    seq(n, i requires 0 <= i < n => m[Address(|m|, segment, offset, i)])
  }

  /** A chunk that starts at byte `at`, no longer than to the end of the segment and
      of the memory, is one stretch of memory. */
  lemma {:induction false} ChunkIsStretch(size: nat, segment: word, offset: word, at: nat, k: nat)
    requires size >= MIB && Wrap(offset + at) + k < SEGMENT && Address(size, segment, offset, at) + k < size
    ensures Address(size, segment, offset, at + k) == Address(size, segment, offset, at) + k
  {
    if k > 0 {
      ChunkIsStretch(size, segment, offset, at, k - 1);
      OffsetRuns(offset + at, k);
    }
  }

  lemma OffsetRuns(offset: nat, k: nat)
    requires Wrap(offset) + k < SEGMENT
    ensures Wrap(offset + k) == Wrap(offset) + k
  {
    DivModUnique(offset + k, SEGMENT, offset / SEGMENT, Wrap(offset) + k);
  }

  /** After a chunk that was as long as it could be the next address is computed
      afresh. */
  lemma ChunkEnds(size: nat, segment: word, offset: word, at: nat, k: nat)
    requires size >= MIB && k > 0 && Wrap(offset + at) + k <= SEGMENT && Address(size, segment, offset, at) + k <= size
    requires Wrap(offset + at) + k == SEGMENT || Address(size, segment, offset, at) + k == size
    ensures Address(size, segment, offset, at + k) == Physical(segment, Wrap(offset + at + k))
  {
    hide Physical;
    ChunkIsStretch(size, segment, offset, at, k - 1);
    OffsetRuns(offset + at, k - 1);
    NextOffset(offset + at + k - 1);
  }

  /** Storing a chunk byte by byte is assigning the stretch. */
  lemma {:induction false} StoredChunk(m: Memory, segment: word, offset: word, data: seq<byte>, at: nat, k: nat)
    requires |m| >= MIB && at + k <= |data|
    requires Wrap(offset + at) + k <= SEGMENT && Address(|m|, segment, offset, at) + k <= |m|
    ensures Stored(m, segment, offset, data[..at + k])
      == Spliced(Stored(m, segment, offset, data[..at]), Address(|m|, segment, offset, at), data[at..at + k])
  {
    hide Address, Wrap, Spliced;
    var was, a := Stored(m, segment, offset, data[..at]), Address(|m|, segment, offset, at);
    if k > 0 {
      StoredChunk(m, segment, offset, data, at, k - 1);
      ChunkIsStretch(|m|, segment, offset, at, k - 1);
      assert data[..at + k][..at + k - 1] == data[..at + k - 1];
      assert data[at..at + k][..k - 1] == data[at..at + k - 1];
      SplicedLast(was, a, data[at..at + k]);
    } else {
      SplicedNothing(was, a, data[at..at]);
    }
  }

  lemma SplicedNothing(m: Memory, at: nat, bytes: seq<byte>)
    requires at <= |m| && bytes == []
    ensures Spliced(m, at, bytes) == m
  {
  }

  lemma SplicedLast(m: Memory, at: nat, bytes: seq<byte>)
    requires at + |bytes| <= |m| && bytes != []
    ensures Spliced(m, at, bytes) == Spliced(m, at, bytes[..|bytes| - 1])[at + |bytes| - 1 := bytes[|bytes| - 1]]
  {
  }

  /** So is fetching one. */
  lemma FetchedChunk(m: Memory, segment: word, offset: word, at: nat, k: nat)
    requires |m| >= MIB && Wrap(offset + at) + k <= SEGMENT && Address(|m|, segment, offset, at) + k <= |m|
    ensures var a := Address(|m|, segment, offset, at);
      Fetched(m, segment, offset, at) + m[a..a + k] == Fetched(m, segment, offset, at + k)
  {
    hide Address, Wrap;
    var a, all := Address(|m|, segment, offset, at), Fetched(m, segment, offset, at + k);
    var stretch, tail := m[a..a + k], all[at..];
    forall j | 0 <= j < k
      ensures stretch[j] == tail[j]
    {
      ChunkIsStretch(|m|, segment, offset, at, j);
    }
    assert all[..at] == Fetched(m, segment, offset, at) && all[at..] == stretch;
  }

  // ---- What a copy does to memory ----

  lemma ChunkAddressesDiffer(size: nat, segment: word, offset: word, i: nat, j: nat)
    requires size >= MIB && i < j < i + SEGMENT
    ensures Address(size, segment, offset, i) != Address(size, segment, offset, j)
  {
    hide ByteAddress, Address;
    AddressWraps(size, segment, offset, i);
    AddressWraps(size, segment, offset, j);
    AddressesDiffer(segment, offset, i, j);
  }

  /** Every byte of a buffer of up to 64 KiB arrives at its address, */
  lemma {:induction false} StoredAt(m: Memory, segment: word, offset: word, data: seq<byte>, i: nat)
    requires |m| >= MIB && |data| <= SEGMENT && i < |data|
    ensures Stored(m, segment, offset, data)[Address(|m|, segment, offset, i)] == data[i]
  {
    hide Address;
    if i < |data| - 1 {
      ChunkAddressesDiffer(|m|, segment, offset, i, |data| - 1);
      StoredAt(m, segment, offset, data[..|data| - 1], i);
    }
  }

  /** and no other address changes. */
  lemma {:induction false} StoredElsewhere(m: Memory, segment: word, offset: word, data: seq<byte>, x: nat)
    requires |m| >= MIB && x < |m| && forall i :: 0 <= i < |data| ==> Address(|m|, segment, offset, i) != x
    ensures Stored(m, segment, offset, data)[x] == m[x]
  {
    hide Address;
    if data != [] {
      StoredElsewhere(m, segment, offset, data[..|data| - 1], x);
    }
  }

  // ---- The memory ----

  class SegmentMemory {
    const ram: array<byte>

    constructor (size: nat)
      requires size >= MIB
      ensures fresh(ram) && ram.Length == size
    {
      ram := new byte[size];
    }

    /** `_write_segment_buffer` */
    method WriteBuffer(segment: word, at: nat, data: seq<byte>)
      requires ram.Length >= MIB
      modifies ram
      ensures ram[..] == Stored(old(ram[..]), segment, Wrap(at), data)
    {
      hide Address, Physical, Wrap, Stored;
      ghost var m := ram[..];
      var position := 0;
      var start := Wrap(at);
      var offset := start;
      Begins(m, segment, start, data);
      while position < |data|
        invariant position <= |data| && ram.Length == |m|
        invariant offset == Wrap(start + position)
        invariant position < |data| ==> Address(|m|, segment, start, position) == Physical(segment, offset)
        invariant ram[..] == Stored(m, segment, start, data[..position])
      {
        var physical := Physical(segment, offset);
        var count := Least(|data| - position, SEGMENT - offset, ram.Length - physical);
        StoredChunk(m, segment, start, data, position, count);
        ghost var was := ram[..];
        forall i | physical <= i < physical + count {
          ram[i] := data[position + (i - physical)];
        }
        assert ram[..] == Spliced(was, physical, data[position..position + count]);
        if position + count < |data| {
          ChunkEnds(|m|, segment, start, position, count);
        }
        WrapAgain(start + position, count);
        position := position + count;
        offset := Wrap(offset + count);
      }
      assert data[..position] == data;
    }

    /** `_read_segment_buffer` */
    method ReadBuffer(segment: word, at: nat, size: nat) returns (result: seq<byte>)
      requires ram.Length >= MIB
      ensures result == Fetched(ram[..], segment, Wrap(at), size)
    {
      hide Address, Physical, Wrap;
      ghost var m := ram[..];
      var position := 0;
      var start := Wrap(at);
      var offset := start;
      Begins(m, segment, start, []);
      result := [];
      while position < size
        invariant position <= size && ram.Length == |m|
        invariant offset == Wrap(start + position)
        invariant position < size ==> Address(|m|, segment, start, position) == Physical(segment, offset)
        invariant result == Fetched(m, segment, start, position)
      {
        var physical := Physical(segment, offset);
        var count := Least(size - position, SEGMENT - offset, ram.Length - physical);
        FetchedChunk(m, segment, start, position, count);
        result := result + ram[physical..physical + count];
        if position + count < size {
          ChunkEnds(|m|, segment, start, position, count);
        }
        WrapAgain(start + position, count);
        position := position + count;
        offset := Wrap(offset + count);
      }
    }
  }

  function Least(a: nat, b: nat, c: nat): nat {
    var m := if a < b then a else b;
    if m < c then m else c
  }

  lemma Begins(m: Memory, segment: word, offset: word, data: seq<byte>)
    requires |m| >= MIB
    ensures Wrap(offset + 0) == offset && Address(|m|, segment, offset, 0) == Physical(segment, offset)
    ensures Stored(m, segment, offset, data[..0]) == m && Fetched(m, segment, offset, 0) == []
  {
  }

  lemma WrapAgain(n: nat, k: nat)
    ensures Wrap(Wrap(n) + k) == Wrap(n + k)
  {
    var q, r := n / SEGMENT, n % SEGMENT;
    var q', r' := (r + k) / SEGMENT, (r + k) % SEGMENT;
    DivModUnique(n + k, SEGMENT, q + q', r');
  }
}
