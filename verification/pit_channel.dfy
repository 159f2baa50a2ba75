/** One channel of the interval timer (`hardware.py`): counting many clocks at once
    against counting them one by one, and its byte-wide programming interface. */
module PitChannel {
  import opened Bytes

  /** A count of zero stands for this many clocks. */
  const ZERO_COUNT := 0x1_0000

  datatype Channel = Channel(reload: nat, count: nat, mode: nat, rw: nat, word: nat,
                             writeLow: bool, readLow: bool, latched: Option<nat>)
  {
    /** An unprogrammed channel stands still; a programmed one counts from its
        reload value down to one. */
    predicate Valid() {
      && reload <= ZERO_COUNT && word < 0x1_0000 && rw < 4
      && (if reload == 0 then count == 0 else 1 <= count <= reload)
      && (latched.Some? ==> latched.value <= ZERO_COUNT)
    }
  }

  // ---- Counting ----

  /** Counting clock by clock: the count, and how often it has run out. */
  function Clocked(reload: nat, count: nat, clocks: nat): (nat, nat)
    requires 1 <= reload
  {
    if clocks == 0 then (count, 0)
    else
      var (c, fired) := Clocked(reload, count, clocks - 1);
      if c <= 1 then (reload, fired + 1) else (c - 1, fired)
  }

  /** `_advance_counter`: the new count and the periods that have ended. */
  function Advanced(reload: nat, count: nat, clocks: nat): (nat, nat) {
    if reload == 0 || clocks == 0 then (count, 0)
    else
      var left := if count == 0 then ZERO_COUNT else count;
      if clocks < left then (left - clocks, 0)
      else
        var rest := (clocks - left) % reload;
        (if rest == 0 then reload else reload - rest, 1 + (clocks - left) / reload)
  }

  /** No clock is lost: the periods that ended and the part of the current one make
      up the clocks and the part of the period they started in. */
  lemma {:induction false} Conserved(reload: nat, count: nat, clocks: nat)
    requires 1 <= count <= reload
    ensures var (c, fired) := Advanced(reload, count, clocks);
      1 <= c <= reload && fired * reload + (reload - c) == clocks + (reload - count)
  {
    if clocks >= count && clocks > 0 {
      var n := clocks - count;
      assert n == reload * (n / reload) + n % reload;
      assert (1 + n / reload) * reload == reload + reload * (n / reload);
    }
  }

  lemma {:induction false} ClockedConserves(reload: nat, count: nat, clocks: nat)
    requires 1 <= count <= reload
    ensures var (c, fired) := Clocked(reload, count, clocks);
      1 <= c <= reload && fired * reload + (reload - c) == clocks + (reload - count)
  {
    if clocks > 0 {
      ClockedConserves(reload, count, clocks - 1);
      var fired := Clocked(reload, count, clocks - 1).1;
      assert (fired + 1) * reload == fired * reload + reload;
    }
  }

  lemma SameCount(reload: nat, c: nat, fired: nat, c': nat, fired': nat)
    requires 1 <= c <= reload && 1 <= c' <= reload
    requires fired * reload + (reload - c) == fired' * reload + (reload - c')
    ensures c == c' && fired == fired'
  {
    var n := fired * reload + (reload - c);
    DivModUnique(n, reload, fired, reload - c);
    DivModUnique(n, reload, fired', reload - c');
  }

  /** Counting by division is counting clock by clock. */
  lemma AdvanceIsClocks(reload: nat, count: nat, clocks: nat)
    requires 1 <= count <= reload
    ensures Advanced(reload, count, clocks) == Clocked(reload, count, clocks)
  {
    hide Advanced, Clocked;
    Conserved(reload, count, clocks);
    ClockedConserves(reload, count, clocks);
    var (c, fired) := Advanced(reload, count, clocks);
    var (c', fired') := Clocked(reload, count, clocks);
    SameCount(reload, c, fired, c', fired');
  }

  /** Two advances are one. */
  lemma AdvanceComposes(reload: nat, count: nat, a: nat, b: nat)
    requires 1 <= count <= reload
    ensures var (c, fired) := Advanced(reload, count, a);
      Advanced(reload, count, a + b) == (Advanced(reload, c, b).0, fired + Advanced(reload, c, b).1)
  {
    hide Advanced;
    Conserved(reload, count, a);
    var (c, fired) := Advanced(reload, count, a);
    Conserved(reload, c, b);
    var (c2, fired2) := Advanced(reload, c, b);
    Conserved(reload, count, a + b);
    var (c3, fired3) := Advanced(reload, count, a + b);
    Distribute(fired, fired2, reload);
    SameCount(reload, c3, fired3, c2, fired + fired2);
  }

  lemma Distribute(a: nat, b: nat, m: nat)
    ensures (a + b) * m == a * m + b * m
  {
  }

  function AdvancedChannel(c: Channel, clocks: nat): Channel {
    c.(count := Advanced(c.reload, c.count, clocks).0)
  }

  /** A period of the channel ends within the clocks. */
  predicate Fires(c: Channel, clocks: nat) {
    Advanced(c.reload, c.count, clocks).1 > 0
  }

  /** `output` */
  predicate Output(c: Channel) {
    if c.reload == 0 then false
    else
      var count := if c.count == 0 then ZERO_COUNT else c.count;
      if c.mode == 3 then (c.reload - count) % c.reload < (c.reload + 1) / 2
      else if c.mode == 2 then count != 1
      else true
  }

  /** In mode 3 the output of a freshly loaded channel is high in the first half of
      every period, rounded up; in mode 2 it is low in the last clock of each. */
  lemma OutputWave(c: Channel, clocks: nat)
    requires 1 <= c.reload == c.count
    ensures c.mode !in {2, 3} ==> Output(AdvancedChannel(c, clocks))
    ensures var out := Output(AdvancedChannel(c, clocks));
      && (c.mode == 3 ==> (out <==> clocks % c.reload < (c.reload + 1) / 2))
      && (c.mode == 2 ==> (out <==> clocks % c.reload != c.reload - 1))
  {
    Conserved(c.reload, c.count, clocks);
    var (count, fired) := Advanced(c.reload, c.count, clocks);
    DivModUnique(clocks, c.reload, fired, c.reload - count);
    DivModUnique(c.reload - count, c.reload, 0, c.reload - count);
  }

  /** A channel fires when the clocks reach the end of its count; one that stands still
      never does, and its output is low. */
  lemma FiresMeans(c: Channel, clocks: nat)
    requires c.Valid()
    ensures Fires(c, clocks) <==> c.reload > 0 && clocks >= c.count
    ensures c.reload == 0 ==> !Output(c)
  {
    if c.reload > 0 && clocks >= c.count {
      assert (clocks - c.count) / c.reload >= 0;
    }
  }

  // ---- Programming ----

  function Effective(word: nat): nat { if word == 0 then ZERO_COUNT else word }

  /** `write_command` for this channel. */
  function Commanded(c: Channel, val: byte): Channel {
    var rw, mode := val / 0x10 % 4, val / 2 % 8;
    if rw == 0 then
      if c.latched.None? then c.(latched := Some(c.count), readLow := false) else c
    else
      c.(mode := if mode >= 6 then mode - 4 else mode, rw := rw, writeLow := false, readLow := false, latched := None)
  }

  /** `_load_count` */
  function LoadedChannel(c: Channel, word: nat): Channel {
    c.(word := word, reload := Effective(word), count := Effective(word))
  }

  /** `write_counter`: the channel and whether a count was loaded. */
  function ByteWritten(c: Channel, val: byte): (Channel, bool) {
    var v: int := val;
    if c.rw == 1 then (LoadedChannel(c, c.word / 0x100 * 0x100 + v), true)
    else if c.rw == 2 then (LoadedChannel(c, c.word % 0x100 + v * 0x100), true)
    else if c.rw == 3 then
      if !c.writeLow then (c.(word := c.word / 0x100 * 0x100 + v, writeLow := true), false)
      else (LoadedChannel(c.(writeLow := false), c.word % 0x100 + v * 0x100), true)
    else (c, false)
  }

  /** `read_counter`: the channel and the byte. */
  function ByteRead(c: Channel): (Channel, byte) {
    var value := if c.latched.Some? then c.latched.value else c.count;
    if c.rw == 2 then (c, value / 0x100 % 0x100)
    else if c.rw == 3 && c.readLow then (c.(readLow := false, latched := None), value / 0x100 % 0x100)
    else (if c.rw == 3 then c.(readLow := true) else c, value % 0x100)
  }

  lemma CommandedValid(c: Channel, val: byte)
    requires c.Valid()
    ensures Commanded(c, val).Valid()
  {
  }

  lemma WrittenValid(c: Channel, val: byte)
    requires c.Valid()
    ensures ByteWritten(c, val).0.Valid()
    ensures c.word / 0x100 * 0x100 + val < 0x1_0000 && c.word % 0x100 + val * 0x100 < 0x1_0000
  {
  }

  lemma ReadValid(c: Channel)
    requires c.Valid()
    ensures ByteRead(c).0.Valid()
  {
  }

  lemma AdvancedValid(c: Channel, clocks: nat)
    requires c.Valid()
    ensures AdvancedChannel(c, clocks).Valid()
  {
    hide Advanced;
    if c.reload > 0 {
      Conserved(c.reload, c.count, clocks);
    } else {
      StandsStill(c.count, clocks);
    }
  }

  lemma StandsStill(count: nat, clocks: nat)
    ensures Advanced(0, count, clocks) == (count, 0)
  {
  }

  /** Low byte, high byte: the count is loaded with the second one and not before. */
  lemma WriteLoadsWord(c: Channel, word: nat, clocks: nat)
    requires c.Valid() && c.rw == 3 && !c.writeLow && word < 0x1_0000
    ensures var (half, early) := ByteWritten(c, word % 0x100);
      && !early && half.reload == c.reload && half.count == c.count
      && var (full, loaded) := ByteWritten(AdvancedChannel(half, clocks), word / 0x100);
      && loaded && full.word == word && !full.writeLow
      && full.reload == full.count == if word == 0 then 0x1_0000 else word
  {
    var high := c.word / 0x100;
    DivModUnique(high * 0x100 + word % 0x100, 0x100, high, word % 0x100);
  }

  /** In the one-byte modes a byte replaces the low or the high one of the word and loads the
      count at once; a channel whose mode was never set ignores it. */
  lemma WriteLoadsByte(c: Channel, val: byte)
    requires c.Valid()
    ensures var (r, loaded) := ByteWritten(c, val);
      && (c.rw == 0 ==> r == c && !loaded)
      && (c.rw in {1, 2} ==> loaded && r.reload == r.count == (if r.word == 0 then 0x1_0000 else r.word))
      && (c.rw == 1 ==> r.word % 0x100 == val && r.word / 0x100 == c.word / 0x100)
      && (c.rw == 2 ==> r.word / 0x100 == val && r.word % 0x100 == c.word % 0x100)
      && r == c.(word := r.word, reload := r.reload, count := r.count, writeLow := r.writeLow)
  {
    var v: int := val;
    DivModUnique(c.word / 0x100 * 0x100 + v, 0x100, c.word / 0x100, v);
    DivModUnique(c.word % 0x100 + v * 0x100, 0x100, v, c.word % 0x100);
  }

  /** A latched count is read coherently: both bytes belong to the count at the time
      of the latch command, however the channel counts in between; then the latch is
      free again. */
  lemma LatchedRead(c: Channel, val: byte, a: nat, b: nat)
    requires c.Valid() && c.rw == 3 && c.latched.None? && val / 0x10 % 4 == 0
    ensures var latched := Commanded(c, val);
      var (c1, low) := ByteRead(AdvancedChannel(latched, a));
      var (c2, high) := ByteRead(AdvancedChannel(c1, b));
      low + 0x100 * high == c.count % 0x1_0000 && c2.latched.None? && !c2.readLow
  {
    var n := c.count;
    DivModUnique(n, 0x1_0000, n / 0x100 / 0x100, n % 0x100 + 0x100 * (n / 0x100 % 0x100));
  }

  /** What may happen to a channel between two commands that program it: its port is
      read, it counts, or it is told to latch once more. */
  datatype Poll = ReadPort | Count(clocks: nat) | Latch(val: byte)

  /** The channel after a run of them, and the bytes that were read, in order. */
  function Polled(c: Channel, polls: seq<Poll>): (Channel, seq<byte>)
    decreases |polls|
  {
    if polls == [] then (c, [])
    else
      match polls[0]
      case ReadPort =>
        var (next, b) := ByteRead(c);
        var (last, bytes) := Polled(next, polls[1..]);
        (last, [b] + bytes)
      case Count(clocks) => Polled(AdvancedChannel(c, clocks), polls[1..])
      case Latch(val) => Polled(if val / 0x10 % 4 == 0 then Commanded(c, val) else c, polls[1..])
  }

  /** In the one-byte modes a latched count stays until the channel is programmed
      again: every read returns its byte, whatever else happens. */
  lemma {:induction false} LatchStays(c: Channel, polls: seq<Poll>)
    requires c.latched.Some? && c.rw in {1, 2}
    ensures var (last, bytes) := Polled(c, polls);
      && last.latched == c.latched
      && forall i :: 0 <= i < |bytes| ==>
           bytes[i] == (if c.rw == 1 then c.latched.value % 0x100 else c.latched.value / 0x100 % 0x100)
    decreases |polls|
  {
    hide Advanced;
    if polls != [] {
      match polls[0]
      case ReadPort => LatchStays(c, polls[1..]);
      case Count(clocks) => LatchStays(AdvancedChannel(c, clocks), polls[1..]);
      case Latch(_) => LatchStays(c, polls[1..]);
    }
  }

  /** In the two-byte mode the next two bytes read are the low and the high byte of
      the latched count, whatever else happens. */
  lemma {:induction false} LatchIsRead(c: Channel, polls: seq<Poll>)
    requires c.latched.Some? && c.rw == 3
    ensures var bytes, n, k := Polled(c, polls).1, c.latched.value, if c.readLow then 0 else 1;
      && (|bytes| > 0 && !c.readLow ==> bytes[0] == n % 0x100)
      && (|bytes| > k ==> bytes[k] == n / 0x100 % 0x100)
    decreases |polls|
  {
    hide Advanced;
    if polls != [] {
      match polls[0]
      case ReadPort =>
        if !c.readLow {
          LatchIsRead(ByteRead(c).0, polls[1..]);
        }
      case Count(clocks) => LatchIsRead(AdvancedChannel(c, clocks), polls[1..]);
      case Latch(_) => LatchIsRead(c, polls[1..]);
    }
  }

  // ---- What the command byte and the port say ----

  lemma CommandMode(counter: nat, rw: nat, mode: nat, bcd: nat)
    requires counter < 4 && rw < 4 && mode < 8 && bcd < 2
    ensures (0x40 * counter + 0x10 * rw + 2 * mode + bcd) / 2 % 8 == mode
  {
    DivModUnique(0x40 * counter + 0x10 * rw + 2 * mode + bcd, 2, 0x20 * counter + 8 * rw + mode, bcd);
  }

  lemma CommandAccess(counter: nat, rw: nat, mode: nat, bcd: nat)
    requires counter < 4 && rw < 4 && mode < 8 && bcd < 2
    ensures (0x40 * counter + 0x10 * rw + 2 * mode + bcd) / 0x10 % 4 == rw
    ensures (0x40 * counter + 0x10 * rw + 2 * mode + bcd) / 0x40 == counter
  {
    DivModUnique(0x40 * counter + 0x10 * rw + 2 * mode + bcd, 0x10, 4 * counter + rw, 2 * mode + bcd);
    DivModUnique(0x40 * counter + 0x10 * rw + 2 * mode + bcd, 0x40, counter, 0x10 * rw + 2 * mode + bcd);
  }

  /** A command names a counter in its top two bits, then the access mode and the
      counting mode. Modes 6 and 7 are 2 and 3; access mode 0 latches the count, unless
      one is latched already. */
  lemma CommandMeans(c: Channel, counter: nat, rw: nat, mode: nat, bcd: nat)
    requires counter < 4 && rw < 4 && mode < 8 && bcd < 2
    ensures var val := 0x40 * counter + 0x10 * rw + 2 * mode + bcd;
      val < 0x100 && val / 0x40 == counter &&
      Commanded(c, val) ==
      if rw != 0 then
        c.(mode := if mode == 6 then 2 else if mode == 7 then 3 else mode, rw := rw,
           writeLow := false, readLow := false, latched := None)
      else if c.latched.None? then c.(latched := Some(c.count), readLow := false)
      else c
  {
    CommandMode(counter, rw, mode, bcd);
    CommandAccess(counter, rw, mode, bcd);
  }

  /** Without a latch the port shows the count as it is at each read: in the two-byte
      mode the low byte now and the high byte later, so that they need not belong together;
      else one of them. */
  lemma UnlatchedRead(c: Channel, clocks: nat)
    requires c.latched.None?
    ensures c.rw == 3 && !c.readLow ==>
      var (c1, low) := ByteRead(c);
      var later := AdvancedChannel(c1, clocks);
      low == c.count % 0x100 && c1 == c.(readLow := true) && ByteRead(later) == (later.(readLow := false),
                                                                             later.count / 0x100 % 0x100)
    ensures c.rw == 2 ==> ByteRead(c) == (c, c.count / 0x100 % 0x100)
    ensures c.rw <= 1 ==> ByteRead(c) == (c, c.count % 0x100)
  {
    hide Advanced;
  }
}
