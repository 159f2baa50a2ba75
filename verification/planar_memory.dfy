/** The planar EGA/VGA memory (`video.py`): the read and write pipelines of the
    graphics controller, and what a run of byte moves in write mode 1 does. */
module PlanarMemory {
  import opened Bytes

  const SIZE := 0x1_0000

  type Plane = s: seq<bv8> | |s| == SIZE witness seq(SIZE, _ => 0)

  datatype Vram = Vram(planes: seq<Plane>, latches: seq<bv8>)

  type Screen = v: Vram | |v.planes| == 4 && |v.latches| == 4 witness Vram(seq(4, _ => seq(SIZE, _ => 0)), [0, 0, 0, 0])

  /** The graphics-controller registers by index, and the map mask. */
  datatype Controls = Controls(setReset: bv8, enable: bv8, compare: bv8, rotate: bv8, readMap: bv8, mode: bv8,
                               care: bv8, bitMask: bv8, mapMask: bv8)
  {
    function WriteMode(): bv8 { mode & 3 }

    predicate Maps(p: nat)
      requires p < 4
    {
      mapMask & (1 << Number(p)) != 0
    }
  }

  /** The registers of the graphics controller and of the sequencer. */
  type Graphics = g: seq<bv8> | |g| >= 9 witness seq(9, _ => 0)
  type Sequencer = s: seq<bv8> | |s| >= 5 witness seq(5, _ => 0)

  function ControlsOf(g: Graphics, s: Sequencer): Controls {
    Controls(g[0], g[1], g[2], g[3], g[4], g[5], g[7], g[8], s[2])
  }

  function Number(p: nat): (r: bv8)
    requires p < 4
    ensures r < 4
  {
    if p == 0 then 0 else if p == 1 then 1 else if p == 2 then 2 else 3
  }

  // ---- Reading ----

  /** A read loads the latches from one address of every plane. */
  function Loaded(v: Screen, o: nat): Screen
    requires o < SIZE
  {
    v.(latches := [v.planes[0][o], v.planes[1][o], v.planes[2][o], v.planes[3][o]])
  }

  /** The pixels whose bit in plane p is the one to compare with, if that plane is
      cared for. */
  function Matches(care: bv8, compare: bv8, latch: bv8, p: bv8): bv8
    requires p < 4
  {
    if care & 0x0F & (1 << p) == 0 then 0xFF
    else 0xFF ^ (latch ^ (if compare & 0x0F & (1 << p) != 0 then 0xFF else 0))
  }

  function AllFour(a: bv8, b: bv8, c: bv8, d: bv8): bv8 { a & b & c & d }

  /** The byte a read returns once the latches are loaded. */
  function ReadValue(c: Controls, l: seq<bv8>): bv8
    requires |l| == 4
  {
    if c.mode & 8 != 0 then
      AllFour(Matches(c.care, c.compare, l[0], 0), Matches(c.care, c.compare, l[1], 1),
              Matches(c.care, c.compare, l[2], 2), Matches(c.care, c.compare, l[3], 3))
    else
      var plane := c.readMap & 3;
      if plane == 0 then l[0] else if plane == 1 then l[1] else if plane == 2 then l[2] else l[3]
  }

  // ---- Writing ----

  function Rotated(value: bv8, turn: bv8): bv8
    requires turn <= 7
  {
    if turn == 0 then value else (value >> turn) | (value << (8 - turn))
  }

  function Logical(operation: bv8, source: bv8, latch: bv8): bv8 {
    if operation == 1 then source & latch
    else if operation == 2 then source | latch
    else if operation == 3 then source ^ latch
    else source
  }

  /** The byte that a write in modes 0, 2 and 3 offers to plane p: set/reset or the
      data, a bit of the data spread out, or set/reset. */
  function Offered(mode: bv8, setReset: bv8, enable: bv8, data: bv8, p: bv8): bv8
    requires p < 4
  {
    var fill: bv8 := if setReset & 0x0F & (1 << p) != 0 then 0xFF else 0;
    if mode == 0 then (if enable & 0x0F & (1 << p) != 0 then fill else data)
    else if mode == 2 then (if data & (1 << p) != 0 then 0xFF else 0)
    else fill
  }

  function Masked(latch: bv8, drawn: bv8, mask: bv8): bv8 {
    (latch & !mask) | (drawn & mask)
  }

  /** The rotated data, the function select and the bits that a write may change. */
  function Data(c: Controls, value: bv8): bv8 { Rotated(value, c.rotate & 7) }

  function Operation(c: Controls): bv8 { (c.rotate >> 3) & 3 }

  function WriteMask(c: Controls, value: bv8): bv8 {
    if c.WriteMode() == 3 then c.bitMask & Data(c, value) else c.bitMask
  }

  /** What a write stores in plane p. */
  function Stored(c: Controls, p: nat, latch: bv8, value: bv8): bv8
    requires p < 4
  {
    if c.WriteMode() == 1 then latch
    else
      var offered := Offered(c.WriteMode(), c.setReset, c.enable, Data(c, value), Number(p));
      Masked(latch, Logical(Operation(c), offered, latch), WriteMask(c, value))
  }

  function Written(v: Screen, c: Controls, o: nat, value: bv8): (r: Screen)
    requires o < SIZE
    ensures r.latches == v.latches
    ensures forall p :: 0 <= p < 4 ==>
      r.planes[p] == if c.Maps(p) then v.planes[p][o := Stored(c, p, v.latches[p], value)] else v.planes[p]
  {
    var planes := seq(4, p requires 0 <= p < 4 =>
      if c.Maps(p) then v.planes[p][o := Stored(c, p, v.latches[p], value)] else v.planes[p]);
    v.(planes := planes)
  }

  // ---- Moving bytes one at a time ----

  /** n steps of reading at the source and writing what was read at the target. */
  function Moves(v: Screen, c: Controls, source: nat, target: nat, n: nat): Screen {
    if n == 0 then v
    else
      var u := Loaded(Moves(v, c, source, target, n - 1), (source + n - 1) % SIZE);
      Written(u, c, (target + n - 1) % SIZE, ReadValue(c, u.latches))
  }

  /** n stores of any data. */
  function Stores(v: Screen, c: Controls, target: nat, data: seq<bv8>): Screen {
    if data == [] then v
    else
      var n := |data| - 1;
      Written(Stores(v, c, target, data[..n]), c, (target + n) % SIZE, data[n])
  }

  // ---- Moving them at once ----

  function CopiedPlane(was: Plane, mapped: bool, source: nat, target: nat, n: nat): Plane
    requires source + n <= SIZE && target + n <= SIZE
  {
    if mapped then Spliced(was, target, was[source..source + n]) else was
  }

  /** Every mapped plane gets the source stretch; the latches hold the last byte. */
  function Copied(v: Screen, c: Controls, source: nat, target: nat, n: nat): (r: Screen)
    requires 0 < n && source + n <= SIZE && target + n <= SIZE
    ensures r.latches == Loaded(r, source + n - 1).latches
    ensures forall p :: 0 <= p < 4 ==>
      r.planes[p] == CopiedPlane(v.planes[p], c.Maps(p), source, target, n)
  {
    var planes: seq<Plane> := seq(4, p requires 0 <= p < 4 =>
      CopiedPlane(v.planes[p], c.Maps(p), source, target, n));
    Loaded(Vram(planes, v.latches), source + n - 1)
  }

  function Filled(v: Screen, c: Controls, target: nat, n: nat): (r: Screen)
    requires target + n <= SIZE
    ensures r.latches == v.latches
    ensures forall p :: 0 <= p < 4 ==>
      r.planes[p] == if c.Maps(p) then Spliced(v.planes[p], target, seq(n, _ => v.latches[p])) else v.planes[p]
  {
    var planes: seq<Plane> := seq(4, p requires 0 <= p < 4 =>
      if c.Maps(p) then Spliced(v.planes[p], target, seq(n, _ => v.latches[p])) else v.planes[p]);
    Vram(planes, v.latches)
  }

  // ---- One move at a time equals all at once ----

  lemma NoMove(v: Screen, c: Controls, source: nat, target: nat)
    ensures Moves(v, c, source, target, 0) == v
  {
  }

  lemma LatchesMove(u: Screen, c: Controls, from: nat, to: nat, value: bv8, p: nat, o: nat)
    requires c.WriteMode() == 1 && from < SIZE && to < SIZE && p < 4 && o < SIZE
    ensures var r := Written(Loaded(u, from), c, to, value);
      && r.planes[p][o] == (if c.Maps(p) && o == to then u.planes[p][from] else u.planes[p][o])
      && r.latches[p] == u.planes[p][from]
  {
  }

  /** One more move, as plane p sees it. */
  lemma OneMove(v: Screen, c: Controls, source: nat, target: nat, n: nat, p: nat, o: nat)
    requires c.WriteMode() == 1 && 0 < n && source + n <= SIZE && target + n <= SIZE && p < 4 && o < SIZE
    ensures var u, r := Moves(v, c, source, target, n - 1), Moves(v, c, source, target, n);
      && r.planes[p][o] == (if c.Maps(p) && o == target + n - 1 then u.planes[p][source + n - 1] else u.planes[p][o])
      && r.latches[p] == u.planes[p][source + n - 1]
  {
    hide Controls.Maps, Controls.WriteMode, ReadValue, Written, Loaded;
    ModSmall(source + n - 1, SIZE);
    ModSmall(target + n - 1, SIZE);
    var u := Moves(v, c, source, target, n - 1);
    LatchesMove(u, c, source + n - 1, target + n - 1, ReadValue(c, Loaded(u, source + n - 1).latches), p, o);
  }

  lemma {:induction false} MovesByByte(v: Screen, c: Controls, source: nat, target: nat, n: nat, p: nat, o: nat)
    requires c.WriteMode() == 1 && source + n <= SIZE && target + n <= SIZE && p < 4 && o < SIZE
    requires !(source < target < source + n)
    ensures Moves(v, c, source, target, n).planes[p][o]
      == if c.Maps(p) && target <= o < target + n then v.planes[p][source + (o - target)] else v.planes[p][o]
  {
    hide Moves, Controls.Maps, Controls.WriteMode;
    if n == 0 {
      NoMove(v, c, source, target);
    } else {
      OneMove(v, c, source, target, n, p, o);
      MovesByByte(v, c, source, target, n - 1, p, o);
      MovesByByte(v, c, source, target, n - 1, p, source + n - 1);
    }
  }

  lemma CopyOfPlane(v: Screen, c: Controls, source: nat, target: nat, n: nat, p: nat)
    requires c.WriteMode() == 1 && 0 < n && source + n <= SIZE && target + n <= SIZE && p < 4
    requires !(source < target < source + n)
    ensures Copied(v, c, source, target, n).planes[p] == Moves(v, c, source, target, n).planes[p]
    ensures Copied(v, c, source, target, n).latches[p] == Moves(v, c, source, target, n).latches[p]
  {
    hide Moves, Controls.Maps, Controls.WriteMode, Spliced;
    var copied, moved := Copied(v, c, source, target, n), Moves(v, c, source, target, n);
    forall o | 0 <= o < SIZE
      ensures copied.planes[p][o] == moved.planes[p][o]
    {
      MovesByByte(v, c, source, target, n, p, o);
    }
    OneMove(v, c, source, target, n, p, source + n - 1);
    MovesByByte(v, c, source, target, n - 1, p, source + n - 1);
  }

  /** In write mode 1, copying the stretch plane by plane is the same as moving its
      bytes one by one, upwards into lower or disjoint addresses or onto itself. */
  lemma CopyIsMoves(v: Screen, c: Controls, source: nat, target: nat, n: nat)
    requires c.WriteMode() == 1 && 0 < n && source + n <= SIZE && target + n <= SIZE
    requires !(source < target < source + n)
    ensures Copied(v, c, source, target, n) == Moves(v, c, source, target, n)
  {
    hide Moves, Copied, Controls.WriteMode;
    var copied, moved := Copied(v, c, source, target, n), Moves(v, c, source, target, n);
    forall p | 0 <= p < 4
      ensures copied.planes[p] == moved.planes[p] && copied.latches[p] == moved.latches[p]
    {
      CopyOfPlane(v, c, source, target, n, p);
    }
    assert copied.planes == moved.planes && copied.latches == moved.latches;
  }

  /** Where byte o of a forward overlap comes from, when it is written. */
  function Repeated(source: nat, target: nat, o: nat): (r: nat)
    requires source < target <= o
    ensures source <= r < target
  {
    source + (o - target) % (target - source)
  }

  /** The byte that is read for o, one stretch before it, comes from there as well. */
  lemma RepeatedBack(source: nat, target: nat, o: nat)
    requires source < target <= o
    ensures var from := o - (target - source);
      Repeated(source, target, o) == if from < target then from else Repeated(source, target, from)
  {
    if o - target < target - source {
      ModSmall(o - target, target - source);
    } else {
      ModMinus(o - target, target - source);
    }
  }

  /** A forward overlap is what the bulk copy declines: there the moves read what
      they wrote, and repeat the bytes between source and target. */
  lemma {:induction false} OverlapRepeats(v: Screen, c: Controls, source: nat, target: nat, n: nat, p: nat, o: nat)
    requires c.WriteMode() == 1 && source + n <= SIZE && target + n <= SIZE && source < target
    requires p < 4 && o < SIZE
    ensures Moves(v, c, source, target, n).planes[p][o]
      == if c.Maps(p) && target <= o < target + n then v.planes[p][Repeated(source, target, o)] else v.planes[p][o]
  {
    hide Moves, Repeated, Controls.Maps, Controls.WriteMode;
    if n == 0 {
      NoMove(v, c, source, target);
    } else {
      var from := source + n - 1;
      OneMove(v, c, source, target, n, p, o);
      OverlapRepeats(v, c, source, target, n - 1, p, o);
      OverlapRepeats(v, c, source, target, n - 1, p, from);
      RepeatedBack(source, target, target + n - 1);
    }
  }

  lemma ModMinus(a: nat, m: nat)
    requires 0 < m <= a
    ensures (a - m) % m == a % m
  {
    var q, r := (a - m) / m, (a - m) % m;
    assert a == m * (q + 1) + r;
    DivModUnique(a, m, q + 1, r);
  }

  lemma ModSmall(a: nat, m: nat)
    requires a < m
    ensures a % m == a
  {
  }

  lemma {:induction false} StoresByByte(v: Screen, c: Controls, target: nat, data: seq<bv8>)
    requires c.WriteMode() == 1 && target + |data| <= SIZE
    ensures Stores(v, c, target, data).latches == v.latches
    ensures forall p, o :: 0 <= p < 4 && 0 <= o < SIZE ==>
      Stores(v, c, target, data).planes[p][o]
        == if c.Maps(p) && target <= o < target + |data| then v.latches[p] else v.planes[p][o]
  {
    if data != [] {
      StoresByByte(v, c, target, data[..|data| - 1]);
    }
  }

  /** In write mode 1, filling from the latches is the same as storing byte by
      byte, whatever the bytes. */
  lemma FillIsStores(v: Screen, c: Controls, target: nat, data: seq<bv8>)
    requires c.WriteMode() == 1 && target + |data| <= SIZE
    ensures Filled(v, c, target, |data|) == Stores(v, c, target, data)
  {
    StoresByByte(v, c, target, data);
    var filled, stored := Filled(v, c, target, |data|), Stores(v, c, target, data);
    forall p | 0 <= p < 4
      ensures filled.planes[p] == stored.planes[p]
    {
      assert forall o :: 0 <= o < SIZE ==> filled.planes[p][o] == stored.planes[p][o];
    }
    assert filled.planes == stored.planes;
  }
}
