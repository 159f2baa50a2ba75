/** The interval timer (`hardware.py`), its channels and accumulators changed in
    place. Time is an exact real; the rounding of host floats is not modelled. */
module IntervalTimer {
  import opened Bytes
  import opened PitChannel

  // ---- What `tick` does to the state it may change ----

  datatype Ticking = Ticking(rest: real, channel0: Channel, channel1: Channel, ticks: nat)

  function Ticked(k: Ticking, dt: real, clk: real): Ticking
    requires 0.0 <= k.rest && 0.0 <= dt && 0.0 <= clk
  {
    var time := k.rest + dt * clk;
    assert 0.0 <= dt * clk;
    var clocks: nat := time.Floor;
    Advance(k, clocks).(rest := time - clocks as real)
  }

  function Advance(k: Ticking, clocks: nat): Ticking {
    k.(channel0 := AdvancedChannel(k.channel0, clocks), channel1 := AdvancedChannel(k.channel1, clocks),
       ticks := k.ticks + Advanced(k.channel0.reload, k.channel0.count, clocks).1)
  }

  ghost predicate Times(dts: seq<real>) {
    forall i :: 0 <= i < |dts| ==> 0.0 <= dts[i]
  }

  ghost function Sum(dts: seq<real>): real {
    if dts == [] then 0.0 else Sum(dts[..|dts| - 1]) + dts[|dts| - 1]
  }

  /** Ticking over the given times, one after the other. */
  ghost function TickRun(k: Ticking, dts: seq<real>, clk: real): (r: Ticking)
    requires 0.0 <= k.rest < 1.0 && Times(dts) && 0.0 <= clk
    ensures 0.0 <= r.rest < 1.0
  {
    if dts == [] then k else Ticked(TickRun(k, dts[..|dts| - 1], clk), dts[|dts| - 1], clk)
  }

  lemma FloorIs(x: real, n: int)
    requires n as real <= x < (n + 1) as real
    ensures x.Floor == n
  {
  }

  lemma AdvanceTwice(k: Ticking, a: nat, b: nat)
    requires k.channel0.Valid() && k.channel1.Valid()
    ensures Advance(Advance(k, a), b) == Advance(k, a + b)
  {
    hide Advanced;
    Twice(k.channel0, a, b);
    Twice(k.channel1, a, b);
  }

  lemma Twice(c: Channel, a: nat, b: nat)
    requires c.Valid()
    ensures AdvancedChannel(AdvancedChannel(c, a), b) == AdvancedChannel(c, a + b)
    ensures Advanced(c.reload, c.count, a).1 + Advanced(c.reload, AdvancedChannel(c, a).count, b).1
      == Advanced(c.reload, c.count, a + b).1
  {
    hide Advanced;
    if c.reload > 0 {
      AdvanceComposes(c.reload, c.count, a, b);
    } else {
      StandsStill(c.count, a);
      StandsStill(c.count, b);
      StandsStill(c.count, a + b);
    }
  }

  /** The time since the last whole clock, after these further times. */
  ghost function Time(rest: real, dts: seq<real>, clk: real): real {
    rest + Sum(dts) * clk
  }

  lemma TimeStep(rest: real, dts: seq<real>, clk: real)
    requires Times(dts) && 0.0 <= clk && dts != []
    ensures Time(rest, dts, clk) == Time(rest, dts[..|dts| - 1], clk) + dts[|dts| - 1] * clk
    ensures 0.0 <= dts[|dts| - 1]
  {
    OneMore(Sum(dts[..|dts| - 1]), dts[|dts| - 1], clk);
  }

  /** However time is sliced, the timer has counted the whole clocks of the total. */
  lemma {:induction false} SlicingDoesNotMatter(k: Ticking, dts: seq<real>, clk: real)
    requires 0.0 <= k.rest < 1.0 && Times(dts) && 0.0 <= clk && k.channel0.Valid() && k.channel1.Valid()
    ensures var time := Time(k.rest, dts, clk);
      time >= 0.0 && time.Floor >= 0
      && TickRun(k, dts, clk) == Advance(k, time.Floor).(rest := time - time.Floor as real)
  {
    hide Advance, Ticked, Channel.Valid, Time, Sum;
    if dts == [] {
      NoTimes(k.rest, clk);
      FloorsAdd(k.rest, 0.0);
      NoTime(k);
    } else {
      var front, dt := dts[..|dts| - 1], dts[|dts| - 1];
      SlicingDoesNotMatter(k, front, clk);
      TimeStep(k.rest, dts, clk);
      NotNegative(dt, clk);
      var before := Time(k.rest, front, clk);
      NextTick(k, before, dt, clk);
      assert TickRun(k, front, clk) == Advance(k, before.Floor).(rest := before - before.Floor as real);
      assert TickRun(k, dts, clk) == Ticked(TickRun(k, front, clk), dt, clk);
      var time := Time(k.rest, dts, clk);
      assert time == before + dt * clk;
      assert TickRun(k, dts, clk) == Advance(k, time.Floor).(rest := time - time.Floor as real);
    }
  }

  lemma NoTimes(rest: real, clk: real)
    requires 0.0 <= rest < 1.0
    ensures Time(rest, [], clk) == rest && rest.Floor == 0
  {
    assert 0.0 * clk == 0.0;
  }

  lemma NextTick(k: Ticking, before: real, dt: real, clk: real)
    requires 0.0 <= before && 0.0 <= dt && 0.0 <= clk && k.channel0.Valid() && k.channel1.Valid()
    ensures var time := before + dt * clk;
      && before.Floor >= 0 && time.Floor >= 0
      && Ticked(Advance(k, before.Floor).(rest := before - before.Floor as real), dt, clk)
         == Advance(k, time.Floor).(rest := time - time.Floor as real)
  {
    hide Advance;
    NotNegative(dt, clk);
    FloorsAdd(before, dt * clk);
    var rest := before - before.Floor as real;
    var a, b := before.Floor, (rest + dt * clk).Floor;
    AdvanceTwice(k, a, b);
    RestIsNotCounted(Advance(k, a), rest, b);
    assert (a + b) as real == a as real + b as real;
  }

  lemma OneMore(sum: real, dt: real, clk: real)
    requires 0.0 <= dt && 0.0 <= clk
    ensures (sum + dt) * clk == sum * clk + dt * clk && 0.0 <= dt * clk
  {
  }

  lemma FloorsAdd(before: real, time: real)
    requires 0.0 <= before && 0.0 <= time
    ensures var rest := before - before.Floor as real;
      && before.Floor >= 0 && 0.0 <= rest < 1.0 && (rest + time).Floor >= 0
      && (before + time).Floor == before.Floor + (rest + time).Floor
  {
    var a, b := before.Floor, (before - before.Floor as real + time).Floor;
    assert a as real + b as real == (a + b) as real;
    FloorIs(before + time, a + b);
  }

  lemma RestIsNotCounted(k: Ticking, rest: real, clocks: nat)
    ensures Advance(k.(rest := rest), clocks) == Advance(k, clocks).(rest := rest)
  {
  }

  lemma NoTime(k: Ticking)
    ensures Advance(k, 0) == k
  {
  }

  /** `max(0.0, dt)` */
  function Passed(dt: real): (r: real)
    ensures r >= 0.0 && r >= dt && (r == 0.0 || r == dt)
  {
    if dt < 0.0 then 0.0 else dt
  }

  // ---- The timer ----

  class Pit {
    const clk: real
    var counters: seq<nat>
    var reloads: seq<nat>
    var modes: seq<nat>
    var rwModes: seq<nat>
    var words: seq<nat>
    var writeLow: seq<bool>
    var readLow: seq<bool>
    var latched: seq<Option<nat>>
    var irqPending: seq<bool>
    var tickRest: real
    var channel2Rest: real
    var ticks: nat

    ghost predicate Shape()
      reads this
    {
      && |counters| == |reloads| == |modes| == |rwModes| == |words| == 3
      && |writeLow| == |readLow| == |latched| == |irqPending| == 3
    }

    ghost function View(k: nat): Channel
      reads this
      requires Shape() && k < 3
    {
      Channel(reloads[k], counters[k], modes[k], rwModes[k], words[k], writeLow[k], readLow[k], latched[k])
    }

    ghost predicate AllValid()
      reads this
      requires Shape()
    {
      forall k :: 0 <= k < 3 ==> View(k).Valid()
    }

    ghost predicate Valid()
      reads this
    {
      Shape() && clk > 0.0 && 0.0 <= tickRest < 1.0 && 0.0 <= channel2Rest < 1.0 && AllValid()
    }

    ghost function State(): Ticking
      reads this
      requires Shape()
    {
      Ticking(tickRest, View(0), View(1), ticks)
    }

    constructor (clk: real)
      requires clk > 0.0
      ensures Valid() && this.clk == clk && ticks == 0 && tickRest == channel2Rest == 0.0
      ensures View(0) == Channel(0x1_0000, 0x1_0000, 3, 3, 0, false, false, None)
      ensures View(1) == Channel(0, 0, 3, 0, 0, false, false, None)
      ensures View(2) == Channel(0, 0, 2, 0, 0, false, false, None)
      ensures irqPending == [false, false, false]
    {
      this.clk := clk;
      counters, reloads := [ZERO_COUNT, 0, 0], [ZERO_COUNT, 0, 0];
      modes, rwModes, words := [3, 3, 2], [3, 0, 0], [0, 0, 0];
      writeLow, readLow, irqPending := [false, false, false], [false, false, false], [false, false, false];
      latched := [None, None, None];
      tickRest, channel2Rest, ticks := 0.0, 0.0, 0;
    }

    /** `write_command`: the top bits select the channel; 3 selects none. */
    method WriteCommand(val: byte)
      requires Valid()
      modifies `modes, `rwModes, `writeLow, `readLow, `latched
      ensures Valid()
      ensures forall k :: 0 <= k < 3 ==>
        View(k) == if k == val / 0x40 then Commanded(old(View(k)), val) else old(View(k))
    {
      var k := val / 0x40;
      if k != 3 {
        Command(k, val);
      }
    }

    method Command(k: nat, val: byte)
      requires Valid() && k < 3
      modifies `modes, `rwModes, `writeLow, `readLow, `latched
      ensures Shape() && View(k) == Commanded(old(View(k)), val)
      ensures forall j :: 0 <= j < 3 && j != k ==> View(j) == old(View(j))
      ensures Valid()
    {
      hide Channel.Valid;
      CommandedValid(View(k), val);
      var rw, mode := val / 0x10 % 4, val / 2 % 8;
      if rw == 0 {
        if latched[k].None? {
          latched, readLow := latched[k := Some(counters[k])], readLow[k := false];
        }
      } else {
        mode := if mode >= 6 then mode - 4 else mode;
        modes, rwModes := modes[k := mode], rwModes[k := rw];
        writeLow, readLow, latched := writeLow[k := false], readLow[k := false], latched[k := None];
      }
    }

    method LoadCount(k: nat, word: nat)
      requires Shape() && k < 3 && word < 0x1_0000
      modifies `words, `reloads, `counters, `channel2Rest
      ensures Shape() && View(k) == LoadedChannel(old(View(k)), word)
      ensures forall j :: 0 <= j < 3 && j != k ==> View(j) == old(View(j))
      ensures channel2Rest == if k == 2 then 0.0 else old(channel2Rest)
    {
      words := words[k := word];
      var count := if word == 0 then ZERO_COUNT else word;
      reloads, counters := reloads[k := count], counters[k := count];
      if k == 2 {
        channel2Rest := 0.0;
      }
    }

    method WriteCounter(k: nat, val: byte) returns (loaded: bool)
      requires Valid() && k < 3
      modifies `words, `reloads, `counters, `channel2Rest, `writeLow
      ensures Shape() && (View(k), loaded) == ByteWritten(old(View(k)), val)
      ensures forall j :: 0 <= j < 3 && j != k ==> View(j) == old(View(j))
      ensures Valid()
      ensures channel2Rest == if k == 2 && loaded then 0.0 else old(channel2Rest)
    {
      hide Channel.Valid;
      WrittenValid(View(k), val);
      var rw, v: int := rwModes[k], val;
      var low, high := words[k] % 0x100, words[k] / 0x100 * 0x100;
      loaded := false;
      if rw == 1 {
        LoadCount(k, high + v);
        loaded := true;
      } else if rw == 2 {
        LoadCount(k, low + v * 0x100);
        loaded := true;
      } else if rw == 3 {
        if !writeLow[k] {
          words, writeLow := words[k := high + v], writeLow[k := true];
        } else {
          writeLow := writeLow[k := false];
          LoadCount(k, low + v * 0x100);
          loaded := true;
        }
      }
    }

    method ReadCounter(k: nat) returns (result: byte)
      requires Valid() && k < 3
      modifies `readLow, `latched
      ensures Shape() && (View(k), result) == ByteRead(old(View(k)))
      ensures forall j :: 0 <= j < 3 && j != k ==> View(j) == old(View(j))
      ensures Valid()
    {
      hide Channel.Valid;
      ReadValid(View(k));
      var value := if latched[k].Some? then latched[k].value else counters[k];
      if rwModes[k] == 2 {
        result := value / 0x100 % 0x100;
      } else if rwModes[k] == 3 && readLow[k] {
        result := value / 0x100 % 0x100;
        readLow, latched := readLow[k := false], latched[k := None];
      } else {
        result := value % 0x100;
        if rwModes[k] == 3 {
          readLow := readLow[k := true];
        }
      }
    }

    /** `_advance_counter`; true when the channel has fired. */
    method AdvanceCounter(k: nat, clocks: nat) returns (fired: bool)
      requires Valid() && k < 3
      modifies `counters, `ticks, `irqPending
      ensures Shape() && View(k) == AdvancedChannel(old(View(k)), clocks)
      ensures forall j :: 0 <= j < 3 && j != k ==> View(j) == old(View(j))
      ensures Valid()
      ensures var periods := Advanced(old(View(k)).reload, old(View(k)).count, clocks).1;
        && (fired <==> old(View(k)).reload > 0 && clocks >= old(View(k)).count)
        && fired == Fires(old(View(k)), clocks) && ticks == old(ticks) + (if k == 0 then periods else 0)
        && irqPending == if fired then old(irqPending)[k := true] else old(irqPending)
    {
      hide Channel.Valid;
      AdvancedValid(View(k), clocks);
      FiresMeans(View(k), clocks);
      var reload := reloads[k];
      if reload == 0 || clocks == 0 {
        return false;
      }
      var count := if counters[k] == 0 then ZERO_COUNT else counters[k];
      if clocks < count {
        counters := counters[k := count - clocks];
        return false;
      }
      var afterFirst := clocks - count;
      var periods, remainder := 1 + afterFirst / reload, afterFirst % reload;
      counters := counters[k := if remainder == 0 then reload else reload - remainder];
      if k == 0 {
        ticks := ticks + periods;
      }
      irqPending := irqPending[k := true];
      fired := true;
    }

    /** `advance_channel2`: negative time counts as none. */
    method AdvanceChannel2(dt: real)
      requires Valid()
      modifies `counters, `ticks, `irqPending, `channel2Rest
      ensures Valid() && State() == old(State())
      ensures var time := old(channel2Rest) + Passed(dt) * clk;
        && time.Floor >= 0 && View(2) == AdvancedChannel(old(View(2)), time.Floor)
        && channel2Rest == time - time.Floor as real
        && irqPending == if Fires(old(View(2)), time.Floor) then old(irqPending)[2 := true] else old(irqPending)
    {
      hide Advanced, Fires, Passed, Channel.Valid;
      NotNegative(Passed(dt), clk);
      var time := channel2Rest + Passed(dt) * clk;
      var clocks := time.Floor;
      channel2Rest := time - clocks as real;
      assert forall j :: 0 <= j < 3 ==> View(j) == old(View(j));
      var _ := AdvanceCounter(2, clocks);
    }

    /** `tick`: the channels that fired, in order. */
    method Tick(dt: real) returns (fired: seq<nat>)
      requires Valid() && dt >= 0.0
      modifies `counters, `ticks, `irqPending, `tickRest
      ensures Valid() && State() == Ticked(old(State()), dt, clk) && View(2) == old(View(2))
      ensures var clocks := (old(tickRest) + dt * clk).Floor;
        && clocks >= 0
        && fired
          == (if Fires(old(View(0)), clocks) then [0] else []) + (if Fires(old(View(1)), clocks) then [1] else [])
      ensures |irqPending| == 3 && forall k :: 0 <= k < 3 ==> irqPending[k] == (old(irqPending)[k] || k in fired)
    {
      hide Advanced, Fires, Channel.Valid, Ticked;
      NotNegative(dt, clk);
      ghost var k := State();
      var time := tickRest + dt * clk;
      var clocks := time.Floor;
      tickRest := time - clocks as real;
      TickedIs(k, dt, clk, time, clocks);
      assert forall j :: 0 <= j < 3 ==> View(j) == old(View(j));
      if clocks == 0 {
        NoTime(k);
        NoneFire(k);
        return [];
      }
      fired := [];
      var first := AdvanceCounter(0, clocks);
      if first {
        fired := fired + [0];
      }
      var second := AdvanceCounter(1, clocks);
      if second {
        fired := fired + [1];
      }
    }
  }

  lemma TickedIs(k: Ticking, dt: real, clk: real, time: real, clocks: nat)
    requires 0.0 <= k.rest && 0.0 <= dt && 0.0 <= clk && time == k.rest + dt * clk && clocks == time.Floor
    ensures Ticked(k, dt, clk) == Advance(k, clocks).(rest := time - clocks as real)
  {
  }

  lemma NoneFire(k: Ticking)
    ensures !Fires(k.channel0, 0) && !Fires(k.channel1, 0)
  {
  }

  lemma NotNegative(x: real, y: real)
    requires x >= 0.0 && y >= 0.0
    ensures x * y >= 0.0
  {
  }
}
