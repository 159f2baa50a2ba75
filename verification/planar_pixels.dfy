/** Pixels of the planar modes (`video.py`): the colour of one pixel, the expansion
    of eight at a time into the lanes of a 64-bit word, and what reads and writes
    through the graphics controller mean pixel by pixel. */
module PlanarPixels {
  import opened PlanarMemory

  /** Pixel k of a plane byte, counted from the left. */
  function PixelBit(b: bv8, k: bv8): bv8
    requires k < 8
  {
    (b >> (7 - k)) & 1
  }

  /** The colour of pixel k over the bytes of the four planes. */
  function Colour(b0: bv8, b1: bv8, b2: bv8, b3: bv8, k: bv8): bv8
    requires k < 8
  {
    PixelBit(b0, k) + (PixelBit(b1, k) << 1) + (PixelBit(b2, k) << 2) + (PixelBit(b3, k) << 3)
  }

  function ColourAt(v: Screen, o: nat, k: bv8): bv8
    requires o < SIZE && k < 8
  {
    Colour(v.planes[0][o], v.planes[1][o], v.planes[2][o], v.planes[3][o], k)
  }

  // ---- Eight pixels in a word ----

  /** The entry of the lane table for a plane byte. */
  function Lanes(b: bv8): bv64 {
    var w := b as bv64;
    ((w >> 7) & 1) + (((w >> 6) & 1) << 8) + (((w >> 5) & 1) << 16) + (((w >> 4) & 1) << 24)
    + (((w >> 3) & 1) << 32) + (((w >> 2) & 1) << 40) + (((w >> 1) & 1) << 48) + ((w & 1) << 56)
  }

  function Word(b0: bv8, b1: bv8, b2: bv8, b3: bv8): bv64 {
    Lanes(b0) | (Lanes(b1) << 1) | (Lanes(b2) << 2) | (Lanes(b3) << 3)
  }

  /** Byte k of a little-endian word. */
  function LaneByte(w: bv64, k: bv8): bv8
    requires k < 8
  {
    ((w >> (8 * (k as bv64))) & 0xFF) as bv8
  }

  /** No lane carries into the next: byte k of the word is the colour of pixel k. */
  lemma LanesHoldPixels(b0: bv8, b1: bv8, b2: bv8, b3: bv8, k: bv8)
    requires k < 8
    ensures LaneByte(Word(b0, b1, b2, b3), k) == Colour(b0, b1, b2, b3, k)
  {
    if k == 0 {} else if k == 1 {} else if k == 2 {} else if k == 3 {} else if k == 4 {} else if k == 5 {}
    else if k == 6 {}
  }

  // ---- What the graphics controller means pixel by pixel ----

  /** The colour a write offers to pixel k: set/reset or the data bit in mode 0,
      plane by plane, the low bits of the data in mode 2, set/reset in mode 3. */
  function Pen(mode: bv8, setReset: bv8, enable: bv8, data: bv8, k: bv8): bv8
    requires k < 8
  {
    if mode == 0 then
      var spread: bv8 := if PixelBit(data, k) == 1 then 0x0F else 0;
      ((setReset & enable) | (spread & !enable)) & 0x0F
    else if mode == 2 then data & 0x0F
    else setReset & 0x0F
  }

  function Mapped(colour: bv8, drawn: bv8, mapMask: bv8): bv8 {
    ((drawn & mapMask) | (colour & !mapMask)) & 0x0F
  }

  /** The colour of pixel k after reading its address and writing there. */
  function Plotted(c: Controls, colour: bv8, value: bv8, k: bv8): bv8
    requires k < 8
  {
    if c.WriteMode() == 1 || PixelBit(WriteMask(c, value), k) == 0 then colour
    else
      var pen := Pen(c.WriteMode(), c.setReset, c.enable, Data(c, value), k);
      Mapped(colour, Logical(Operation(c), pen, colour), c.mapMask)
  }

  /** The bit of plane p in a colour. */
  function PlaneOf(colour: bv8, p: bv8): bv8
    requires p < 4
  {
    (colour >> p) & 1
  }

  lemma PenBits(mode: bv8, setReset: bv8, enable: bv8, data: bv8, k: bv8, p: bv8)
    requires k < 8 && p < 4
    ensures PixelBit(Offered(mode, setReset, enable, data, p), k) == PlaneOf(Pen(mode, setReset, enable, data, k), p)
  {
  }

  lemma LogicalBits(operation: bv8, source: bv8, latch: bv8, pen: bv8, colour: bv8, k: bv8, p: bv8)
    requires k < 8 && p < 4 && PixelBit(source, k) == PlaneOf(pen, p) && PixelBit(latch, k) == PlaneOf(colour, p)
    ensures PixelBit(Logical(operation, source, latch), k) == PlaneOf(Logical(operation, pen, colour), p)
  {
    if operation == 1 {} else if operation == 2 {} else if operation == 3 {}
  }

  lemma MixedBits(stored: bv8, latch: bv8, drawn: bv8, colour: bv8, mask: bv8, mapMask: bv8, k: bv8, p: bv8)
    requires k < 8 && p < 4 && PlaneOf(colour, p) == PixelBit(latch, k) && PlaneOf(drawn, p) == PixelBit(stored, k)
    ensures PlaneOf(if PixelBit(mask, k) == 0 then colour else Mapped(colour, drawn, mapMask), p)
      == PixelBit(if mapMask & (1 << p) != 0 then Masked(latch, stored, mask) else latch, k)
  {
  }

  /** One plane of the pixel. */
  lemma PlotsPlane(c: Controls, colour: bv8, latch: bv8, value: bv8, k: bv8, p: nat)
    requires k < 8 && p < 4 && PlaneOf(colour, Number(p)) == PixelBit(latch, k)
    ensures PlaneOf(Plotted(c, colour, value, k), Number(p))
      == PixelBit(if c.Maps(p) then Stored(c, p, latch, value) else latch, k)
  {
    hide PixelBit, PlaneOf, Pen, Offered, Logical, Mapped, Masked, WriteMask, Data, Operation, Number,
         Controls.WriteMode;
    if c.WriteMode() != 1 {
      var offered := Offered(c.WriteMode(), c.setReset, c.enable, Data(c, value), Number(p));
      var pen := Pen(c.WriteMode(), c.setReset, c.enable, Data(c, value), k);
      PenBits(c.WriteMode(), c.setReset, c.enable, Data(c, value), k, Number(p));
      LogicalBits(Operation(c), offered, latch, pen, colour, k, Number(p));
      MixedBits(Logical(Operation(c), offered, latch), latch, Logical(Operation(c), pen, colour), colour,
                WriteMask(c, value), c.mapMask, k, Number(p));
    }
  }

  lemma FourPlanes(b0: bv8, b1: bv8, b2: bv8, b3: bv8, k: bv8)
    requires k < 8
    ensures var x := Colour(b0, b1, b2, b3, k);
      x <= 0x0F && PlaneOf(x, 0) == PixelBit(b0, k) && PlaneOf(x, 1) == PixelBit(b1, k)
      && PlaneOf(x, 2) == PixelBit(b2, k) && PlaneOf(x, 3) == PixelBit(b3, k)
  {
  }

  lemma PlanesOfPixel(v: Screen, o: nat, k: bv8, p: nat)
    requires o < SIZE && k < 8 && p < 4
    ensures ColourAt(v, o, k) <= 0x0F && PlaneOf(ColourAt(v, o, k), Number(p)) == PixelBit(v.planes[p][o], k)
  {
    hide PixelBit, PlaneOf, Colour;
    FourPlanes(v.planes[0][o], v.planes[1][o], v.planes[2][o], v.planes[3][o], k);
  }

  lemma SamePlanes(x: bv8, y: bv8)
    requires x <= 0x0F && y <= 0x0F && PlaneOf(x, 0) == PlaneOf(y, 0) && PlaneOf(x, 1) == PlaneOf(y, 1)
    requires PlaneOf(x, 2) == PlaneOf(y, 2) && PlaneOf(x, 3) == PlaneOf(y, 3)
    ensures x == y
  {
  }

  lemma PlotsSixteen(c: Controls, colour: bv8, value: bv8, k: bv8)
    requires k < 8 && colour <= 0x0F
    ensures Plotted(c, colour, value, k) <= 0x0F
  {
  }

  /** Reading an address and then writing to it plots the pixels that the bit mask
      selects, each in the pen's colour combined with its own, and no other. */
  lemma WritePlots(v: Screen, c: Controls, o: nat, value: bv8, k: bv8)
    requires o < SIZE && k < 8
    ensures ColourAt(Written(Loaded(v, o), c, o, value), o, k) == Plotted(c, ColourAt(v, o, k), value, k)
  {
    hide PixelBit, PlaneOf, Stored, Plotted, ColourAt, Controls.Maps, Written;
    var u := Written(Loaded(v, o), c, o, value);
    var colour := ColourAt(v, o, k);
    PlanesOfPixel(v, o, k, 0);
    PlotsSixteen(c, colour, value, k);
    forall p | 0 <= p < 4
      ensures colour <= 0x0F && ColourAt(u, o, k) <= 0x0F
      ensures PlaneOf(ColourAt(u, o, k), Number(p)) == PlaneOf(Plotted(c, colour, value, k), Number(p))
    {
      PlanesOfPixel(v, o, k, p);
      PlanesOfPixel(u, o, k, p);
      PlotsPlane(c, colour, v.planes[p][o], value, k, p);
      assert Loaded(v, o).latches[p] == v.planes[p][o];
    }
    assert Number(0) == 0 && Number(1) == 1 && Number(2) == 2 && Number(3) == 3;
    SamePlanes(ColourAt(u, o, k), Plotted(c, colour, value, k));
  }

  /** The planes that are cared for and show another bit than the compare colour. */
  function Differs(care: bv8, compare: bv8, colour: bv8): bv8 { (colour ^ compare) & care & 0x0F }

  lemma MatchesPlane(care: bv8, compare: bv8, colour: bv8, latch: bv8, k: bv8, p: bv8)
    requires k < 8 && p < 4 && PlaneOf(colour, p) == PixelBit(latch, k)
    ensures PixelBit(Matches(care, compare, latch, p), k) == 1 - PlaneOf(Differs(care, compare, colour), p)
  {
  }

  lemma FewPlanes(care: bv8, compare: bv8, colour: bv8)
    ensures Differs(care, compare, colour) <= 0x0F
  {
  }

  lemma AllMatch(m0: bv8, m1: bv8, m2: bv8, m3: bv8, differs: bv8, k: bv8)
    requires k < 8
    requires differs <= 0x0F && PixelBit(m0, k) == 1 - PlaneOf(differs, 0) && PixelBit(m1, k) == 1 - PlaneOf(differs, 1)
    requires PixelBit(m2, k) == 1 - PlaneOf(differs, 2) && PixelBit(m3, k) == 1 - PlaneOf(differs, 3)
    ensures PixelBit(AllFour(m0, m1, m2, m3), k) == 1 <==> differs == 0
  {
  }

  /** A read in colour-compare mode marks the pixels whose cared-for planes show
      the colour to compare with. */
  lemma CompareMarks(v: Screen, g: Graphics, s: Sequencer, o: nat, k: bv8)
    requires o < SIZE && k < 8 && g[5] & 8 != 0
    ensures PixelBit(ReadValue(ControlsOf(g, s), Loaded(v, o).latches), k) == 1 <==>
      Differs(g[7], g[2], ColourAt(v, o, k)) == 0
  {
    hide PixelBit, PlaneOf, Matches, ColourAt, Differs, AllFour;
    var l, colour := Loaded(v, o).latches, ColourAt(v, o, k);
    PlanesOfPixel(v, o, k, 0);
    PlanesOfPixel(v, o, k, 1);
    PlanesOfPixel(v, o, k, 2);
    PlanesOfPixel(v, o, k, 3);
    MatchesPlane(g[7], g[2], colour, l[0], k, 0);
    MatchesPlane(g[7], g[2], colour, l[1], k, 1);
    MatchesPlane(g[7], g[2], colour, l[2], k, 2);
    MatchesPlane(g[7], g[2], colour, l[3], k, 3);
    FewPlanes(g[7], g[2], colour);
    AllMatch(Matches(g[7], g[2], l[0], 0), Matches(g[7], g[2], l[1], 1),
             Matches(g[7], g[2], l[2], 2),
             Matches(g[7], g[2], l[3], 3), Differs(g[7], g[2], colour), k);
  }

  /** A read in the other mode shows one plane of every pixel, as the map select says. */
  lemma ReadShows(v: Screen, g: Graphics, s: Sequencer, o: nat, k: bv8)
    requires o < SIZE && k < 8 && g[5] & 8 == 0
    ensures PixelBit(ReadValue(ControlsOf(g, s), Loaded(v, o).latches), k) == PlaneOf(ColourAt(v, o, k), g[4] & 3)
  {
    hide PixelBit, PlaneOf, ColourAt;
    PlanesOfPixel(v, o, k, 0);
    PlanesOfPixel(v, o, k, 1);
    PlanesOfPixel(v, o, k, 2);
    PlanesOfPixel(v, o, k, 3);
    TwoBits(g[4]);
  }

  lemma TwoBits(x: bv8)
    ensures x & 3 == 0 || x & 3 == 1 || x & 3 == 2 || x & 3 == 3
  {
  }

  // ---- The data path ----

  /** Rotation moves every pixel of the data to the right, and round. */
  lemma RotationTurns(value: bv8, turn: bv8, k: bv8)
    requires turn < 8 && k < 8
    ensures PixelBit(Rotated(value, turn), (k + turn) & 7) == PixelBit(value, k)
  {
  }

  /** The logical functions, pixel by pixel: the data itself, and, or, exclusive or. */
  lemma LogicalMeans(source: bv8, latch: bv8, k: bv8)
    requires k < 8
    ensures var s, l := PixelBit(source, k), PixelBit(latch, k);
      && PixelBit(Logical(0, source, latch), k) == s
      && (PixelBit(Logical(1, source, latch), k) == 1 <==> s == 1 && l == 1)
      && (PixelBit(Logical(2, source, latch), k) == 1 <==> s == 1 || l == 1)
      && (PixelBit(Logical(3, source, latch), k) == 1 <==> s != l)
  {
  }

  // ---- A write, bit by bit ----

  predicate Bit(b: bv8, p: bv8)
    requires p < 8
  {
    (b >> p) & 1 == 1
  }

  predicate Lit(b: bv8, k: bv8)
    requires k < 8
  {
    PixelBit(b, k) == 1
  }

  /** The data bit that the rotation brings to pixel k. */
  predicate DataLit(g: Graphics, value: bv8, k: bv8)
    requires k < 8
  {
    Lit(value, (k - g[3]) & 7)
  }

  /** Whether the pen has plane p at pixel k: in mode 0 set/reset where it is enabled and
      the rotated data elsewhere, in mode 2 bit p of the rotated data, in mode 3 set/reset. */
  predicate PenBit(g: Graphics, value: bv8, k: bv8, p: bv8)
    requires k < 8 && p < 4
  {
    if g[5] & 3 == 0 then if Bit(g[1], p) then Bit(g[0], p) else DataLit(g, value, k)
    else if g[5] & 3 == 2 then Bit(value, (p + g[3]) & 7)
    else Bit(g[0], p)
  }

  /** The bit mask selects the pixels to draw; in mode 3 the rotated data selects too. */
  predicate Draws(g: Graphics, value: bv8, k: bv8)
    requires k < 8
  {
    Lit(g[8], k) && (g[5] & 3 == 3 ==> DataLit(g, value, k))
  }

  predicate Combined(g: Graphics, pen: bool, was: bool) {
    var operation := (g[3] >> 3) & 3;
    if operation == 0 then pen else if operation == 1 then pen && was else if operation == 2 then pen || was
    else pen != was
  }

  /** What a write stores in a plane p that is mapped, at pixel k. */
  predicate After(g: Graphics, value: bv8, k: bv8, p: bv8, latch: bool)
    requires k < 8 && p < 4
  {
    if g[5] & 3 == 1 || !Draws(g, value, k) then latch
    else Combined(g, PenBit(g, value, k, p), latch)
  }

  /** Where a pixel comes from. */
  lemma TurnBack(k: bv8, rotate: bv8)
    requires k < 8
    ensures ((((k - rotate) & 7) + (rotate & 7)) & 7) == k
    ensures 7 - ((7 - k - rotate) & 7) == (k + rotate) & 7
  {
  }

  lemma MirrorBit(b: bv8, k: bv8)
    requires k < 8
    ensures Bit(b, k) == Lit(b, 7 - k)
  {
  }

  lemma DataLits(g: Graphics, s: Sequencer, value: bv8, k: bv8)
    requires k < 8
    ensures Lit(Data(ControlsOf(g, s), value), k) == DataLit(g, value, k)
  {
    hide PixelBit, Rotated;
    TurnBack(k, g[3]);
    RotationTurns(value, g[3] & 7, (k - g[3]) & 7);
  }

  lemma DataBits(g: Graphics, s: Sequencer, value: bv8, p: bv8)
    requires p < 8
    ensures Bit(Data(ControlsOf(g, s), value), p) == Bit(value, (p + g[3]) & 7)
  {
    hide PixelBit, Bit, Data;
    TurnBack(p, g[3]);
    MirrorBit(Data(ControlsOf(g, s), value), p);
    DataLits(g, s, value, 7 - p);
    MirrorBit(value, (p + g[3]) & 7);
    Mirrored(p, g[3]);
  }

  lemma Mirrored(p: bv8, rotate: bv8)
    requires p < 8
    ensures (7 - p - rotate) & 7 == 7 - ((p + rotate) & 7)
  {
  }

  lemma OfferedBits(mode: bv8, setReset: bv8, enable: bv8, data: bv8, k: bv8, p: bv8)
    requires k < 8 && p < 4
    ensures Lit(Offered(mode, setReset, enable, data, p), k) ==
      if mode == 0 then (if Bit(enable, p) then Bit(setReset, p) else Lit(data, k))
      else if mode == 2 then Bit(data, p) else Bit(setReset, p)
  {
  }

  lemma MaskedBits(latch: bv8, drawn: bv8, mask: bv8, k: bv8)
    requires k < 8
    ensures Lit(Masked(latch, drawn, mask), k) == if Lit(mask, k) then Lit(drawn, k) else Lit(latch, k)
  {
  }

  lemma BothBits(a: bv8, b: bv8, k: bv8)
    requires k < 8
    ensures Lit(a & b, k) == (Lit(a, k) && Lit(b, k))
  {
  }

  lemma PenIsOffered(g: Graphics, s: Sequencer, value: bv8, k: bv8, p: bv8)
    requires k < 8 && p < 4 && g[5] & 3 != 1
    ensures var c := ControlsOf(g, s);
      Lit(Offered(c.WriteMode(), c.setReset, c.enable, Data(c, value), p), k) == PenBit(g, value, k, p)
  {
    hide PixelBit, Offered, Data, Bit, DataLit;
    var c := ControlsOf(g, s);
    DataLits(g, s, value, k);
    DataBits(g, s, value, p);
    OfferedBits(c.WriteMode(), c.setReset, c.enable, Data(c, value), k, p);
  }

  lemma LogicalIsCombined(g: Graphics, s: Sequencer, source: bv8, latch: bv8, k: bv8)
    requires k < 8
    ensures Lit(Logical(Operation(ControlsOf(g, s)), source, latch), k) == Combined(g, Lit(source, k), Lit(latch, k))
  {
    hide PixelBit;
    LogicalMeans(source, latch, k);
    TwoBits(g[3] >> 3);
    OneOrNone(source, k);
    OneOrNone(latch, k);
  }

  lemma MaskDraws(g: Graphics, s: Sequencer, value: bv8, k: bv8)
    requires k < 8
    ensures Lit(WriteMask(ControlsOf(g, s), value), k) == Draws(g, value, k)
  {
    hide PixelBit, Data, DataLit;
    DataLits(g, s, value, k);
    BothBits(g[8], Data(ControlsOf(g, s), value), k);
  }

  lemma StoredBits(g: Graphics, s: Sequencer, p: nat, latch: bv8, value: bv8, k: bv8)
    requires k < 8 && p < 4 && g[5] & 3 != 1
    ensures Lit(Stored(ControlsOf(g, s), p, latch, value), k) ==
      if Draws(g, value, k) then Combined(g, PenBit(g, value, k, Number(p)), Lit(latch, k)) else Lit(latch, k)
  {
    hide Lit, Offered, Logical, Masked, Data, Number, Draws, Combined, PenBit, Operation, WriteMask;
    var c := ControlsOf(g, s);
    var offered := Offered(c.WriteMode(), c.setReset, c.enable, Data(c, value), Number(p));
    PenIsOffered(g, s, value, k, Number(p));
    LogicalIsCombined(g, s, offered, latch, k);
    MaskedBits(latch, Logical(Operation(c), offered, latch), WriteMask(c, value), k);
    MaskDraws(g, s, value, k);
  }

  lemma OneOrNone(b: bv8, k: bv8)
    requires k < 8
    ensures PixelBit(b, k) == 0 || PixelBit(b, k) == 1
  {
  }

  lemma MapsBit(c: Controls, p: nat)
    requires p < 4
    ensures c.Maps(p) == Bit(c.mapMask, Number(p))
  {
  }

  /** Every plane of every pixel after a write, whatever the latches hold; no other address
      changes. */
  lemma WriteMeans(v: Screen, g: Graphics, s: Sequencer, o: nat, value: bv8, k: bv8, p: nat, o': nat)
    requires o < SIZE && k < 8 && p < 4 && o' < SIZE
    ensures var r := Written(v, ControlsOf(g, s), o, value);
      Lit(r.planes[p][o'], k) ==
      if o' == o && Bit(s[2], Number(p)) then After(g, value, k, Number(p), Lit(v.latches[p], k))
      else Lit(v.planes[p][o'], k)
  {
    hide PixelBit, Stored, Controls.Maps, Bit, Draws, Combined, PenBit, Number;
    var c := ControlsOf(g, s);
    MapsBit(c, p);
    if g[5] & 3 == 1 {
      KeepsLatch(c, p, v.latches[p], value);
    } else {
      StoredBits(g, s, p, v.latches[p], value, k);
    }
  }

  lemma KeepsLatch(c: Controls, p: nat, latch: bv8, value: bv8)
    requires p < 4 && c.WriteMode() == 1
    ensures Stored(c, p, latch, value) == latch
  {
  }
}
