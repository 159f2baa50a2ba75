/** The graphics framebuffer of the video adapter (`video.py`): planes, latches and
    packed memory changed in place. Trace counters and the dirty flag are left out. */
module VideoAdapter {
  import opened Bytes
  import opened PlanarMemory
  import opened PlanarPixels

  class Video {
    var graphicsMode: bool
    var planar: bool
    var width: nat
    var height: nat
    var gdc: seq<bv8>
    var sequencer: seq<bv8>
    const planes: array2<bv8>
    const latches: array<bv8>
    const vram: array<bv8>

    /** The frame of the mode lies in the 64 KiB window, in whole plane bytes. */
    ghost predicate Valid()
      reads this
    {
      && planes.Length0 == 4 && planes.Length1 == SIZE && latches.Length == 4 && vram.Length == SIZE && latches != vram
      && |gdc| >= 9 && |sequencer| >= 5
      && (planar ==> width % 8 == 0 && width / 8 * height <= SIZE)
      && (!planar ==> width * height <= SIZE)
    }

    ghost function Row(p: nat): (r: Plane)
      reads this, planes
      requires planes.Length0 == 4 && planes.Length1 == SIZE && p < 4
      ensures forall o :: 0 <= o < SIZE ==> r[o] == planes[p, o]
    {
      seq(SIZE, o requires 0 <= o < SIZE reads this, planes => planes[p, o])
    }

    ghost function View(): (v: Screen)
      reads this, planes, latches
      requires Valid()
      ensures forall p :: 0 <= p < 4 ==> v.planes[p] == Row(p) && v.latches[p] == latches[p]
    {
      Vram([Row(0), Row(1), Row(2), Row(3)], latches[..])
    }

    function Registers(): Controls
      reads this
      requires |gdc| >= 9 && |sequencer| >= 5
    {
      ControlsOf(gdc, sequencer)
    }

    constructor (gdc: seq<bv8>, sequencer: seq<bv8>)
      requires |gdc| >= 9 && |sequencer| >= 5
      ensures Valid() && !graphicsMode && fresh(planes) && fresh(latches) && fresh(vram)
      ensures this.gdc == gdc && this.sequencer == sequencer
    {
      graphicsMode, planar, width, height := false, false, 0, 0;
      this.gdc, this.sequencer := gdc, sequencer;
      planes := new bv8[4, SIZE];
      latches := new bv8[4];
      vram := new bv8[SIZE];
    }

    method LoadLatches(o: nat)
      requires Valid() && o < SIZE
      modifies latches
      ensures View() == Loaded(old(View()), o)
    {
      ghost var v := View();
      for p := 0 to 4
        invariant forall q :: 0 <= q < 4 ==> latches[q] == if q < p then planes[q, o] else v.latches[q]
      {
        latches[p] := planes[p, o];
      }
      assert latches[..] == Loaded(v, o).latches;
    }

    /** `graphics_read` */
    method Read(offset: int) returns (value: bv8)
      requires Valid()
      modifies latches
      ensures planar ==> View() == Loaded(old(View()), offset % SIZE) && value == ReadValue(Registers(), View().latches)
      ensures !planar ==> View() == old(View()) && value == vram[offset % SIZE]
    {
      hide ReadValue;
      var o := offset % SIZE;
      if !planar {
        return vram[o];
      }
      LoadLatches(o);
      value := ReadValue(Registers(), latches[..]);
    }

    method StoreByte(p: nat, o: nat, b: bv8)
      requires planes.Length0 == 4 && planes.Length1 == SIZE && p < 4 && o < SIZE
      modifies planes
      ensures forall q :: 0 <= q < 4 ==> Row(q) == if q == p then old(Row(p))[o := b] else old(Row(q))
    {
      planes[p, o] := b;
    }

    /** A slice of a plane assigned to another slice of it, if the plane is mapped. */
    method CopyPlane(p: nat, mapped: bool, source: nat, destination: nat, count: nat)
      requires planes.Length0 == 4 && planes.Length1 == SIZE && p < 4
      requires source + count <= SIZE && destination + count <= SIZE
      modifies planes
      ensures forall q :: 0 <= q < 4 ==>
        Row(q) == if q == p then CopiedPlane(old(Row(p)), mapped, source, destination, count) else old(Row(q))
    {
      ghost var was := Row(p);
      if mapped {
        AssignStretch(p, source, destination, count);
        assert Row(p) == Spliced(was, destination, was[source..source + count]);
      }
    }

    method AssignStretch(p: nat, source: nat, destination: nat, count: nat)
      requires planes.Length0 == 4 && planes.Length1 == SIZE && p < 4
      requires source + count <= SIZE && destination + count <= SIZE
      modifies planes
      ensures forall q, o :: 0 <= q < 4 && 0 <= o < SIZE ==>
        planes[q, o]
          == old(if q == p && destination <= o < destination + count then planes[p, source + (o - destination)]
                 else planes[q, o])
      ensures forall q :: 0 <= q < 4 && q != p ==> Row(q) == old(Row(q))
    {
      forall i | destination <= i < destination + count {
        planes[p, i] := planes[p, source + (i - destination)];
      }
    }

    method FillPlane(p: nat, b: bv8, destination: nat, count: nat)
      requires planes.Length0 == 4 && planes.Length1 == SIZE && p < 4 && destination + count <= SIZE
      modifies planes
      ensures forall q :: 0 <= q < 4 ==>
        Row(q) == if q == p then Spliced(old(Row(p)), destination, seq(count, _ => b)) else old(Row(q))
    {
      hide Spliced;
      forall i | destination <= i < destination + count {
        planes[p, i] := b;
      }
    }

    /** `graphics_write` */
    method Write(offset: int, value: bv8)
      requires Valid()
      modifies planes, vram
      ensures planar ==> View() == Written(old(View()), Registers(), offset % SIZE, value) && vram[..] == old(vram[..])
      ensures !planar ==> View() == old(View()) && vram[..] == old(vram[..])[offset % SIZE := value]
    {
      hide Video.View, Video.Row, Stored, Controls.Maps, Written;
      ghost var v := View();
      var o := offset % SIZE;
      if !planar {
        vram[o] := value;
        return;
      }
      var c := Registers();
      ghost var w := Written(v, c, o, value);
      for p := 0 to 4
        modifies planes
        invariant forall q :: 0 <= q < 4 ==> Row(q) == if q < p then w.planes[q] else v.planes[q]
      {
        if c.Maps(p) {
          StoreByte(p, o, Stored(c, p, latches[p], value));
        }
      }
      SameView(w);
    }

    lemma SameView(w: Screen)
      requires Valid() && w.latches == latches[..] && forall q :: 0 <= q < 4 ==> Row(q) == w.planes[q]
      ensures View() == w
    {
    }

    /** `graphics_copy_mode1`: false unless it applies, and then nothing changes;
        true when it did what the byte moves do. */
    method CopyMode1(source: int, destination: int, count: int) returns (done: bool)
      requires Valid()
      modifies planes, latches
      ensures done <==> (planar && gdc[5] & 3 == 1 && count > 0 && source >= 0 && destination >= 0
        && source + count <= SIZE && destination + count <= SIZE && !(source < destination < source + count))
      ensures View() == if done then Moves(old(View()), Registers(), source, destination, count) else old(View())
    {
      hide Video.View, Video.Row, Controls.Maps, Moves, Copied;
      ghost var v := View();
      var c := Registers();
      if !planar || c.WriteMode() != 1 || count <= 0 || source < 0 || destination < 0
        || source + count > SIZE || destination + count > SIZE {
        return false;
      }
      if source < destination < source + count {
        return false;
      }
      CopyPlanes(source, destination, count);
      LoadLatches(source + count - 1);
      CopyIsMoves(v, c, source, destination, count);
      done := true;
    }

    method CopyPlanes(source: nat, destination: nat, count: nat)
      requires Valid() && 0 < count && source + count <= SIZE && destination + count <= SIZE
      modifies planes
      ensures View() == Copied(old(View()), Registers(), source, destination, count).(latches := latches[..])
    {
      hide Video.View, Video.Row, Controls.Maps, Copied, CopiedPlane;
      ghost var v := View();
      var c := Registers();
      ghost var w := Copied(v, c, source, destination, count);
      for p := 0 to 4
        invariant forall q :: 0 <= q < 4 ==> Row(q) == if q < p then w.planes[q] else v.planes[q]
      {
        CopyPlane(p, c.Maps(p), source, destination, count);
      }
      SameView(w.(latches := latches[..]));
    }

    /** `graphics_fill_mode1`: likewise for stores, whatever bytes are stored. */
    method FillMode1(destination: int, count: int) returns (done: bool)
      requires Valid()
      modifies planes
      ensures done <==>
        planar && gdc[5] & 3 == 1 && count > 0 && destination >= 0 && destination + count <= SIZE
      ensures if done
        then forall data :: |data| == count ==> View() == Stores(old(View()), Registers(), destination, data)
              else View() == old(View())
    {
      hide Video.View, Video.Row, Controls.Maps, Stores, Filled, Spliced;
      ghost var v := View();
      var c := Registers();
      if !planar || c.WriteMode() != 1 || count <= 0 || destination < 0 || destination + count > SIZE {
        return false;
      }
      ghost var w := Filled(v, c, destination, count);
      for p := 0 to 4
        modifies planes
        invariant forall q :: 0 <= q < 4 ==> Row(q) == if q < p then w.planes[q] else v.planes[q]
      {
        if c.Maps(p) {
          FillPlane(p, latches[p], destination, count);
        }
      }
      SameView(w);
      forall data: seq<bv8> | |data| == count
        ensures w == Stores(v, c, destination, data)
      {
        FillIsStores(v, c, destination, data);
      }
      done := true;
    }

    /** `graphics_pixel` */
    function Pixel(x: int, y: int): (r: bv8)
      reads this, planes, vram
      requires Valid()
      ensures !graphicsMode || x < 0 || y < 0 || x >= width || y >= height ==> r == 0
    {
      if !graphicsMode || !(0 <= x < width && 0 <= y < height) then 0
      else if !planar then
        InFrame(width, height, x, y);
        vram[y * width + x]
      else
        var o := RowOffset(width, height, x, y);
        Colour(planes[0, o], planes[1, o], planes[2, o], planes[3, o], Column(x))
    }

    /** `graphics_pixels`: the whole frame, eight planar pixels at a time. */
    method Pixels() returns (frame: Option<array<bv8>>)
      requires Valid()
      ensures frame.Some? <==> graphicsMode
      ensures frame.Some? ==> fresh(frame.value) && frame.value.Length == width * height
      ensures frame.Some? ==> forall x, y :: 0 <= x < width && 0 <= y < height ==> Shows(frame.value, x, y)
    {
      if !graphicsMode {
        return None;
      }
      var pixels := new bv8[width * height];
      frame := Some(pixels);
      if !planar {
        forall i | 0 <= i < width * height {
          pixels[i] := vram[i];
        }
      } else {
        ExpandPlanes(pixels);
      }
      FrameShows(pixels);
    }

    lemma FrameShows(frame: array<bv8>)
      requires Valid() && graphicsMode && frame.Length == width * height
      requires planar ==> Expanded(frame, Start(width / 8, height))
      requires !planar ==> forall i :: 0 <= i < frame.Length ==> frame[i] == vram[i]
      ensures forall x, y :: 0 <= x < width && 0 <= y < height ==> Shows(frame, x, y)
    {
      hide Colour, Column;
      forall x, y | 0 <= x < width && 0 <= y < height
        ensures Shows(frame, x, y)
      {
        InFrame(width, height, x, y);
        if planar {
          InRow(width, height, x, y);
          SplitIndex(width, x, y);
        }
      }
    }

    /** The first n plane bytes are expanded. */
    ghost predicate Expanded(pixels: array<bv8>, n: nat)
      reads this, planes, pixels
      requires Valid()
    {
      forall i :: 0 <= i < pixels.Length && i / 8 < n ==> i / 8 < SIZE && pixels[i] == Eighth(i)
    }

    /** Eight pixels of every plane byte into one 64-bit word of the frame. */
    method ExpandPlanes(pixels: array<bv8>)
      requires Valid() && planar && pixels.Length == width * height && pixels != latches && pixels != vram
      modifies pixels
      ensures Expanded(pixels, Start(width / 8, height))
    {
      hide Video.Expanded, Start;
      FrameBytes(width, height);
      var rowBytes := width / 8;
      NothingExpanded(pixels);
      var out := 0;
      for y := 0 to height
        invariant out == Start(rowBytes, y) && Expanded(pixels, out)
      {
        var start := Start(rowBytes, y);
        NextStart(rowBytes, height, y);
        for column := 0 to rowBytes
          invariant out == start + column && Expanded(pixels, out)
        {
          ExpandByte(pixels, out);
          out := out + 1;
        }
      }
    }

    lemma NothingExpanded(pixels: array<bv8>)
      requires Valid()
      ensures Expanded(pixels, 0)
    {
    }

    method ExpandByte(pixels: array<bv8>, out: nat)
      requires Valid() && pixels != latches && pixels != vram && out < SIZE && 8 * out + 8 <= pixels.Length
      requires Expanded(pixels, out)
      modifies pixels
      ensures Expanded(pixels, out + 1)
    {
      hide LaneByte, Word, Colour, Column;
      var b0, b1, b2, b3 := planes[0, out], planes[1, out], planes[2, out], planes[3, out];
      StoreWord(pixels, out, Word(b0, b1, b2, b3));
      forall i | 0 <= i < pixels.Length && i / 8 == out
        ensures pixels[i] == Eighth(i)
      {
        LanesHoldPixels(b0, b1, b2, b3, Column(i));
      }
    }

    static method StoreWord(pixels: array<bv8>, out: nat, w: bv64)
      requires 8 * out + 8 <= pixels.Length
      modifies pixels
      ensures forall i :: 0 <= i < pixels.Length ==>
        pixels[i] == if i / 8 == out then LaneByte(w, Column(i)) else old(pixels[i])
    {
      hide LaneByte;
      for k := 0 to 8
        invariant forall i :: 0 <= i < pixels.Length ==>
          pixels[i] == if 8 * out <= i < 8 * out + k then LaneByte(w, Column(i)) else old(pixels[i])
      {
        pixels[8 * out + k] := LaneByte(w, Column(k));
      }
    }

    ghost predicate Shows(frame: array<bv8>, x: nat, y: nat)
      reads this, planes, vram, frame
      requires Valid() && x < width && y < height && frame.Length == width * height
    {
      InFrame(width, height, x, y);
      frame[y * width + x] == Pixel(x, y)
    }

    /** Pixel i of the planes, without regard to rows. */
    function Eighth(i: nat): bv8
      reads this, planes
      requires Valid() && i / 8 < SIZE
    {
      var o := i / 8;
      Colour(planes[0, o], planes[1, o], planes[2, o], planes[3, o], Column(i))
    }
  }

  /** The bit of a plane byte that shows column x. */
  function Column(x: nat): (k: bv8)
    ensures k < 8 && k as nat == x % 8
  {
    var r := x % 8;
    if r == 0 then 0 else if r == 1 then 1 else if r == 2 then 2 else if r == 3 then 3
    else if r == 4 then 4 else if r == 5 then 5 else if r == 6 then 6 else 7
  }

  lemma InFrame(width: nat, height: nat, x: nat, y: nat)
    requires x < width && y < height
    ensures y * width + x < width * height
  {
    assert y * width + width == (y + 1) * width;
    MulLe(y + 1, height, width);
  }

  lemma InRow(width: nat, height: nat, x: nat, y: nat)
    requires x < width && y < height && width % 8 == 0
    ensures y * (width / 8) + x / 8 < width / 8 * height
  {
    InFrame(width / 8, height, x / 8, y);
  }

  /** The plane byte that holds a pixel. */
  function RowOffset(width: nat, height: nat, x: nat, y: nat): (o: nat)
    requires x < width && y < height && width % 8 == 0
    ensures o < width / 8 * height
  {
    InRow(width, height, x, y);
    y * (width / 8) + x / 8
  }

  /** The index of the first plane byte of row y. */
  function Start(rowBytes: nat, y: nat): nat { y * rowBytes }

  lemma NextStart(rowBytes: nat, height: nat, y: nat)
    requires y < height
    ensures Start(rowBytes, y + 1) == Start(rowBytes, y) + rowBytes <= Start(rowBytes, height)
  {
    MulLe(y + 1, height, rowBytes);
  }

  lemma FrameBytes(width: nat, height: nat)
    requires width % 8 == 0
    ensures Start(width / 8, 0) == 0 && Start(width / 8, height) == width / 8 * height
    ensures 8 * Start(width / 8, height) == width * height
  {
    var r := width / 8;
    assert width == 8 * r;
  }

  lemma SplitIndex(width: nat, x: nat, y: nat)
    requires width % 8 == 0
    ensures (y * width + x) / 8 == y * (width / 8) + x / 8 && Column(y * width + x) == Column(x)
  {
    hide Column;
    var i, r := y * width + x, width / 8;
    assert y * width == 8 * (y * r);
    DivModUnique(i, 8, y * r + x / 8, x % 8);
    ColumnOf(i, x);
  }

  lemma ColumnOf(i: nat, x: nat)
    requires i % 8 == x % 8
    ensures Column(i) == Column(x)
  {
  }
}
