/** Sector transfers of the BIOS disk service (`bios.py`, INT 13h functions 02h, 03h
    and 08h): addressing by cylinder, head and sector, and what a write followed by
    a read gives back. */
module DiskService {
  import opened Bytes
  import opened Disks
  import opened Segments

  // ---- Addressing ----

  datatype Geometry = Geometry(sectors: nat, maxCylinder: nat, maxHead: nat)

  /** AL, CH, CL and DH of a request. */
  datatype Request = Request(al: byte, ch: byte, cl: byte, dh: byte) {
    function Sector(): nat { cl % 0x40 }

    function Cylinder(): nat { ch + cl / 0x40 * 0x100 }

    predicate InRange(g: Geometry) {
      al != 0 && 1 <= Sector() <= g.sectors && dh <= g.maxHead && Cylinder() <= g.maxCylinder
    }
  }

  /** `_chs_to_lba`: the first sector and the count, or None out of range. */
  function Lba(g: Geometry, r: Request): Option<(nat, nat)> {
    if r.al == 0 || r.Sector() == 0 || r.Sector() > g.sectors || r.dh > g.maxHead || r.Cylinder() > g.maxCylinder
    then None
    else
      NatTimes(r.Cylinder(), g.maxHead + 1);
      NatTimes(r.Cylinder() * (g.maxHead + 1) + r.dh, g.sectors);
      Some(((r.Cylinder() * (g.maxHead + 1) + r.dh) * g.sectors + (r.Sector() - 1), r.al as nat))
  }

  function Size(g: Geometry): int { (g.maxCylinder + 1) * (g.maxHead + 1) * g.sectors }

  lemma MulLess(a: nat, b: nat, m: nat, r: nat)
    requires a < b && r < m
    ensures a * m + r < b * m
  {
    MulGrows(m, b - a);
    assert b * m == a * m + m * (b - a);
  }

  /** A request in range names a sector of the geometry, and from it the sector,
      head and cylinder can be told again: no two requests share one. */
  lemma LbaNamesOne(g: Geometry, r: Request)
    requires r.InRange(g)
    ensures Lba(g, r).Some?
    ensures var lba, heads := Lba(g, r).value.0, g.maxHead + 1;
      && lba < Size(g) && lba % g.sectors + 1 == r.Sector()
      && lba / g.sectors % heads == r.dh && lba / g.sectors / heads == r.Cylinder()
  {
    PartsOf(r.Cylinder(), r.dh, r.Sector() - 1, g.maxCylinder + 1, g.maxHead + 1, g.sectors);
  }

  /** Sector s of head h of cylinder c, as a number in mixed radix. */
  lemma PartsOf(c: nat, h: nat, s: nat, cylinders: nat, heads: nat, sectors: nat)
    requires c < cylinders && h < heads && s < sectors
    ensures var n := (c * heads + h) * sectors + s;
      && n < cylinders * heads * sectors && n % sectors == s && n / sectors % heads == h && n / sectors / heads == c
  {
    var track := c * heads + h;
    MulLess(c, cylinders, heads, h);
    MulLess(track, cylinders * heads, sectors, s);
    DivModUnique(track * sectors + s, sectors, track, s);
    DivModUnique(track, heads, c, h);
  }

  lemma LbaInjective(g: Geometry, r: Request, r': Request)
    requires r.InRange(g) && r'.InRange(g) && Lba(g, r).value.0 == Lba(g, r').value.0
    ensures r.Cylinder() == r'.Cylinder() && r.dh == r'.dh && r.Sector() == r'.Sector()
    ensures r.ch == r'.ch && r.cl == r'.cl
  {
    hide Lba;
    LbaNamesOne(g, r);
    LbaNamesOne(g, r');
    RegistersOf(r);
    RegistersOf(r');
  }

  lemma RegistersOf(r: Request)
    ensures r.ch == r.Cylinder() % 0x100 && r.cl == r.Cylinder() / 0x100 * 0x40 + r.Sector()
  {
    DivModUnique(r.Cylinder(), 0x100, r.cl / 0x40, r.ch);
  }

  /** CH and CL as function 08h returns them. */
  function Parameters(g: Geometry): (byte, byte) {
    (g.maxCylinder % 0x100, g.sectors % 0x40 + g.maxCylinder / 4 % 0x100 / 0x40 * 0x40)
  }

  /** On a geometry that fits the registers the returned parameters address the very
      last sector. */
  lemma ParametersNameLast(g: Geometry, al: byte)
    requires 1 <= g.sectors < 0x40 && g.maxCylinder < 0x400 && g.maxHead < 0x100 && al != 0
    ensures var r := Request(al, Parameters(g).0, Parameters(g).1, g.maxHead);
      r.InRange(g) && r.Sector() == g.sectors && r.Cylinder() == g.maxCylinder && Lba(g, r).value.0 == Size(g) - 1
  {
    CylinderBits(g.maxCylinder);
    var r := Request(al, Parameters(g).0, Parameters(g).1, g.maxHead);
    DivModUnique(r.cl, 0x40, g.maxCylinder / 0x100, g.sectors);
    LastSector(g.maxCylinder, g.maxHead, g.sectors);
  }

  lemma CylinderBits(c: nat)
    requires c < 0x400
    ensures c / 4 % 0x100 / 0x40 == c / 0x100
  {
  }

  lemma LastSector(c: nat, h: nat, s: nat)
    ensures (c * (h + 1) + h) * s + s - 1 == (c + 1) * (h + 1) * s - 1
  {
    assert (c + 1) * (h + 1) == c * (h + 1) + h + 1;
    var tracks := c * (h + 1) + h;
    assert (tracks + 1) * s == tracks * s + s;
  }

  // ---- Transfers ----

  /** Memory after n sectors have been read into it. */
  function ReadIn(m: Memory, img: Image, lba: nat, n: nat, es: word, bx: word): (r: Memory)
    requires |m| >= MIB && lba + n <= |img|
    ensures |r| == |m|
  {
    if n == 0 then m
    else Stored(ReadIn(m, img, lba, n - 1, es, bx), es, Wrap(bx + (n - 1) * SECTOR), img[lba + n - 1])
  }

  /** The image after n sectors of memory have been written to it. */
  function WrittenOut(img: Image, m: Memory, lba: nat, n: nat, es: word, bx: word): (r: Image)
    requires |m| >= MIB && lba + n <= |img|
    ensures |r| == |img|
  {
    if n == 0 then img
    else WrittenOut(img, m, lba, n - 1, es, bx)[lba + n - 1 := Fetched(m, es, Wrap(bx + (n - 1) * SECTOR), SECTOR)]
  }

  /** How many sectors of a transfer exist: those before the first that does not. */
  function Existing(img: Image, lba: nat, count: nat): (n: nat)
    ensures n <= count && (n > 0 ==> lba + n <= |img|) && (n < count ==> lba + n >= |img|)
  {
    if lba + count <= |img| then count else if lba <= |img| then |img| - lba else 0
  }

  /** Only the sectors that are addressed change, and each gets its stretch of
      memory. */
  lemma {:induction false} WrittenSectors(img: Image, m: Memory, lba: nat, n: nat, es: word, bx: word, s: nat)
    requires |m| >= MIB && lba + n <= |img| && s < |img|
    ensures WrittenOut(img, m, lba, n, es, bx)[s]
      == if lba <= s < lba + n then Fetched(m, es, Wrap(bx + (s - lba) * SECTOR), SECTOR) else img[s]
  {
    hide Wrap, Fetched;
    if n > 0 {
      WrittenSectors(img, m, lba, n - 1, es, bx, s);
    }
  }

  /** The address of byte i of a transfer: every sector is copied on its own. */
  function BufferAddress(size: nat, es: word, bx: word, i: nat): (a: nat)
    requires size >= MIB
    ensures a < size
  {
    Address(size, es, Wrap(bx + i / SECTOR * SECTOR), i % SECTOR)
  }

  /** It wraps like a byte address, and in a memory of 1 MiB it is one. */
  lemma BufferWraps(size: nat, es: word, bx: word, i: nat)
    requires size >= MIB
    ensures BufferAddress(size, es, bx, i) % MIB == ByteAddress(es, bx, i)
    ensures size == MIB ==> BufferAddress(size, es, bx, i) == ByteAddress(es, bx, i)
  {
    hide Address, Physical, Wrap;
    AddressWraps(size, es, Wrap(bx + i / SECTOR * SECTOR), i % SECTOR);
    WrapAgain(bx + i / SECTOR * SECTOR, i % SECTOR);
    if size == MIB {
      SmallModulo(BufferAddress(size, es, bx, i));
    }
  }

  lemma SectorByte(size: nat, es: word, bx: word, s: nat, j: nat)
    requires size >= MIB && j < SECTOR
    ensures BufferAddress(size, es, bx, s * SECTOR + j) == Address(size, es, Wrap(bx + s * SECTOR), j)
  {
    DivModUnique(s * SECTOR + j, SECTOR, s, j);
  }

  lemma BufferAddressesDiffer(size: nat, es: word, bx: word, i: nat, j: nat)
    requires size >= MIB && i < j < i + SEGMENT
    ensures BufferAddress(size, es, bx, i) != BufferAddress(size, es, bx, j)
  {
    hide BufferAddress, ByteAddress;
    BufferWraps(size, es, bx, i);
    BufferWraps(size, es, bx, j);
    AddressesDiffer(es, bx, i, j);
  }

  /** Reading brings byte i of the sectors to byte i of the buffer, */
  lemma {:induction false} ReadInByte(m: Memory, img: Image, lba: nat, n: nat, es: word, bx: word, i: nat)
    requires |m| >= MIB && lba + n <= |img| && WholeSectors(img) && n * SECTOR <= SEGMENT && i < n * SECTOR
    ensures i / SECTOR < n
    ensures ReadIn(m, img, lba, n, es, bx)[BufferAddress(|m|, es, bx, i)] == img[lba + i / SECTOR][i % SECTOR]
  {
    hide BufferAddress, Address, Wrap;
    var last, before := (n - 1) * SECTOR, ReadIn(m, img, lba, n - 1, es, bx);
    var offset, data := Wrap(bx + last), img[lba + n - 1];
    if i >= last {
      DivModUnique(i, SECTOR, n - 1, i - last);
      SectorByte(|m|, es, bx, n - 1, i - last);
      StoredAt(before, es, offset, data, i - last);
    } else {
      ReadInByte(m, img, lba, n - 1, es, bx, i);
      forall j | 0 <= j < SECTOR
        ensures Address(|m|, es, offset, j) != BufferAddress(|m|, es, bx, i)
      {
        SectorByte(|m|, es, bx, n - 1, j);
        BufferAddressesDiffer(|m|, es, bx, i, last + j);
      }
      StoredElsewhere(before, es, offset, data, BufferAddress(|m|, es, bx, i));
    }
  }

  /** and leaves the memory outside the buffer alone. */
  lemma {:induction false} ReadInElsewhere(m: Memory, img: Image, lba: nat, n: nat, es: word, bx: word, x: nat)
    requires |m| >= MIB && lba + n <= |img| && WholeSectors(img) && x < |m|
    requires forall i :: 0 <= i < n * SECTOR ==> BufferAddress(|m|, es, bx, i) != x
    ensures ReadIn(m, img, lba, n, es, bx)[x] == m[x]
  {
    hide BufferAddress, Address, Wrap;
    if n > 0 {
      ReadInElsewhere(m, img, lba, n - 1, es, bx, x);
      var offset := Wrap(bx + (n - 1) * SECTOR);
      forall j | 0 <= j < SECTOR
        ensures Address(|m|, es, offset, j) != x
      {
        SectorByte(|m|, es, bx, n - 1, j);
      }
      StoredElsewhere(ReadIn(m, img, lba, n - 1, es, bx), es, offset, img[lba + n - 1], x);
    }
  }

  lemma WrittenWhole(img: Image, m: Memory, lba: nat, n: nat, es: word, bx: word)
    requires |m| >= MIB && lba + n <= |img| && WholeSectors(img)
    ensures WholeSectors(WrittenOut(img, m, lba, n, es, bx))
  {
  }

  /** Writing a buffer of up to 64 KiB and reading the sectors back, to the same or
      another buffer, gives the same bytes. */
  lemma WriteThenRead(img: Image, m: Memory, es: word, bx: word, m': Memory, es': word, bx': word,
                      lba: nat, n: nat, i: nat)
    requires |m| >= MIB && |m'| >= MIB && lba + n <= |img|
    requires WholeSectors(img) && n * SECTOR <= SEGMENT && i < n * SECTOR
    ensures ReadIn(m', WrittenOut(img, m, lba, n, es, bx), lba, n, es', bx')[BufferAddress(|m'|, es', bx', i)]
      == m[BufferAddress(|m|, es, bx, i)]
  {
    hide Address, Wrap, ReadIn, WrittenOut;
    WrittenWhole(img, m, lba, n, es, bx);
    ReadInByte(m', WrittenOut(img, m, lba, n, es, bx), lba, n, es', bx', i);
    WrittenSectors(img, m, lba, n, es, bx, lba + i / SECTOR);
  }

  // ---- The service ----

  class DiskBios {
    const memory: SegmentMemory
    const disk: Disk?
    const geometry: Geometry

    constructor (memory: SegmentMemory, disk: Disk?, geometry: Geometry)
      ensures this.memory == memory && this.disk == disk && this.geometry == geometry
    {
      this.memory, this.disk, this.geometry := memory, disk, geometry;
    }

    /** Function 02h: AX and the carry flag. A missing sector stops the transfer
        after the sectors before it. */
    method ReadSectors(ax: word, r: Request, es: word, bx: word) returns (newAx: word, cf: bool)
      requires memory.ram.Length >= MIB && ax % 0x100 == r.al && (disk != null ==> disk.Valid())
      modifies memory.ram
      ensures disk == null ==> (newAx, cf) == (0x100 + r.al, true)
      ensures disk != null && !r.InRange(geometry) ==> (newAx, cf) == (0x400, true)
      ensures disk == null || !r.InRange(geometry) ==> memory.ram[..] == old(memory.ram[..])
      ensures disk != null && r.InRange(geometry) ==>
        var (lba, count) := Lba(geometry, r).value;
        var n := Existing(disk.sectors, lba, count);
        && (newAx, cf) == (if n == count then (count, false) else (4, true))
        && (n > 0 ==> lba + n <= |disk.sectors|)
        && memory.ram[..]
          == if n == 0 then old(memory.ram[..]) else ReadIn(old(memory.ram[..]), disk.sectors, lba, n, es, bx)
    {
      hide ReadIn, Fetched, Stored, Wrap;
      if disk == null {
        return 0x100 + r.al, true;
      }
      var at := Lba(geometry, r);
      if at.None? {
        return 0x400, true;
      }
      var (lba, count) := at.value;
      var n := ReadRun(lba, count, es, bx);
      if n < count {
        return 4, true;
      }
      return count, false;
    }

    /** Its loop; the number of sectors that were there. */
    method ReadRun(lba: nat, count: nat, es: word, bx: word) returns (n: nat)
      requires memory.ram.Length >= MIB && disk != null && disk.Valid()
      modifies memory.ram
      ensures n == Existing(disk.sectors, lba, count) && (n > 0 ==> lba + n <= |disk.sectors|)
      ensures memory.ram[..]
        == if n == 0 then old(memory.ram[..]) else ReadIn(old(memory.ram[..]), disk.sectors, lba, n, es, bx)
    {
      hide Fetched, Stored, Wrap;
      ghost var m := memory.ram[..];
      n := 0;
      while n < count
        invariant n <= count && (n > 0 ==> lba + n <= |disk.sectors|)
        invariant memory.ram[..] == if n == 0 then m else ReadIn(m, disk.sectors, lba, n, es, bx)
      {
        var ok, buf := disk.ReadSector(lba + n, Zeros(SECTOR));
        if !ok {
          return;
        }
        assert buf == disk.sectors[lba + n];
        memory.WriteBuffer(es, bx + n * SECTOR, buf);
        n := n + 1;
      }
    }

    /** Function 03h, which refuses a write-protected disk. */
    method WriteSectors(ax: word, r: Request, es: word, bx: word) returns (newAx: word, cf: bool)
      requires memory.ram.Length >= MIB && ax % 0x100 == r.al && (disk != null ==> disk.Valid())
      modifies disk
      ensures disk == null ==> (newAx, cf) == (0x100 + r.al, true)
      ensures disk != null ==> disk.Valid() && disk.readOnly == old(disk.readOnly)
      ensures disk != null && disk.readOnly ==> (newAx, cf) == (0x300 + r.al, true)
      ensures disk != null && !disk.readOnly && !r.InRange(geometry) ==> (newAx, cf) == (0x400, true)
      ensures disk != null && (disk.readOnly || !r.InRange(geometry)) ==> disk.sectors == old(disk.sectors)
      ensures disk != null && !disk.readOnly && r.InRange(geometry) ==>
        var (lba, count) := Lba(geometry, r).value;
        var n := Existing(old(disk.sectors), lba, count);
        && (newAx, cf) == (if n == count then (count, false) else (4, true))
        && (n > 0 ==> lba + n <= |old(disk.sectors)|)
        && disk.sectors
          == if n == 0 then old(disk.sectors) else WrittenOut(old(disk.sectors), memory.ram[..], lba, n, es, bx)
    {
      hide WrittenOut, Fetched, Stored, Wrap;
      if disk == null {
        return 0x100 + r.al, true;
      }
      if disk.readOnly {
        return 0x300 + r.al, true;
      }
      var at := Lba(geometry, r);
      if at.None? {
        return 0x400, true;
      }
      var (lba, count) := at.value;
      var n := WriteRun(lba, count, es, bx);
      if n < count {
        return 4, true;
      }
      return count, false;
    }

    method WriteRun(lba: nat, count: nat, es: word, bx: word) returns (n: nat)
      requires memory.ram.Length >= MIB && disk != null && disk.Valid() && !disk.readOnly
      modifies disk
      ensures disk.Valid() && !disk.readOnly
      ensures n == Existing(old(disk.sectors), lba, count) && (n > 0 ==> lba + n <= |old(disk.sectors)|)
      ensures disk.sectors
        == if n == 0 then old(disk.sectors) else WrittenOut(old(disk.sectors), memory.ram[..], lba, n, es, bx)
    {
      hide Fetched, Stored, Wrap;
      ghost var img, m := disk.sectors, memory.ram[..];
      n := 0;
      while n < count
        invariant n <= count && (n > 0 ==> lba + n <= |img|) && disk.Valid()
        invariant !disk.readOnly && |disk.sectors| == |img|
        invariant disk.sectors == if n == 0 then img else WrittenOut(img, m, lba, n, es, bx)
      {
        var buf := memory.ReadBuffer(es, bx + n * SECTOR, SECTOR);
        var ok := disk.WriteSector(lba + n, buf);
        if !ok {
          return;
        }
        assert buf[..SECTOR] == buf;
        n := n + 1;
      }
    }
  }
}
