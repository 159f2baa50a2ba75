/** The sector store of `video.py`: a list of 512-byte sectors changed in place. */
module Disks {
  import opened Bytes

  const SECTOR := 512

  type Image = seq<seq<byte>>

  ghost predicate WholeSectors(img: Image) {
    forall s :: 0 <= s < |img| ==> |img[s]| == SECTOR
  }

  class Disk {
    var sectors: seq<seq<byte>>
    var readOnly: bool
    var dirty: bool

    ghost predicate Valid()
      reads this
    {
      WholeSectors(sectors)
    }

    constructor (numSectors: nat)
      ensures Valid() && !readOnly && !dirty
      ensures sectors == seq(numSectors, _ => Zeros(SECTOR))
    {
      sectors := seq(numSectors, _ => Zeros(SECTOR));
      readOnly := false;
      dirty := false;
    }

    /** Fills the front of `buf`; an out-of-range sector leaves it as it was. */
    method ReadSector(lba: int, buf: seq<byte>) returns (ok: bool, out: seq<byte>)
      requires Valid() && |buf| >= SECTOR
      ensures ok <==> 0 <= lba < |sectors|
      ensures |out| == |buf|
      ensures out == if ok then sectors[lba] + buf[SECTOR..] else buf
    {
      if !(0 <= lba < |sectors|) {
        return false, buf;
      }
      return true, sectors[lba] + buf[SECTOR..];
    }

    method WriteSector(lba: int, buf: seq<byte>) returns (ok: bool)
      requires Valid() && |buf| >= SECTOR
      modifies this
      ensures Valid() && readOnly == old(readOnly)
      ensures ok <==> !readOnly && 0 <= lba < |old(sectors)|
      ensures ok ==> sectors == old(sectors)[lba := buf[..SECTOR]]
      ensures !ok ==> sectors == old(sectors)
      ensures dirty == (old(dirty) || ok)
    {
      if readOnly {
        return false;
      }
      if !(0 <= lba < |sectors|) {
        return false;
      }
      sectors := sectors[lba := buf[..SECTOR]];
      dirty := true;
      return true;
    }
  }
}
