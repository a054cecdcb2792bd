/** The drive: 512-byte sectors addressed by LBA, with read-after-write semantics. */
module Disk {
  import opened Bytes

  const SECTOR_SIZE := 512

  type Sector = s: seq<byte> | |s| == SECTOR_SIZE witness seq(SECTOR_SIZE, _ => 0)

  /** The contents of a whole drive at one moment. */
  type Image = seq<Sector>

  /** The sectors laid end to end. */
  function Flatten(ss: seq<Sector>): (bs: seq<byte>)
    ensures |bs| == SECTOR_SIZE * |ss|
  {
    if ss == [] then [] else ss[0] + Flatten(ss[1..])
  }

  lemma {:induction false} FlattenAppend(xs: seq<Sector>, ys: seq<Sector>)
    ensures Flatten(xs + ys) == Flatten(xs) + Flatten(ys)
  {
    if xs == [] {
      assert xs + ys == ys;
    } else {
      assert (xs + ys)[1..] == xs[1..] + ys;
      FlattenAppend(xs[1..], ys);
    }
  }

  /**
   * An ATA drive. `history` records the image after every sector write, so that what a power loss
   * between two writes would leave behind can be stated.
   */
  class AtaDrive {
    var sectors: Image
    ghost var history: seq<Image>

    constructor (image: Image)
      ensures sectors == image && history == []
    {
      sectors := image;
      history := [];
    }

    method ReadSector(lba: nat) returns (s: Sector)
      requires lba < |sectors|
      ensures s == sectors[lba]
    {
      s := sectors[lba];
    }

    method WriteSector(lba: nat, s: Sector)
      requires lba < |sectors|
      modifies this
      ensures sectors == old(sectors)[lba := s]
      ensures history == old(history) + [sectors]
    {
      sectors := sectors[lba := s];
      history := history + [sectors];
    }
  }
}
