/** The disk as the file system sees it: filesys/synchdisk.cc over machine/disk.cc, one whole
    sector per request.  Requests outside the disk trip an ASSERT in the device. */
module Disks {
  import opened Codec

  const NUM_SECTORS: nat := 1024

  function BlankSector(): Sector { seq(128, j => 0) }

  type Platter = d: seq<Sector> | |d| == NUM_SECTORS witness seq<Sector>(NUM_SECTORS, i => BlankSector())

  predicate IsSector(s: int) { 0 <= s < NUM_SECTORS }

  // ---- The disk read as ints: 32 to a sector ----

  type Slots = s: seq<int32> | |s| == 32 witness seq(32, i => 0)

  function BlankSlots(): Slots { seq(32, j => 0) }

  type IntPlatter = v: seq<Slots> | |v| == NUM_SECTORS witness seq<Slots>(NUM_SECTORS, i => BlankSlots())

  function IntsOf(ss: seq<Sector>): (v: seq<Slots>)
    ensures |v| == |ss|
  {
    if ss == [] then [] else IntsOf(ss[..|ss| - 1]) + [SectorToInts(ss[|ss| - 1])]
  }

  lemma {:induction false} IntsOfAt(ss: seq<Sector>, s: nat)
    requires s < |ss|
    ensures IntsOf(ss)[s] == SectorToInts(ss[s])
  {
    if s < |ss| - 1 {
      IntsOfAt(ss[..|ss| - 1], s);
    }
  }

  function Ints(d: Platter): IntPlatter { IntsOf(d) }

  lemma IntsAt(d: Platter, s: int)
    requires IsSector(s)
    ensures Ints(d)[s] == SectorToInts(d[s])
  {
    IntsOfAt(d, s);
  }

  lemma IntsAfterWrite(d: Platter, s: int, slots: Slots)
    requires IsSector(s)
    ensures Ints(d[s := IntsToSector(slots)]) == Ints(d)[s := slots]
  {
    var e := d[s := IntsToSector(slots)];
    forall t | 0 <= t < NUM_SECTORS
      ensures Ints(e)[t] == Ints(d)[s := slots][t]
    {
      IntsAt(d, t);
      IntsAt(e, t);
      IntsRoundTrip(slots);
    }
  }

  class SynchDisk {
    var contents: Platter

    constructor (initial: Platter)
      ensures contents == initial
    {
      contents := initial;
    }

    method ReadSector(sector: int) returns (data: Sector)
      requires IsSector(sector)
      ensures data == contents[sector]
    {
      data := contents[sector];
    }

    method WriteSector(sector: int, data: Sector)
      requires IsSector(sector)
      modifies this
      ensures contents == old(contents)[sector := data]
    {
      contents := contents[sector := data];
    }
  }
}
