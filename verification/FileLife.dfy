/** The life of a file on one map: Allocate, any number of ExtendAllocates, and Deallocate; and what
    becomes of it where the guards of the allocator let too much through. */
module FileLives {
  import opened Arith
  import opened BitMaps
  import opened BitWords
  import opened Codec
  import opened Disks
  import opened FileIndex
  import opened FileHeaders

  /** A usable file that took its sectors from the map `base`. */
  ghost predicate Alive(base: set<int>, h: Header, x: Image) {
    Sound(h, x.disk) && x.primary == h.primary && FreshRun(base, Owned(h, x.disk), x.marks)
  }

  /** The data sectors of a file of b bytes in n data sectors when it has been lengthened. */
  function SectorsAfter(n: nat, b: nat, bytes: nat): nat
    requires b <= bytes
  {
    if NeedsSectors(n, bytes) then n + SectorCount(bytes - b) else n
  }

  /** The sectors of all kinds that a file gains with data sectors. */
  function Gain(n: nat, m: nat): int { m + IndexCount(m) - n - IndexCount(n) }

  /** A map with this many clear sectors has room for a file of b bytes in n data sectors to be
      lengthened to each of these numbers of bytes in turn. */
  ghost predicate Fits(n: nat, b: nat, clear: int, lengths: seq<nat>)
    decreases |lengths|
  {
    lengths != [] ==>
      && Extendable(n, b, lengths[0])
      && var m := SectorsAfter(n, b, lengths[0]);
      Gain(n, m) <= clear && Fits(m, lengths[0], clear - Gain(n, m), lengths[1..])
  }

  /** One ExtendAllocate that fits. */
  lemma {:induction false} LifeStep(base: set<int>, h: Header, x: Image, bytes: nat, junk: nat -> Slots)
    requires Alive(base, h, x) && Extendable(h.numSectors, h.numBytes, bytes)
    requires Gain(h.numSectors, SectorsAfter(h.numSectors, h.numBytes, bytes)) <= ClearCount(x.marks, NUM_SECTORS)
    ensures var (outcome, g, y) := ExtendResult(h, x, bytes, junk);
            && outcome == Allocated && Alive(base, g, y) && g.numBytes == bytes
            && g.numSectors == SectorsAfter(h.numSectors, h.numBytes, bytes) && Owned(h, x.disk) <= Owned(g, y.disk)
            && ClearCount(y.marks, NUM_SECTORS) == ClearCount(x.marks, NUM_SECTORS) - Gain(h.numSectors, g.numSectors)
  {
    if NeedsSectors(h.numSectors, bytes) {
      LifeGrows(base, h, x, bytes, SectorCount(bytes - h.numBytes), junk);
    } else {
      SectorCountLeast(bytes, h.numSectors);
    }
  }

  lemma {:induction false} LifeGrows(base: set<int>, h: Header, x: Image, bytes: nat, e: nat, junk: nat -> Slots)
    requires Alive(base, h, x) && Extendable(h.numSectors, h.numBytes, bytes) && NeedsSectors(h.numSectors, bytes)
    requires e == SectorCount(bytes - h.numBytes) && e + IndexCount(h.numSectors + e) - IndexCount(h.numSectors) <= ClearCount(x.marks, NUM_SECTORS)
    ensures var (outcome, g, y) := ExtendResult(h, x, bytes, junk);
            && outcome == Allocated && Alive(base, g, y) && g.numBytes == bytes && g.numSectors == h.numSectors + e
            && Owned(h, x.disk) <= Owned(g, y.disk)
            && ClearCount(y.marks, NUM_SECTORS) == ClearCount(x.marks, NUM_SECTORS) - (e + IndexCount(h.numSectors + e) - IndexCount(h.numSectors))
  {
    ExtraPositive(h, bytes);
    ExtendUnfolds(h, x, bytes, e, junk);
    var (outcome, y) := Extension(x, h.numSectors, e, junk);
    assert outcome == Allocated && Sound(Extend(h, y.primary, e, bytes), y.disk) by { ExtensionSound(h, x, e, bytes, junk); }
    ExtendOnce(base, x, h.numSectors, e, junk);
  }

  /** The file after ExtendAllocate to each length in turn. */
  ghost function Lengthenings(base: set<int>, h: Header, x: Image, lengths: seq<nat>, junk: nat -> Slots): (Header, Image)
    requires Alive(base, h, x) && Fits(h.numSectors, h.numBytes, ClearCount(x.marks, NUM_SECTORS), lengths)
    decreases |lengths|
  {
    if lengths == [] then (h, x)
    else
      FirstFits(base, h, x, lengths, junk);
      var (_, g, y) := ExtendResult(h, x, lengths[0], junk);
      Lengthenings(base, g, y, lengths[1..], junk)
  }

  /** The first of several lengthenings that fit leaves room for the others. */
  lemma {:induction false} FirstFits(base: set<int>, h: Header, x: Image, lengths: seq<nat>, junk: nat -> Slots)
    requires Alive(base, h, x) && lengths != [] && Fits(h.numSectors, h.numBytes, ClearCount(x.marks, NUM_SECTORS), lengths)
    ensures Extendable(h.numSectors, h.numBytes, lengths[0])
    ensures var (outcome, g, y) := ExtendResult(h, x, lengths[0], junk);
            && Alive(base, g, y) && Fits(g.numSectors, g.numBytes, ClearCount(y.marks, NUM_SECTORS), lengths[1..])
            && h.numSectors <= g.numSectors && Owned(h, x.disk) <= Owned(g, y.disk) && g.numBytes == lengths[0]
  {
    LifeStep(base, h, x, lengths[0], junk);
  }

  lemma {:induction false} LivesOn(base: set<int>, h: Header, x: Image, lengths: seq<nat>, junk: nat -> Slots)
    requires Alive(base, h, x) && Fits(h.numSectors, h.numBytes, ClearCount(x.marks, NUM_SECTORS), lengths)
    ensures var (g, y) := Lengthenings(base, h, x, lengths, junk);
            && Alive(base, g, y) && h.numSectors <= g.numSectors && Owned(h, x.disk) <= Owned(g, y.disk)
            && g.numBytes == if lengths == [] then h.numBytes else lengths[|lengths| - 1]
    decreases |lengths|
  {
    if lengths != [] {
      FirstFits(base, h, x, lengths, junk);
      var (_, g, y) := ExtendResult(h, x, lengths[0], junk);
      LivesOn(base, g, y, lengths[1..], junk);
      var (f, z) := Lengthenings(base, h, x, lengths, junk);
      PrefixOf(Owned(h, x.disk), Owned(g, y.disk), Owned(f, z.disk));
    }
  }

  /** A data sector is where it was when the file owns what it owned, in the same order. */
  lemma {:induction false} DataUnmoved(h: Header, v: IntPlatter, g: Header, w: IntPlatter, k: nat)
    requires Sound(h, v) && Sound(g, w) && Owned(h, v) <= Owned(g, w) && k < h.numSectors <= g.numSectors
    ensures DataSector(g, w, k) == DataSector(h, v, k)
  {
    DataBlock(h, v, k);
    DataBlock(g, w, k);
  }

  /** The file after Allocate for a number of bytes, with header h. */
  ghost predicate Begins(start: Image, h: Header, size: nat, junk: nat -> Slots) {
    && |start.primary| == NUM_DIRECT && IndexCount(SectorCount(size)) <= NUM_DIRECT
    && h.primary == AllocateResult(start, size, junk).1.primary && h.numBytes == size && h.numSectors == SectorCount(size)
    && SectorCount(size) + IndexCount(SectorCount(size)) <= ClearCount(start.marks, NUM_SECTORS)
  }

  lemma {:induction false} BornAlive(start: Image, h: Header, size: nat, junk: nat -> Slots)
    requires Begins(start, h, size, junk)
    ensures var (outcome, x) := AllocateResult(start, size, junk);
            && outcome == Allocated && Alive(start.marks, h, x)
            && ClearCount(x.marks, NUM_SECTORS) == ClearCount(start.marks, NUM_SECTORS) - (SectorCount(size) + IndexCount(SectorCount(size)))
  {
    AllocationSound(h, start, size, junk);
    var x := AllocateResult(start, size, junk).1;
    Conservation(start.marks, x, SectorCount(size));
  }

  /** Conservation and undo over the whole life of a file, from Allocate through any number of
      ExtendAllocates that fit, whether or not they need sectors: the file is usable and as long as the
      last of them made it, its data sectors are where they were, what it owns was free at the start and
      makes up exactly what the map has lost, and freeing it gives the starting map back. */
  lemma {:induction false} LifeOfFile(start: Image, h: Header, size: nat, lengths: seq<nat>, junk: nat -> Slots)
    requires Begins(start, h, size, junk)
    requires Fits(SectorCount(size), size, ClearCount(start.marks, NUM_SECTORS) - SectorCount(size) - IndexCount(SectorCount(size)), lengths)
    ensures var x := AllocateResult(start, size, junk).1;
            Alive(start.marks, h, x) && Fits(h.numSectors, h.numBytes, ClearCount(x.marks, NUM_SECTORS), lengths)
    ensures var x := AllocateResult(start, size, junk).1;
            var (g, y) := Lengthenings(start.marks, h, x, lengths, junk);
            && Sound(g, y.disk) && g.numBytes == (if lengths == [] then size else lengths[|lengths| - 1]) <= 128 * g.numSectors
            && h.numSectors <= g.numSectors && (forall k :: 0 <= k < h.numSectors ==> DataSector(g, y.disk, k) == DataSector(h, x.disk, k))
            && FreshRun(start.marks, Owned(g, y.disk), y.marks)
            && ClearCount(y.marks, NUM_SECTORS) == ClearCount(start.marks, NUM_SECTORS) - (g.numSectors + IndexCount(g.numSectors))
            && Released(y.marks, g.primary, y.disk, 0, g.numSectors) == start.marks
  {
    BornAlive(start, h, size, junk);
    var x := AllocateResult(start, size, junk).1;
    LivesOn(start.marks, h, x, lengths, junk);
    var (g, y) := Lengthenings(start.marks, h, x, lengths, junk);
    forall k | 0 <= k < h.numSectors
      ensures DataSector(g, y.disk, k) == DataSector(h, x.disk, k)
    {
      DataUnmoved(h, x.disk, g, y.disk, k);
    }
    Conservation(start.marks, y, g.numSectors);
  }

  /** The words of the bitmap after a file has lived and been freed are the words from before. */
  lemma {:induction false} RestoredBitForBit(before: seq<uint32>, after: seq<uint32>, start: Image, h: Header, size: nat, lengths: seq<nat>,
                                             junk: nat -> Slots)
    requires |before| == |after| == 32 && start.marks == MarkedBits(before, NUM_SECTORS) && Begins(start, h, size, junk)
    requires Fits(SectorCount(size), size, ClearCount(start.marks, NUM_SECTORS) - SectorCount(size) - IndexCount(SectorCount(size)), lengths)
    requires var x := AllocateResult(start, size, junk).1;
             && Alive(start.marks, h, x) && Fits(h.numSectors, h.numBytes, ClearCount(x.marks, NUM_SECTORS), lengths)
             && var (g, y) := Lengthenings(start.marks, h, x, lengths, junk);
             && WellFormed(g) && MarkedBits(after, NUM_SECTORS) == Released(y.marks, g.primary, y.disk, 0, g.numSectors)
    ensures after == before
  {
    LifeOfFile(start, h, size, lengths, junk);
    MarkedDetermines(after, before, NUM_SECTORS);
  }

  // ---- What the guards let through ----

  /** All sectors but the last. */
  ghost function AllButOne(): set<int> { set s | 0 <= s < NUM_SECTORS - 1 && IsSector(s) }

  lemma OneClear()
    ensures ClearCount(AllButOne(), NUM_SECTORS) == 1 && SectorCount(1) == 1 && IndexCount(1) == 1 && IndexCount(0) == 0
  {
    assert ClearBits(AllButOne(), NUM_SECTORS) == {NUM_SECTORS - 1};
    assert IndexCount(0) == 0;
  }

  /** One clear sector is enough for the guard of Allocate, but not for a file of one byte. */
  lemma {:induction false} AllocationBreaks(primary: seq<int32>, disk: IntPlatter, h: Header, junk: nat -> Slots)
    requires |primary| == NUM_DIRECT && SectorCount(1) == 1 && IndexCount(1) == 1
    requires h.numBytes == 1 && h.numSectors == 1 && h.primary == AllocateResult(Image(AllButOne(), primary, disk), 1, junk).1.primary
    ensures var (outcome, x) := AllocateResult(Image(AllButOne(), primary, disk), 1, junk);
            outcome == Allocated && !Sound(h, x.disk)
  {
    OneClear();
    var x := Image(AllButOne(), primary, disk);
    AllocateMeaning(x, 1, junk);
    AllocationSound(h, x, 1, junk);
  }

  /** Nor is it enough for an empty file that is lengthened to one byte. */
  lemma {:induction false} ExtensionBreaks(h: Header, disk: IntPlatter, junk: nat -> Slots)
    requires |h.primary| == NUM_DIRECT && h.numSectors == h.numBytes == 0
    ensures Sound(h, disk) && Extendable(h.numSectors, h.numBytes, 1)
    ensures var (outcome, g, x) := ExtendResult(h, Image(AllButOne(), h.primary, disk), 1, junk);
            outcome == Allocated && !Sound(g, x.disk)
  {
    OneClear();
    var x := Image(AllButOne(), h.primary, disk);
    ExtendUnfolds(h, x, 1, 1, junk);
    AddBlocksAborts(x, 0, 1, junk);
    ExtensionSound(h, x, 1, 1, junk);
  }
}
