/** filesys/filehdr.cc: a file header with a primary table of index sectors, each of which holds
    32 data-sector numbers on disk. */
module FileHeaders {
  import opened Arith
  import opened BitMaps
  import opened Codec
  import opened Disks
  import opened FileIndex

  const NUM_DIRECT: nat := 25

  // ---- Headers as values, and their on-disk form ----

  datatype Header = Header(createTime: int32, lastVisitTime: int32, lastWriteTime: int32,
                           fileType: int32, primary: seq<int32>, numVisits: int32,
                           numBytes: int32, numSectors: int32)

  function ToInts(h: Header): Slots
    requires |h.primary| == NUM_DIRECT
  {
    [h.createTime, h.lastVisitTime, h.lastWriteTime, h.fileType] + h.primary + [h.numVisits, h.numBytes, h.numSectors]
  }

  function FromInts(ints: Slots): (h: Header)
    ensures |h.primary| == NUM_DIRECT
  {
    Header(ints[0], ints[1], ints[2], ints[3], ints[4..29], ints[29], ints[30], ints[31])
  }

  function ToSector(h: Header): Sector
    requires |h.primary| == NUM_DIRECT
  {
    IntsToSector(ToInts(h))
  }

  function FromSector(s: Sector): (h: Header)
    ensures |h.primary| == NUM_DIRECT
  {
    FromInts(SectorToInts(s))
  }

  /** A header fills exactly one sector, in the order of its fields. */
  lemma {:induction false} HeaderLayout(h: Header)
    requires |h.primary| == NUM_DIRECT
    ensures var ints := SectorToInts(ToSector(h));
            && ints[..4] == [h.createTime, h.lastVisitTime, h.lastWriteTime, h.fileType]
            && ints[4..29] == h.primary && ints[29..] == [h.numVisits, h.numBytes, h.numSectors]
  {
    IntsRoundTrip(ToInts(h));
  }

  /** A header survives being written and fetched. */
  lemma {:induction false} HeaderRoundTrip(h: Header)
    requires |h.primary| == NUM_DIRECT
    ensures FromSector(ToSector(h)) == h
  {
    IntsRoundTrip(ToInts(h));
    assert ToInts(h)[4..29] == h.primary;
  }

  ghost predicate WellFormed(h: Header) {
    |h.primary| == NUM_DIRECT && 0 <= h.numSectors && IndexCount(h.numSectors) <= NUM_DIRECT
  }

  ghost function Owned(h: Header, d: IntPlatter): seq<int>
    requires WellFormed(h)
  {
    OwnedFrom(h.primary, d, 0, h.numSectors)
  }

  /** A usable file: every index and data sector is a real sector and none serves twice. */
  ghost predicate Sound(h: Header, d: IntPlatter) {
    && WellFormed(h)
    && 0 <= h.numBytes <= h.numSectors * 128
    && AllSectors(Owned(h, d))
    && NoDuplicates(Owned(h, d))
  }

  /** Freeing the first block of what is left to free: its sectors are real and its index sector is
      marked, and the later blocks stay marked. */
  lemma {:induction false} BlockInOwned(p: seq<int32>, v: IntPlatter, i: nat, n: nat, m: set<int>)
    requires i + IndexCount(n) <= |p| && n > 0 && Reserved(OwnedFrom(p, v, i, n), m)
    ensures IsSector(p[i]) && p[i] in m && AllSectors(Listed(v, p[i])[..Fill(n)])
    ensures Reserved(OwnedFrom(p, v, i + 1, n - Fill(n)), m - Elements(Listed(v, p[i])[..Fill(n)]) - {p[i] as int})
  {
    Unlink([p[i] as int] + Listed(v, p[i])[..Fill(n)], OwnedFrom(p, v, i + 1, n - Fill(n)), m);
    var block: seq<int> := [p[i] as int] + Listed(v, p[i])[..Fill(n)];
    assert block[0] in block;
    assert Elements(block) == {p[i] as int} + Elements(Listed(v, p[i])[..Fill(n)]);
    assert forall x :: x in Listed(v, p[i])[..Fill(n)] ==> x in block;
  }

  lemma {:induction false} Unlink(a: seq<int>, b: seq<int>, m: set<int>)
    requires Reserved(a + b, m)
    ensures AllSectors(a) && Elements(a) <= m && Reserved(b, m - Elements(a))
  {
    var s := a + b;
    forall k | 0 <= k < |a|
      ensures a[k] in s && a[k] in Elements(s) && a[k] !in b
    {
      assert s[k] == a[k];
      forall j | 0 <= j < |b|
        ensures b[j] != a[k]
      {
        assert s[|a| + j] == b[j];
      }
    }
    forall k | 0 <= k < |b|
      ensures b[k] in s && b[k] in Elements(s)
    {
      assert s[|a| + k] == b[k];
    }
    forall j, k | 0 <= j < k < |b|
      ensures b[j] != b[k]
    {
      assert s[|a| + j] == b[j] && s[|a| + k] == b[k];
    }
  }

  lemma {:induction false} IndexCountBound(n: nat)
    ensures n <= 32 * IndexCount(n)
  {
    IndexCountIsCeiling(n);
  }

  lemma {:induction false} OffsetSplit(offset: nat)
    ensures offset / (128 * 32) == offset / 128 / 32
    ensures offset % (128 * 32) / 128 == offset / 128 % 32
  {
  }

  /** The k-th data sector of a file, through its index sector. */
  ghost function DataSector(h: Header, v: IntPlatter, k: nat): int
    requires WellFormed(h) && k < h.numSectors
  {
    IndexCountIsCeiling(h.numSectors);
    Listed(v, h.primary[k / 32])[k % 32]
  }

  /** The k-th data sector is owned sector number k + k / 32 + 1, so it is a real sector, and so is
      the index sector that lists it. */
  lemma {:induction false} DataBlock(h: Header, v: IntPlatter, k: nat)
    requires Sound(h, v) && k < h.numSectors
    ensures k / 32 < NUM_DIRECT && IsSector(h.primary[k / 32])
    ensures 33 * (k / 32) + 1 + k % 32 < |Owned(h, v)|
    ensures Owned(h, v)[33 * (k / 32) + 1 + k % 32] == DataSector(h, v, k)
    ensures IsSector(DataSector(h, v, k))
  {
    IndexCountIsCeiling(h.numSectors);
    DataPosition(h.primary, v, 0, h.numSectors, k / 32, k % 32);
    IndexPosition(h.primary, v, 0, h.numSectors, k / 32);
    Member(Owned(h, v), Elements(Owned(h, v)), 33 * (k / 32) + 1 + k % 32);
    Member(Owned(h, v), Elements(Owned(h, v)), 33 * (k / 32));
  }

  // ---- Usable files stay usable ----

  /** A fresh run after distinct marked sectors. */
  lemma {:induction false} DistinctConcat(owned: seq<int>, added: seq<int>, m: set<int>)
    requires NoDuplicates(owned) && NoDuplicates(added) && AllSectors(owned) && AllSectors(added)
    requires Elements(owned) <= m && Elements(added) !! m
    ensures NoDuplicates(owned + added) && AllSectors(owned + added)
  {
    var s := owned + added;
    forall i, j | 0 <= i < j < |s|
      ensures s[i] != s[j]
    {
      if i < |owned| <= j {
        assert s[i] in Elements(owned) && s[j] in Elements(added);
      }
    }
  }

  lemma {:induction false} DropPrefix(a: seq<int>, b: seq<int>)
    ensures (a + b)[|a|..] == b && a <= a + b
  {
  }

  lemma {:induction false} BadConcat(owned: seq<int>, added: seq<int>)
    requires -1 in added
    ensures !AllSectors(owned + added)
  {
    InConcat(-1, owned, added);
  }

  /** Allocate for a file of `size` bytes, whose header is then h: it gives a usable file exactly
      when there was room for its data and index sectors together, and then its sectors were free
      before and are the only ones taken. */
  lemma {:induction false} AllocationSound(h: Header, x: Image, size: nat, junk: nat -> Slots)
    requires |x.primary| == NUM_DIRECT && IndexCount(SectorCount(size)) <= NUM_DIRECT
    requires h.primary == AllocateResult(x, size, junk).1.primary
    requires h.numBytes == size && h.numSectors == SectorCount(size)
    ensures var need := h.numSectors + IndexCount(h.numSectors);
            var (outcome, x') := AllocateResult(x, size, junk);
            && (outcome == Allocated && Sound(h, x'.disk) <==> need <= ClearCount(x.marks, NUM_SECTORS))
            && (need <= ClearCount(x.marks, NUM_SECTORS) ==> FreshRun(x.marks, Owned(h, x'.disk), x'.marks))
  {
    AllocateMeaning(x, size, junk);
    SectorCountLeast(size, SectorCount(size));
    if h.numSectors + IndexCount(h.numSectors) <= ClearCount(x.marks, NUM_SECTORS) {
      EnoughIsAllocated(x, size, junk);
    }
  }

  lemma {:induction false} EnoughIsAllocated(x: Image, size: nat, junk: nat -> Slots)
    requires IndexCount(SectorCount(size)) <= |x.primary|
    requires SectorCount(size) + IndexCount(SectorCount(size)) <= ClearCount(x.marks, NUM_SECTORS)
    ensures AllocateResult(x, size, junk).0 == Allocated
  {
    AllocateMeaning(x, size, junk);
    IndexCountIsCeiling(SectorCount(size));
  }

  /** The header after a successful extension to n + e data sectors. */
  function Extend(h: Header, primary: seq<int32>, e: nat, bytes: int32): Header
    requires 0 <= h.numSectors + e < 0x8000_0000
  {
    h.(primary := primary, numSectors := h.numSectors + e, numBytes := bytes)
  }

  /** ExtendAllocate on a usable file whose sectors are marked: every sector the file had stays in
      place, and a successful call leaves the file usable exactly when there was room for the new
      data and index sectors together; the sectors it gained were free before. */
  lemma {:induction false} ExtensionSound(h: Header, x: Image, e: nat, bytes: int32, junk: nat -> Slots)
    requires Sound(h, x.disk) && x.primary == h.primary && Elements(Owned(h, x.disk)) <= x.marks
    requires 0 < e && h.numSectors + e < 0x8000_0000 && IndexCount(h.numSectors + e) <= NUM_DIRECT
    requires 0 <= bytes <= (h.numSectors + e) * 128
    ensures var need := e + IndexCount(h.numSectors + e) - IndexCount(h.numSectors);
            var clear := ClearCount(x.marks, NUM_SECTORS);
            var (outcome, x') := Extension(x, h.numSectors, e, junk);
            var h' := Extend(h, x'.primary, e, bytes);
            var owned := Owned(h, x.disk);
            && (need <= clear ==> outcome == Allocated)
            && (outcome == Allocated ==>
                  && owned <= Owned(h', x'.disk)
                  && (Sound(h', x'.disk) <==> need <= clear)
                  && (need <= clear ==> FreshRun(x.marks, Owned(h', x'.disk)[|owned|..], x'.marks)))
  {
    var n: nat := h.numSectors;
    var (outcome, x') := Extension(x, n, e, junk);
    GrowthCounts(n, e);
    ExtensionMeaning(x, n, e, junk);
    if outcome == Allocated {
      var owned, added := Owned(h, x.disk), Added(x'.primary, x'.disk, 0, n, e);
      ExtendedOwned(h, x'.primary, x'.disk, e, bytes);
      DropPrefix(owned, added);
      if e + IndexCount(n + e) - IndexCount(n) <= ClearCount(x.marks, NUM_SECTORS) {
        DistinctConcat(owned, added, x.marks);
      } else {
        BadConcat(owned, added);
      }
    }
  }

  lemma {:induction false} ExtendedOwned(h: Header, primary: seq<int32>, v: IntPlatter, e: nat, bytes: int32)
    requires WellFormed(h) && |primary| == NUM_DIRECT
    requires h.numSectors + e < 0x8000_0000 && IndexCount(h.numSectors + e) <= NUM_DIRECT
    ensures WellFormed(Extend(h, primary, e, bytes))
    ensures Owned(Extend(h, primary, e, bytes), v)
            == OwnedFrom(primary, v, 0, h.numSectors) + Added(primary, v, 0, h.numSectors, e)
  {
    OwnedGrowth(primary, v, 0, h.numSectors, e);
  }

  /** A file of n data sectors is too short for this many bytes. */
  predicate NeedsSectors(n: nat, bytes: nat) { SectorCount(bytes) > n }

  /** Lengthening a file from b bytes in n data sectors overflows neither the byte count nor the
      primary table. */
  ghost predicate Extendable(n: int, b: int, bytes: int) {
    && 0 <= n && 0 <= b <= bytes < 0x8000_0000
    && (NeedsSectors(n, bytes) ==> IndexCount(n + SectorCount(bytes - b)) <= NUM_DIRECT)
  }

  lemma {:induction false} ExtendableSectors(n: nat, b: nat, bytes: nat)
    requires Extendable(n, b, bytes) && NeedsSectors(n, bytes)
    ensures n + SectorCount(bytes - b) < 0x8000_0000
  {
    IndexCountBound(n + SectorCount(bytes - b));
  }

  /** New bytes that need sectors need at least one, and the sectors they are given hold them. */
  lemma {:induction false} ExtraPositive(h: Header, bytes: nat)
    requires 0 <= h.numBytes <= h.numSectors * 128 && h.numBytes <= bytes && NeedsSectors(h.numSectors, bytes)
    ensures 0 < SectorCount(bytes - h.numBytes)
    ensures bytes <= (h.numSectors + SectorCount(bytes - h.numBytes)) * 128
  {
    SectorCountLeast(bytes, h.numSectors);
    SectorCountLeast(bytes - h.numBytes, 0);
    SectorCountLeast(bytes - h.numBytes, SectorCount(bytes - h.numBytes));
  }

  /** ExtendAllocate: bytes that fit in the sectors the file has cost nothing; otherwise as many
      sectors are added as the extra bytes would fill on their own. */
  ghost function ExtendResult(h: Header, x: Image, bytes: nat, junk: nat -> Slots): (Outcome, Header, Image)
    requires Extendable(h.numSectors, h.numBytes, bytes) && |x.primary| == NUM_DIRECT
  {
    if !NeedsSectors(h.numSectors, bytes) then (Allocated, h.(numBytes := bytes), x)
    else
      ExtendableSectors(h.numSectors, h.numBytes, bytes);
      var e := SectorCount(bytes - h.numBytes);
      var (outcome, x') := Extension(x, h.numSectors, e, junk);
      Extended(h, bytes, e, outcome, x')
  }

  /** What ExtendAllocate leaves when it has asked for e sectors. */
  ghost function Extended(h: Header, bytes: int32, e: nat, outcome: Outcome, x: Image): (Outcome, Header, Image)
    requires h.numSectors + e < 0x8000_0000
  {
    (outcome, h.(primary := x.primary, numBytes := bytes, numSectors := if outcome == Allocated then h.numSectors + e else h.numSectors), x)
  }

  lemma {:induction false} ExtendStarts(h: Header, bytes: nat, e: nat)
    requires Extendable(h.numSectors, h.numBytes, bytes) && NeedsSectors(h.numSectors, bytes) && e == SectorCount(bytes - h.numBytes)
    ensures h.numSectors + e < 0x8000_0000 && IndexCount(h.numSectors + e) <= NUM_DIRECT
  {
    ExtendableSectors(h.numSectors, h.numBytes, bytes);
  }

  /** ExtendAllocate says no exactly when there are fewer clear sectors than the extra bytes would fill.
      The map and the disk are as before then, but the header in memory claims the new length all the
      same, which is more than its sectors hold. */
  lemma {:induction false} ExtendRefused(h: Header, x: Image, bytes: nat, junk: nat -> Slots)
    requires Sound(h, x.disk) && x.primary == h.primary && Extendable(h.numSectors, h.numBytes, bytes)
    ensures var (outcome, g, x') := ExtendResult(h, x, bytes, junk);
            && (outcome == NoSpace <==>
                  NeedsSectors(h.numSectors, bytes) && ClearCount(x.marks, NUM_SECTORS) < SectorCount(bytes - h.numBytes))
            && (outcome == NoSpace ==> x' == x && g == h.(numBytes := bytes) && !Sound(g, x'.disk))
  {
    if NeedsSectors(h.numSectors, bytes) {
      ExtendUnfolds(h, x, bytes, SectorCount(bytes - h.numBytes), junk);
      SectorCountLeast(bytes, h.numSectors);
    }
  }

  lemma {:induction false} ExtendUnfolds(h: Header, x: Image, bytes: nat, e: nat, junk: nat -> Slots)
    requires Extendable(h.numSectors, h.numBytes, bytes) && |x.primary| == NUM_DIRECT && e == SectorCount(bytes - h.numBytes)
    ensures !NeedsSectors(h.numSectors, bytes) ==> ExtendResult(h, x, bytes, junk) == (Allocated, h.(numBytes := bytes), x)
    ensures NeedsSectors(h.numSectors, bytes) ==>
              && IndexCount(h.numSectors + e) <= NUM_DIRECT && h.numSectors + e < 0x8000_0000
              && var (outcome, x') := Extension(x, h.numSectors, e, junk);
              ExtendResult(h, x, bytes, junk) == Extended(h, bytes, e, outcome, x')
  {
    if NeedsSectors(h.numSectors, bytes) {
      ExtendableSectors(h.numSectors, h.numBytes, bytes);
    }
  }

  lemma {:induction false} ExtendFits(h: Header, x: Image, bytes: nat, junk: nat -> Slots, result: (Outcome, Header, Image))
    requires Extendable(h.numSectors, h.numBytes, bytes) && |x.primary| == NUM_DIRECT && !NeedsSectors(h.numSectors, bytes)
    requires result == ExtendResult(h, x, bytes, junk)
    ensures result == (Allocated, h.(numBytes := bytes), x)
  {
  }

  lemma {:induction false} ExtendDone(h: Header, x: Image, bytes: nat, e: nat, junk: nat -> Slots, result: (Outcome, Header, Image),
                                      outcome: Outcome, y: Image)
    requires Extendable(h.numSectors, h.numBytes, bytes) && |x.primary| == NUM_DIRECT && NeedsSectors(h.numSectors, bytes)
    requires e == SectorCount(bytes - h.numBytes) && h.numSectors + e < 0x8000_0000 && IndexCount(h.numSectors + e) <= NUM_DIRECT
    requires result == ExtendResult(h, x, bytes, junk) && (outcome, y) == Extension(x, h.numSectors, e, junk)
    ensures result == Extended(h, bytes, e, outcome, y)
  {
  }

  /** One turn of the block loop, which leaves the count of the last block as it is. */
  lemma {:induction false} BlockLoop(x: Image, i: nat, entries: nat, left: nat, junk: nat -> Slots, y: Image, added: (bool, Image))
      returns (todo: nat)
    requires i < entries <= |x.primary| && entries - i == IndexCount(left)
    requires y == AddBlock(x, i, Fill(left), junk(i)) && added == AddBlocks(x, i, left, junk)
    ensures entries - (i + 1) == IndexCount(todo) && (i + 1 < entries ==> todo == if left >= 32 then left - 32 else left)
    ensures added == if y.primary[i] == -1 then (false, y) else AddBlocks(y, i + 1, todo, junk)
  {
    todo := left - Fill(left);
    if i + 1 < entries {
      MoreThanOne(left);
    }
  }

  class FileHeader {
    var createTime: int32
    var lastVisitTime: int32
    var lastWriteTime: int32
    var fileType: int32
    var primaryIndexTable: seq<int32>
    var numVisits: int32
    var numBytes: int32
    var numSectors: int32

    ghost predicate Valid()
      reads this
    {
      |primaryIndexTable| == NUM_DIRECT
    }

    function Value(): (h: Header)
      reads this
    {
      Header(createTime, lastVisitTime, lastWriteTime, fileType, primaryIndexTable, numVisits, numBytes, numSectors)
    }

    /** What the allocator works on. */
    ghost function View(freeMap: BitMap, disk: SynchDisk): Image
      reads this, freeMap, disk
    {
      Image(freeMap.marked, primaryIndexTable, Ints(disk.contents))
    }

    constructor ()
      ensures Valid()
    {
      primaryIndexTable := seq(NUM_DIRECT, i => 0);
    }

    method FetchFrom(disk: SynchDisk, sector: int)
      requires IsSector(sector)
      modifies this
      ensures Valid() && Value() == FromSector(disk.contents[sector])
    {
      var data := disk.ReadSector(sector);
      var h := FromSector(data);
      createTime, lastVisitTime, lastWriteTime := h.createTime, h.lastVisitTime, h.lastWriteTime;
      fileType, primaryIndexTable, numVisits := h.fileType, h.primary, h.numVisits;
      numBytes, numSectors := h.numBytes, h.numSectors;
    }

    method WriteBack(disk: SynchDisk, sector: int)
      requires Valid() && IsSector(sector)
      modifies disk
      ensures disk.contents == old(disk.contents)[sector := ToSector(Value())]
      ensures FromSector(disk.contents[sector]) == Value()
    {
      HeaderRoundTrip(Value());
      disk.WriteSector(sector, ToSector(Value()));
    }

    /** The inner loops: slots lo..hi take what successive Finds return. */
    static method TakeSectors(freeMap: BitMap, slots: Slots, lo: nat, hi: nat) returns (filled: Slots)
      requires freeMap.Valid() && freeMap.numBits == NUM_SECTORS
      requires lo <= hi <= 32
      modifies freeMap, freeMap.words
      ensures freeMap.Valid()
      ensures (freeMap.marked, filled) == TakeSlots(old(freeMap.marked), slots, lo, hi)
    {
      filled := slots;
      var j := lo;
      while j < hi
        invariant lo <= j <= hi
        invariant freeMap.Valid()
        invariant TakeSlots(freeMap.marked, filled, j, hi) == TakeSlots(old(freeMap.marked), slots, lo, hi)
      {
        FindTakesOne(freeMap.marked, NUM_SECTORS);
        var sector := freeMap.Find();
        filled := filled[j := sector];
        j := j + 1;
      }
    }

    /** The sectors that some number of bytes take up. */
    static method Sectors(bytes: nat) returns (sectors: nat)
      ensures sectors == SectorCount(bytes)
    {
      SectorCountIsCeiling(bytes);
      sectors := DivRoundUp(bytes, 128);
    }

    /** The primary entries that n data sectors take up. */
    static method Entries(n: nat) returns (entries: nat)
      ensures entries == IndexCount(n)
    {
      IndexCountIsCeiling(n);
      entries := DivRoundUp(n, 32);
    }

    /** How many of n data sectors the last index sector lists, if it is not full. */
    static method InLast(n: nat) returns (used: nat)
      ensures used == Used(n) < 32
    {
      UsedIsRemainder(n);
      used := n % 32;
    }

    /** The block loop shared by Allocate and ExtendAllocate: primary entries first..entries get
        index sectors for `count` data sectors.  The answer is false where the kernel trips the
        ASSERT in Disk::WriteRequest. */
    method AddIndexBlocks(freeMap: BitMap, disk: SynchDisk, first: nat, entries: nat, count: nat, junk: nat -> Slots)
        returns (ok: bool)
      requires Valid() && freeMap.Valid() && freeMap.numBits == NUM_SECTORS
      requires first <= entries <= NUM_DIRECT && entries - first == IndexCount(count)
      modifies this`primaryIndexTable, freeMap, freeMap.words, disk
      ensures Valid() && freeMap.Valid()
      ensures (ok, View(freeMap, disk)) == AddBlocks(old(View(freeMap, disk)), first, count, junk)
    {
      var left, i := count, first;
      ghost var added, todo := AddBlocks(View(freeMap, disk), first, count, junk), count;
      while i < entries
        invariant first <= i <= entries
        invariant Valid() && freeMap.Valid()
        invariant entries - i == IndexCount(todo) && (i < entries ==> todo == left)
        invariant AddBlocks(View(freeMap, disk), i, todo, junk) == added
      {
        ghost var x := View(freeMap, disk);
        var there := AddIndexBlock(freeMap, disk, i, left, junk(i));
        todo := BlockLoop(x, i, entries, left, junk, View(freeMap, disk), added);
        if !there {
          return false;
        }
        if left >= 32 {
          left := left - 32;
        }
        i := i + 1;
      }
      ok := true;
    }

    /** One turn of that loop, for the `left` data sectors still to be placed. */
    method AddIndexBlock(freeMap: BitMap, disk: SynchDisk, i: nat, left: nat, junk: Slots) returns (there: bool)
      requires Valid() && freeMap.Valid() && freeMap.numBits == NUM_SECTORS && i < NUM_DIRECT
      modifies this`primaryIndexTable, freeMap, freeMap.words, disk
      ensures Valid() && freeMap.Valid()
      ensures View(freeMap, disk) == AddBlock(old(View(freeMap, disk)), i, Fill(left), junk)
      ensures there <==> primaryIndexTable[i] != -1
    {
      FindTakesOne(freeMap.marked, NUM_SECTORS);
      var sector := freeMap.Find();
      primaryIndexTable := primaryIndexTable[i := sector];
      var slots;
      if left < 32 {
        slots := TakeSectors(freeMap, junk, 0, left);
      } else {
        slots := TakeSectors(freeMap, junk, 0, 32);
      }
      there := sector != -1;
      if there {
        IntsAfterWrite(disk.contents, sector, slots);
        disk.WriteSector(sector, IntsToSector(slots));
      }
    }

    /** Allocate; AllocateMeaning and AllocationSound say what comes of it. */
    method Allocate(freeMap: BitMap, disk: SynchDisk, fileSize: int32, newType: int32, now: int32, junk: nat -> Slots)
        returns (outcome: Outcome)
      requires Valid() && freeMap.Valid() && freeMap.numBits == NUM_SECTORS
      requires 0 <= fileSize && IndexCount(SectorCount(fileSize)) <= NUM_DIRECT
      modifies this`numBytes, this`numSectors, this`fileType, this`createTime, this`primaryIndexTable
      modifies freeMap, freeMap.words, disk
      ensures Valid() && freeMap.Valid()
      ensures numBytes == fileSize && numSectors == SectorCount(fileSize) && fileType == newType && createTime == now
      ensures (outcome, View(freeMap, disk)) == AllocateResult(old(View(freeMap, disk)), fileSize, junk)
    {
      numBytes := fileSize;
      SectorCountLeast(fileSize, fileSize);
      numSectors := Sectors(fileSize);
      fileType := newType;
      createTime := now;
      var clear := freeMap.NumClear();
      if clear < numSectors {
        return NoSpace;
      }
      var entries := Entries(numSectors);
      var ok := AddIndexBlocks(freeMap, disk, 0, entries, numSectors, junk);
      outcome := if ok then Allocated else Aborted;
    }

    /** Slots lo..hi of an index sector already in use take fresh data sectors. */
    method FillIndex(freeMap: BitMap, disk: SynchDisk, index: int32, lo: nat, hi: nat)
      requires Valid() && freeMap.Valid() && freeMap.numBits == NUM_SECTORS
      requires IsSector(index) && lo <= hi <= 32
      modifies freeMap, freeMap.words, disk
      ensures freeMap.Valid()
      ensures View(freeMap, disk) == TopUp(old(View(freeMap, disk)), index, lo, hi - lo)
    {
      var data := disk.ReadSector(index);
      var slots := TakeSectors(freeMap, SectorToInts(data), lo, hi);
      IntsAt(disk.contents, index);
      IntsAfterWrite(disk.contents, index, slots);
      disk.WriteSector(index, IntsToSector(slots));
    }

    /** The allocating part of ExtendAllocate: fill up the last index sector, then add blocks.  The answer
        is false where the device's ASSERT stops the kernel. */
    method GrowIndex(freeMap: BitMap, disk: SynchDisk, extraSectors: nat, junk: nat -> Slots) returns (ok: bool)
      requires Valid() && freeMap.Valid() && freeMap.numBits == NUM_SECTORS
      requires 0 <= numSectors && IndexCount(numSectors + extraSectors) <= NUM_DIRECT
      modifies this`primaryIndexTable, freeMap, freeMap.words, disk
      ensures Valid() && freeMap.Valid()
      ensures (ok, View(freeMap, disk)) == Grow(old(View(freeMap, disk)), numSectors, extraSectors, junk)
    {
      var n: nat := numSectors;
      ghost var x := View(freeMap, disk);
      ghost var grown := Grow(x, n, extraSectors, junk);
      LastEntry(n, extraSectors);
      var initialEntries := Entries(n);
      var entries := Entries(n + extraSectors);
      var used := InLast(n);
      if used != 0 && !IsSector(primaryIndexTable[initialEntries - 1]) {
        assert grown == (false, x) by { GrowStops(x, n, extraSectors, junk); }
        return false;
      }
      var left := FillLastIndex(freeMap, disk, initialEntries, extraSectors);
      ghost var y := View(freeMap, disk);
      LastFilled(x, n, extraSectors, junk, y, initialEntries, left, grown);
      ok := AddIndexBlocks(freeMap, disk, initialEntries, entries, left, junk);
    }

    /** The last index sector takes as many of the extra data sectors as it has room for. */
    method FillLastIndex(freeMap: BitMap, disk: SynchDisk, entries: nat, extraSectors: nat) returns (left: nat)
      requires Valid() && freeMap.Valid() && freeMap.numBits == NUM_SECTORS
      requires 0 <= numSectors
      requires Used(numSectors) != 0 ==> 0 < entries <= NUM_DIRECT && IsSector(primaryIndexTable[entries - 1])
      modifies freeMap, freeMap.words, disk
      ensures freeMap.Valid()
      ensures left == extraSectors - Topped(numSectors, extraSectors)
      ensures View(freeMap, disk) == if Used(numSectors) == 0 then old(View(freeMap, disk))
                                     else TopUp(old(View(freeMap, disk)), primaryIndexTable[entries - 1],
                                                Used(numSectors), Topped(numSectors, extraSectors))
    {
      left := extraSectors;
      var used := InLast(numSectors);
      if used != 0 {
        var last := primaryIndexTable[entries - 1];
        if left >= 32 - used {
          FillIndex(freeMap, disk, last, used, 32);
          left := left - (32 - used);
        } else {
          FillIndex(freeMap, disk, last, used, used + left);
          left := 0;  // the block loop has no turn to take
        }
      }
    }

    /** ExtendAllocate; ExtensionSound says what comes of it. */
    method ExtendAllocate(freeMap: BitMap, disk: SynchDisk, extraFileSize: int32, junk: nat -> Slots)
        returns (outcome: Outcome)
      requires Valid() && freeMap.Valid() && freeMap.numBits == NUM_SECTORS
      requires 0 <= extraFileSize && Extendable(numSectors, numBytes, numBytes + extraFileSize)
      modifies this`numBytes, this`numSectors, this`primaryIndexTable, freeMap, freeMap.words, disk
      ensures Valid() && freeMap.Valid()
      ensures (outcome, Value(), View(freeMap, disk))
              == ExtendResult(old(Value()), old(View(freeMap, disk)), old(numBytes) + extraFileSize, junk)
    {
      ghost var h, x := Value(), View(freeMap, disk);
      var bytes := numBytes + extraFileSize;
      var needed := Sectors(bytes);
      var extraSectors := Sectors(extraFileSize);
      ghost var result := ExtendResult(h, x, bytes, junk);
      numBytes := bytes;
      if needed <= numSectors {
        ExtendFits(h, x, bytes, junk, result);
        return Allocated;
      }
      ExtendStarts(h, bytes, extraSectors);
      outcome := AddSectors(freeMap, disk, extraSectors, junk);
      ExtendDone(h, x, bytes, extraSectors, junk, result, outcome, View(freeMap, disk));
    }

    /** The guard and the growth for a number of extra sectors. */
    method AddSectors(freeMap: BitMap, disk: SynchDisk, extraSectors: nat, junk: nat -> Slots) returns (outcome: Outcome)
      requires Valid() && freeMap.Valid() && freeMap.numBits == NUM_SECTORS
      requires 0 <= numSectors && numSectors + extraSectors < 0x8000_0000 && IndexCount(numSectors + extraSectors) <= NUM_DIRECT
      modifies this`numSectors, this`primaryIndexTable, freeMap, freeMap.words, disk
      ensures Valid() && freeMap.Valid()
      ensures (outcome, View(freeMap, disk)) == Extension(old(View(freeMap, disk)), old(numSectors), extraSectors, junk)
      ensures (outcome, Value(), View(freeMap, disk)) == Extended(old(Value()), numBytes, extraSectors, outcome, View(freeMap, disk))
    {
      var clear := freeMap.NumClear();
      if clear < extraSectors {
        return NoSpace;
      }
      var ok := GrowIndex(freeMap, disk, extraSectors, junk);
      if !ok {
        return Aborted;
      }
      numSectors := numSectors + extraSectors;
      outcome := Allocated;
    }

    /** Deallocate frees exactly the sectors the file owns. */
    method Deallocate(freeMap: BitMap, disk: SynchDisk)
      requires Valid() && freeMap.Valid() && freeMap.numBits == NUM_SECTORS
      requires Sound(Value(), Ints(disk.contents)) && Elements(Owned(Value(), Ints(disk.contents))) <= freeMap.marked
      modifies freeMap, freeMap.words
      ensures freeMap.Valid()
      ensures freeMap.marked == old(freeMap.marked) - Elements(Owned(Value(), Ints(disk.contents)))
    {
      ghost var v := Ints(disk.contents);
      ReleasedMeaning(freeMap.marked, primaryIndexTable, v, 0, numSectors);
      var entries := Entries(numSectors);
      var left, i := numSectors as nat, 0;
      while i < entries
        invariant 0 <= i <= entries
        invariant freeMap.Valid()
        invariant i < entries ==> entries - i == IndexCount(left)
        invariant i < entries ==> Reserved(OwnedFrom(primaryIndexTable, v, i, left), freeMap.marked)
        invariant Released(freeMap.marked, primaryIndexTable, v, i, if i < entries then left else 0)
                  == Released(old(freeMap.marked), primaryIndexTable, v, 0, numSectors)
      {
        BlockInOwned(primaryIndexTable, v, i, left, freeMap.marked);
        var marked := freeMap.Test(primaryIndexTable[i]);
        assert marked;
        var data := disk.ReadSector(primaryIndexTable[i]);
        var slots: Slots := SectorToInts(data);
        IntsAt(disk.contents, primaryIndexTable[i]);
        ClearSectors(freeMap, slots, if left < 32 then left else 32);
        freeMap.Clear(primaryIndexTable[i]);
        if left >= 32 {
          left := left - 32;
        }
        i := i + 1;
      }
    }

    static method ClearSectors(freeMap: BitMap, slots: Slots, count: nat)
      requires freeMap.Valid() && freeMap.numBits == NUM_SECTORS && count <= 32
      requires AllSectors(slots[..count])
      modifies freeMap, freeMap.words
      ensures freeMap.Valid()
      ensures freeMap.marked == old(freeMap.marked) - Elements(slots[..count])
    {
      for j := 0 to count
        invariant freeMap.Valid()
        invariant freeMap.marked == old(freeMap.marked) - Elements(slots[..j])
      {
        assert slots[j] in slots[..count];
        assert slots[..j + 1] == slots[..j] + [slots[j]];
        freeMap.Clear(slots[j]);
      }
    }

    /** Which disk sector holds the byte at this offset. */
    method ByteToSector(disk: SynchDisk, offset: int) returns (sector: int)
      requires Valid() && Sound(Value(), Ints(disk.contents))
      requires 0 <= offset < numSectors * 128
      ensures sector == DataSector(Value(), Ints(disk.contents), offset / 128)
    {
      var i := offset / (128 * 32);
      var slot := offset % (128 * 32) / 128;
      OffsetSplit(offset);
      assert offset / 128 < numSectors;
      DataBlock(Value(), Ints(disk.contents), offset / 128);
      var data := disk.ReadSector(primaryIndexTable[i]);
      IntsAt(disk.contents, primaryIndexTable[i]);
      sector := SectorToInts(data)[slot];
    }
  }
}
