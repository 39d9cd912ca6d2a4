/** filesys/openfile.cc: reading and writing byte ranges of a file on a disk that moves only whole
    sectors. */
module OpenFiles {
  import opened Arith
  import opened BitMaps
  import opened Codec
  import opened Disks
  import opened FileIndex
  import opened FileHeaders
  import opened FileBytes
  import opened FileGrowth
  import opened SectorRuns
  import opened Regrowth

  // ---- Files on disk ----

  function HeaderAt(d: Platter, sector: int): Header
    requires IsSector(sector)
  {
    FromSector(d[sector])
  }

  /** The header in this sector describes a usable file that does not own the header sector. */
  ghost predicate FileAt(d: Platter, sector: int) {
    && IsSector(sector)
    && Sound(HeaderAt(d, sector), Ints(d))
    && sector !in Owned(HeaderAt(d, sector), Ints(d))
  }

  ghost function ContentAt(d: Platter, sector: int): seq<byte>
    requires FileAt(d, sector)
  {
    Content(HeaderAt(d, sector), d)
  }

  function Stamped(d: Platter, sector: int, now: int32): Platter
    requires IsSector(sector)
  {
    d[sector := ToSector(HeaderAt(d, sector).(lastVisitTime := now))]
  }

  /** Stamping a header leaves its file as it was. */
  lemma {:induction false} StampKeeps(d: Platter, sector: int, now: int32)
    requires FileAt(d, sector)
    ensures var e := Stamped(d, sector, now);
            && FileAt(e, sector)
            && HeaderAt(e, sector) == HeaderAt(d, sector).(lastVisitTime := now)
            && Owned(HeaderAt(e, sector), Ints(e)) == Owned(HeaderAt(d, sector), Ints(d))
            && ContentAt(e, sector) == ContentAt(d, sector)
  {
    var h := HeaderAt(d, sector);
    var h' := h.(lastVisitTime := now);
    var e := Stamped(d, sector, now);
    HeaderRoundTrip(h');
    OtherFileKept(h, d, e);
    TimesDoNotMatter(h, h', e);
  }

  /** Disk e is disk d with the bytes `from` written at this position of the file at `sector`. */
  ghost predicate Overwritten(d: Platter, sector: int, from: seq<byte>, position: nat, e: Platter) {
    && FileAt(d, sector) && position + |from| <= |ContentAt(d, sector)|
    && FileAt(e, sector) && HeaderAt(e, sector) == HeaderAt(d, sector)
    && Owned(HeaderAt(e, sector), Ints(e)) == Owned(HeaderAt(d, sector), Ints(d))
    && ContentAt(e, sector) == Splice(ContentAt(d, sector), from, position)
    && forall s {:trigger e[s]} :: IsSector(s) && s !in Owned(HeaderAt(d, sector), Ints(d)) ==> e[s] == d[s]
  }

  lemma {:induction false} OverwrittenBy(d: Platter, sector: int, from: seq<byte>, position: nat, e: Platter)
    requires FileAt(d, sector) && position + |from| <= |ContentAt(d, sector)|
    requires var h := HeaderAt(d, sector);
             && Sound(h, Ints(e)) && Owned(h, Ints(e)) == Owned(h, Ints(d))
             && Content(h, e) == Splice(Content(h, d), from, position)
             && forall s {:trigger e[s]} :: IsSector(s) && s !in Owned(h, Ints(d)) ==> e[s] == d[s]
    ensures Overwritten(d, sector, from, position, e)
  {
  }

  // ---- Growing files ----

  /** The bitmap kept in the file whose header is in sector 0. */
  ghost predicate HasMap(d: Platter) { FileAt(d, 0) && |ContentAt(d, 0)| >= 128 }

  ghost function MapOn(d: Platter): set<int>
    requires HasMap(d)
  {
    MarkedBits(ToWords(ContentAt(d, 0)[..128]), NUM_SECTORS)
  }

  /** A file that can be lengthened to some number of bytes: the map marks its sectors, and it has
      either too few clear sectors for the new data, which is refused, or enough for the new data
      and index sectors together. */
  ghost predicate CanLengthen(h: Header, d: Platter, m: set<int>, bytes: nat) {
    && Sound(h, Ints(d)) && Elements(Owned(h, Ints(d))) <= m
    && Extendable(h.numSectors, h.numBytes, bytes) && RoomFor(h.numSectors, h.numBytes, m, bytes)
  }

  ghost predicate RoomFor(n: nat, b: nat, m: set<int>, bytes: nat)
    requires b <= bytes
  {
    NeedsSectors(n, bytes) && !Refused(n, b, m, bytes) ==>
      var e := SectorCount(bytes - b);
      e + IndexCount(n + e) - IndexCount(n) <= ClearCount(m, NUM_SECTORS)
  }

  ghost predicate Refused(n: nat, b: nat, m: set<int>, bytes: nat)
    requires b <= bytes
  {
    NeedsSectors(n, bytes) && ClearCount(m, NUM_SECTORS) < SectorCount(bytes - b)
  }

  /** What an extension by e sectors does when there is room for it or it is refused. */
  lemma {:induction false} GrowthResult(h: Header, d: Platter, m: set<int>, e: nat, junk: nat -> Slots,
                                        outcome: Outcome, m': set<int>, g: Header, d': Platter)
    requires Sound(h, Ints(d)) && Elements(Owned(h, Ints(d))) <= m
    requires 0 < e && h.numSectors + e < 0x8000_0000 && IndexCount(h.numSectors + e) <= NUM_DIRECT
    requires e + IndexCount(h.numSectors + e) - IndexCount(h.numSectors) <= ClearCount(m, NUM_SECTORS)
             || ClearCount(m, NUM_SECTORS) < e
    requires h.numBytes <= g.numBytes <= (h.numSectors + e) * 128
    requires (outcome, Image(m', g.primary, Ints(d'))) == Extension(Image(m, h.primary, Ints(d)), h.numSectors, e, junk)
    requires outcome == Allocated ==> g.numSectors == h.numSectors + e
    ensures outcome == Allocated <==> ClearCount(m, NUM_SECTORS) >= e
    ensures outcome != Allocated ==> d' == d
    ensures outcome == Allocated ==> Grows(h, d, m, e, junk, g, d')
  {
    if ClearCount(m, NUM_SECTORS) < e {
      SameInts(d, d');
    } else {
      ExtensionSound(h, Image(m, h.primary, Ints(d)), e, g.numBytes, junk);
    }
  }

  /** What ExtendAllocate's answer means when the file can be lengthened. */
  lemma {:induction false} LengthenResult(h: Header, d: Platter, m: set<int>, junk: nat -> Slots,
                                          outcome: Outcome, m': set<int>, g: Header, d': Platter)
    requires g.numBytes >= 0 && CanLengthen(h, d, m, g.numBytes)
    requires (outcome, g, Image(m', g.primary, Ints(d'))) == ExtendResult(h, Image(m, h.primary, Ints(d)), g.numBytes, junk)
    ensures outcome == Allocated <==> !Refused(h.numSectors, h.numBytes, m, g.numBytes)
    ensures outcome != Allocated ==> d' == d
    ensures outcome == Allocated ==> Lengthened(h, d, m, junk, g, d')
  {
    if NeedsSectors(h.numSectors, g.numBytes) {
      var e := SectorCount(g.numBytes - h.numBytes);
      ExtraPositive(h, g.numBytes);
      ExtendUnfolds(h, Image(m, h.primary, Ints(d)), g.numBytes, e, junk);
      GrowthResult(h, d, m, e, junk, outcome, m', g, d');
    } else {
      SameInts(d, d');
    }
  }

  lemma {:induction false} SameInts(d: Platter, e: Platter)
    requires Ints(d) == Ints(e)
    ensures d == e
  {
    forall s | 0 <= s < NUM_SECTORS
      ensures d[s] == e[s]
    {
      IntsDetermine(d, e, s);
    }
  }

  ghost predicate Growable(d: Platter, sector: int, bytes: nat) {
    && FileAt(d, sector) && sector != 0
    && HasMap(d) && sector in MapOn(d) && 0 !in Owned(HeaderAt(d, sector), Ints(d))
    && CanLengthen(HeaderAt(d, sector), d, MapOn(d), bytes)
  }

  /** The file at `sector` keeps its sectors, and what it has gained the map does not mark. */
  ghost predicate Gained(d: Platter, e: Platter, sector: int)
    requires FileAt(d, sector) && FileAt(e, sector) && HasMap(d)
  {
    var before, after := Owned(HeaderAt(d, sector), Ints(d)), Owned(HeaderAt(e, sector), Ints(e));
    before <= after && Elements(after[|before|..]) !! MapOn(d)
  }

  /** Disk e is disk d after growing the file at `sector`: its old bytes are in place, and every
      sector that the map marks for someone else is untouched but for the map file's time stamp. */
  ghost predicate GrownTo(d: Platter, sector: int, bytes: nat, e: Platter) {
    && FileAt(d, sector) && HasMap(d)
    && FileAt(e, sector) && |ContentAt(e, sector)| == bytes >= |ContentAt(d, sector)|
    && ContentAt(e, sector)[..|ContentAt(d, sector)|] == ContentAt(d, sector)
    && Gained(d, e, sector)
    && (HeaderAt(e, sector).numSectors == HeaderAt(d, sector).numSectors <==> !NeedsSectors(HeaderAt(d, sector).numSectors, bytes))
    && (NeedsSectors(HeaderAt(d, sector).numSectors, bytes) ==>
          LowestClear(MapOn(d), NUM_SECTORS) in Owned(HeaderAt(e, sector), Ints(e)))
    && (0 in MapOn(d) ==> SameExtent(HeaderAt(d, 0), HeaderAt(e, 0)))
    && forall s {:trigger e[s]} :: IsSector(s) && s in MapOn(d) && s != sector && s != 0 && s !in Owned(HeaderAt(d, sector), Ints(d)) ==>
         e[s] == d[s]
  }

  /** Stamping the map file's header leaves every other file, and the map, as they were. */
  lemma {:induction false} StampElsewhere(d: Platter, sector: int, now: int32)
    requires FileAt(d, sector) && HasMap(d) && sector != 0 && 0 !in Owned(HeaderAt(d, sector), Ints(d))
    ensures var e := Stamped(d, 0, now);
            && FileAt(e, sector) && HeaderAt(e, sector) == HeaderAt(d, sector)
            && Owned(HeaderAt(e, sector), Ints(e)) == Owned(HeaderAt(d, sector), Ints(d))
            && ContentAt(e, sector) == ContentAt(d, sector)
            && HasMap(e) && MapOn(e) == MapOn(d)
  {
    StampKeeps(d, 0, now);
    OtherFileKept(HeaderAt(d, sector), d, Stamped(d, 0, now));
  }

  /** Disk e has the file at `sector`, with header g, that was lengthened from header h on disk d. */
  ghost predicate Regained(d: Platter, sector: int, h: Header, m: set<int>, g: Header, e: Platter) {
    && Sound(h, Ints(d)) && h.numBytes <= g.numBytes
    && FileAt(e, sector) && HeaderAt(e, sector) == g && ContentAt(e, sector)[..h.numBytes] == Content(h, d)
    && (g.numSectors == h.numSectors <==> !NeedsSectors(h.numSectors, g.numBytes))
    && (NeedsSectors(h.numSectors, g.numBytes) ==> LowestClear(m, NUM_SECTORS) in Owned(g, Ints(e)))
    && Owned(h, Ints(d)) <= Owned(g, Ints(e)) && Elements(Owned(g, Ints(e))[|Owned(h, Ints(d))|..]) !! m
    && forall s {:trigger e[s]} :: IsSector(s) && s in m && s != sector && s !in Owned(h, Ints(d)) ==> e[s] == d[s]
  }

  /** A lengthened file whose new header g goes back to its sector. */
  lemma {:induction false} LengthenedOnDisk(d: Platter, sector: int, h: Header, m: set<int>, junk: nat -> Slots, g: Header, d': Platter, e: Platter)
    requires Lengthened(h, d, m, junk, g, d') && |g.primary| == NUM_DIRECT
    requires IsSector(sector) && sector in m && sector !in Owned(h, Ints(d)) && e == d'[sector := ToSector(g)]
    ensures Regained(d, sector, h, m, g, e)
  {
    LengthenedMeaning(h, d, m, junk, g, d');
    if NeedsSectors(h.numSectors, g.numBytes) {
      TakesLowest(h, d, m, junk, g, d');
    }
    HeaderRoundTrip(g);
    OtherFileKept(g, d', e);
  }

  lemma {:induction false} GrowthStarts(d: Platter, sector: int, h: Header, bytes: nat, now: int32)
    requires Growable(d, sector, bytes) && SameExtent(h, HeaderAt(d, sector))
    ensures CanLengthen(h, Stamped(d, 0, now), MapOn(d), bytes)
  {
    StampElsewhere(d, sector, now);
    TimesDoNotMatter(HeaderAt(d, sector), h, Stamped(d, 0, now));
  }

  lemma {:induction false} GrowthEnds(d: Platter, sector: int, h: Header, bytes: nat, now: int32, junk: nat -> Slots,
                                      g: Header, d': Platter, e: Platter)
    requires Growable(d, sector, bytes) && SameExtent(h, HeaderAt(d, sector))
    requires g.numBytes == bytes && |g.primary| == NUM_DIRECT
    requires Lengthened(h, Stamped(d, 0, now), MapOn(d), junk, g, d') && e == d'[sector := ToSector(g)]
    ensures HeaderAt(e, sector) == g && GrownTo(d, sector, bytes, e)
  {
    var d1 := Stamped(d, 0, now);
    StampElsewhere(d, sector, now);
    TimesDoNotMatter(HeaderAt(d, sector), h, d1);
    LengthenedOnDisk(d1, sector, h, MapOn(d), junk, g, d', e);
    assert SameExtent(HeaderAt(d, 0), HeaderAt(d1, 0)) by { HeaderRoundTrip(HeaderAt(d, 0).(lastVisitTime := now)); }
    GrownFrom(d, d1, sector, h, g, e);
  }

  /** The growth as seen from before the map file's header was stamped. */
  lemma {:induction false} GrownFrom(d: Platter, d1: Platter, sector: int, h: Header, g: Header, e: Platter)
    requires HasMap(d) && FileAt(d, sector) && sector != 0 && 0 !in Owned(HeaderAt(d, sector), Ints(d))
    requires Regained(d1, sector, h, MapOn(d), g, e) && h.numSectors == HeaderAt(d, sector).numSectors
    requires Owned(h, Ints(d1)) == Owned(HeaderAt(d, sector), Ints(d)) && Content(h, d1) == ContentAt(d, sector)
    requires SameExtent(HeaderAt(d, 0), HeaderAt(d1, 0)) && forall s :: IsSector(s) && s != 0 ==> d1[s] == d[s]
    ensures HeaderAt(e, sector) == g && GrownTo(d, sector, g.numBytes, e)
  {
    if 0 in MapOn(d) {
      assert e[0] == d1[0];
    }
  }

  /** Headers of one file, whatever its length. */
  predicate SameIdentity(h: Header, g: Header) {
    && h.createTime == g.createTime && h.lastVisitTime == g.lastVisitTime && h.lastWriteTime == g.lastWriteTime
    && h.fileType == g.fileType && h.numVisits == g.numVisits
  }

  /** What WriteAt may do. */
  ghost predicate Written(d: Platter, sector: int, from: seq<byte>, position: nat, now: int32,
                          written: nat, grown: Platter, e: Platter)
    requires FileAt(d, sector)
  {
    if from == [] then written == 0 && e == d
    else if position + |from| <= |ContentAt(d, sector)| then
      written == |from| && Overwritten(d, sector, from, position, e)
    else
      && Growable(d, sector, position + |from|)
      && if Refused(HeaderAt(d, sector).numSectors, |ContentAt(d, sector)|, MapOn(d), position + |from|) then written == 0 && e == Stamped(d, 0, now)
         else && written == |from|
              && GrownTo(d, sector, position + |from|, grown)
              && SameIdentity(HeaderAt(grown, sector), HeaderAt(d, sector).(lastVisitTime := now, lastWriteTime := now))
              && Overwritten(grown, sector, from, position, e)
  }

  /** ExtendAllocate on the map and the disk d as WriteAt finds them makes header g out of h, and leaves disk d'. */
  ghost predicate Extends(d: Platter, h: Header, bytes: nat, now: int32, junk: nat -> Slots, outcome: Outcome, g: Header, d': Platter)
    requires HasMap(d) && Extendable(h.numSectors, h.numBytes, bytes) && |h.primary| == NUM_DIRECT
  {
    var r := ExtendResult(h, Image(MapOn(d), h.primary, Ints(Stamped(d, 0, now))), bytes, junk);
    outcome == r.0 && g == r.1 && Ints(d') == r.2.disk
  }

  /** A growth of a file that can be lengthened: refused exactly when there are too few sectors, and otherwise carried out. */
  lemma {:induction false} GrowthMeaning(d: Platter, sector: int, h: Header, bytes: nat, now: int32, junk: nat -> Slots,
                                         outcome: Outcome, g: Header, d': Platter, e: Platter)
    requires Growable(d, sector, bytes) && SameExtent(h, HeaderAt(d, sector)) && |h.primary| == NUM_DIRECT
    requires Extends(d, h, bytes, now, junk, outcome, g, d') && |g.primary| == NUM_DIRECT
    requires e == if outcome == Allocated then d'[sector := ToSector(g)] else d'
    ensures outcome == Allocated <==> !Refused(h.numSectors, h.numBytes, MapOn(d), bytes)
    ensures outcome != Allocated ==> e == Stamped(d, 0, now)
    ensures outcome == Allocated ==> HeaderAt(e, sector) == g && GrownTo(d, sector, bytes, e) && SameIdentity(g, h)
  {
    GrowthStarts(d, sector, h, bytes, now);
    var r := ExtendResult(h, Image(MapOn(d), h.primary, Ints(Stamped(d, 0, now))), bytes, junk);
    LengthenResult(h, Stamped(d, 0, now), MapOn(d), junk, outcome, r.2.marks, g, d');
    if outcome == Allocated {
      GrowthEnds(d, sector, h, bytes, now, junk, g, d', e);
    }
  }

  class OpenFile {
    const disk: SynchDisk
    const hdr: FileHeader
    const hdrSectorNumber: int
    var seekPosition: int

    /** Opening a file stamps its last visit on its header and changes nothing else. */
    constructor (disk: SynchDisk, sector: int, now: int32)
      requires IsSector(sector)
      modifies disk
      ensures this.disk == disk && hdrSectorNumber == sector && fresh(hdr) && seekPosition == 0
      ensures hdr.Valid()
      ensures disk.contents == Stamped(old(disk.contents), sector, now)
    {
      this.disk := disk;
      hdrSectorNumber := sector;
      hdr := new FileHeader();
      seekPosition := 0;
      new;
      hdr.FetchFrom(disk, sector);
      hdr.lastVisitTime := now;
      hdr.WriteBack(disk, sector);
    }

    /** The file whose header h is in memory has its data in sectors ds of disk d. */
    ghost predicate Laid(h: Header, d: Platter, ds: seq<int>)
      reads hdr
    {
      hdr.Valid() && hdr.Value() == h && Sound(h, Ints(d)) && Layout(ds) && ds == Data(h, Ints(d))
    }

    method DataSectorAt(i: nat, ghost h: Header, ghost ds: seq<int>) returns (sector: int)
      requires Laid(h, disk.contents, ds) && i < |ds|
      ensures sector == ds[i] && IsSector(sector)
    {
      DataAt(h, Ints(disk.contents), i);
      assert IsSector(ds[i]);
      sector := hdr.ByteToSector(disk, i * 128);
      assert i * 128 / 128 == i;
    }

    method ReadSectorAt(i: nat, ghost h: Header, ghost ds: seq<int>) returns (data: Sector)
      requires Laid(h, disk.contents, ds) && i < |ds|
      ensures IsSector(ds[i]) && data == disk.contents[ds[i]]
    {
      var sector := DataSectorAt(i, h, ds);
      data := disk.ReadSector(sector);
    }

    /** Fetch data sectors first..last into a buffer. */
    method ReadSectors(first: nat, last: nat, ghost h: Header, ghost ds: seq<int>) returns (buf: seq<byte>)
      requires Laid(h, disk.contents, ds) && first <= last < |ds|
      ensures buf == ReadRun(ds, disk.contents, first, last + 1)
    {
      buf := [];
      for i := first to last + 1
        invariant buf == ReadRun(ds, disk.contents, first, i)
      {
        var data := ReadSectorAt(i, h, ds);
        ReadRunStep(ds, disk.contents, first, i);
        buf := buf + data;
      }
    }

    /** Write data sector i, with the sectors of the run below it already written. */
    method WriteSectorAt(first: nat, i: nat, buf: seq<byte>, ghost h: Header, ghost d: Platter, ghost ds: seq<int>)
      requires Laid(h, d, ds) && first <= i < |ds| && |buf| >= (i + 1 - first) * 128
      requires disk.contents == WriteRun(ds, d, first, i, buf)
      modifies disk
      ensures disk.contents == WriteRun(ds, d, first, i + 1, buf)
    {
      RunKeepsIndex(h, d, ds, first, i, buf);
      var sector := DataSectorAt(i, h, ds);
      disk.WriteSector(sector, Piece(buf, i - first));
    }

    /** Write data sectors first..last from a buffer. */
    method WriteSectors(first: nat, last: nat, buf: seq<byte>, ghost h: Header, ghost ds: seq<int>)
      requires Laid(h, disk.contents, ds) && first <= last < |ds| && |buf| == (1 + last - first) * 128
      modifies disk
      ensures disk.contents == WriteRun(ds, old(disk.contents), first, last + 1, buf)
    {
      ghost var d := disk.contents;
      for i := first to last + 1
        invariant Laid(h, d, ds)
        invariant disk.contents == WriteRun(ds, d, first, i, buf)
      {
        WriteSectorAt(first, i, buf, h, d, ds);
      }
    }

    /** Bring the header in from disk. */
    method Refresh(now: int32) returns (ghost h: Header, ghost ds: seq<int>)
      requires FileAt(disk.contents, hdrSectorNumber)
      modifies hdr
      ensures h == HeaderAt(disk.contents, hdrSectorNumber).(lastVisitTime := now)
      ensures Laid(h, disk.contents, ds)
      ensures 0 <= hdr.numBytes <= |ds| * 128
      ensures ContentAt(disk.contents, hdrSectorNumber) == BytesOn(ds, disk.contents, hdr.numBytes)
    {
      hdr.FetchFrom(disk, hdrSectorNumber);
      hdr.lastVisitTime := now;
      h := hdr.Value();
      TimesDoNotMatter(HeaderAt(disk.contents, hdrSectorNumber), h, disk.contents);
      DataLayout(h, Ints(disk.contents));
      ds := Data(h, Ints(disk.contents));
    }

    /** The first and last data sectors of a byte range. */
    static method Touched(position: nat, count: nat) returns (first: nat, last: nat)
      requires 0 < count
      ensures Spans(first, last, position, count)
    {
      first := position / 128;
      last := (position + count - 1) / 128;
    }

    /** Read the sectors around a byte range and keep the range. */
    method ReadRange(count: nat, position: nat, ghost h: Header, ghost ds: seq<int>, ghost n: nat)
        returns (into: seq<byte>)
      requires Laid(h, disk.contents, ds)
      requires n <= |ds| * 128 && 0 < count && position + count <= n
      ensures into == BytesOn(ds, disk.contents, n)[position..position + count]
    {
      var firstSector, lastSector := Touched(position, count);
      SliceOfRun(ds, disk.contents, n, position, count, firstSector, lastSector);
      var buf := ReadSectors(firstSector, lastSector, h, ds);
      var skip := position - firstSector * 128;
      into := buf[skip..skip + count];
    }

    /** Clip the request to the file's length and read it. */
    method ReadClipped(numBytes: int, position: nat, ghost h: Header, ghost ds: seq<int>) returns (into: seq<byte>)
      requires Laid(h, disk.contents, ds)
      requires 0 <= hdr.numBytes <= |ds| * 128
      ensures into == Slice(BytesOn(ds, disk.contents, hdr.numBytes), numBytes, position)
    {
      var fileLength := hdr.numBytes;
      if numBytes <= 0 || position >= fileLength {
        return [];
      }
      var count := if position + numBytes > fileLength then fileLength - position else numBytes;
      into := ReadRange(count, position, h, ds, fileLength);
    }

    /** ReadAt: exactly the requested bytes of the file, clipped to its length. */
    method ReadAt(numBytes: int, position: nat, now: int32) returns (into: seq<byte>)
      requires FileAt(disk.contents, hdrSectorNumber)
      modifies hdr
      ensures hdr.Valid() && hdr.Value() == HeaderAt(disk.contents, hdrSectorNumber).(lastVisitTime := now)
      ensures into == Slice(ContentAt(disk.contents, hdrSectorNumber), numBytes, position)
    {
      ghost var h, ds := Refresh(now);
      into := ReadClipped(numBytes, position, h, ds);
    }

    /** Build the sectors to be written: `scratch` is what an uninitialised buffer holds. */
    method Gather(from: seq<byte>, position: nat, first: nat, last: nat, scratch: nat -> byte, now: int32)
        returns (buf: seq<byte>)
      requires hdr.Valid() && FileAt(disk.contents, hdrSectorNumber)
      requires SameExtent(hdr.Value(), HeaderAt(disk.contents, hdrSectorNumber))
      requires 0 < |from| && position + |from| <= |ContentAt(disk.contents, hdrSectorNumber)|
      requires Spans(first, last, position, |from|)
      modifies hdr
      ensures hdr.Valid() && SameExtent(hdr.Value(), HeaderAt(disk.contents, hdrSectorNumber))
      ensures |buf| == (1 + last - first) * 128
      ensures Merged(buf, first * 128, ContentAt(disk.contents, hdrSectorNumber), from, position)
    {
      ghost var c := ContentAt(disk.contents, hdrSectorNumber);
      SliceShort(c, first * 128);
      SliceShort(c, last * 128);
      buf := seq<byte>((1 + last - first) * 128, i requires 0 <= i => scratch(i));
      ghost var buf0 := buf;
      var firstAligned := position == first * 128;
      var lastAligned := position + |from| == (last + 1) * 128;
      if !firstAligned {
        var data := ReadAt(128, first * 128, now);
        buf := Splice(buf, data, 0);
      }
      ghost var buf1 := buf;
      if !lastAligned && (first != last || firstAligned) {
        var data := ReadAt(128, last * 128, now);
        buf := Splice(buf, data, (last - first) * 128);
      }
      BufferMerged(c, buf0, buf1, buf, from, position, first, last);
      buf := Splice(buf, from, position - first * 128);
    }

    /** The part of WriteAt after the file is long enough. */
    method Overwrite(from: seq<byte>, position: nat, scratch: nat -> byte, now: int32)
      requires hdr.Valid() && FileAt(disk.contents, hdrSectorNumber)
      requires SameExtent(hdr.Value(), HeaderAt(disk.contents, hdrSectorNumber))
      requires 0 < |from| && position + |from| <= |ContentAt(disk.contents, hdrSectorNumber)|
      modifies hdr, disk
      ensures hdr.Valid()
      ensures Overwritten(old(disk.contents), hdrSectorNumber, from, position, disk.contents)
    {
      ghost var d := disk.contents;
      var firstSector, lastSector := Touched(position, |from|);
      var buf := Gather(from, position, firstSector, lastSector, scratch, now);
      ghost var h := hdr.Value();
      TimesDoNotMatter(HeaderAt(d, hdrSectorNumber), h, d);
      DataLayout(h, Ints(d));
      ghost var ds := Data(h, Ints(d));
      ContentSpliced(HeaderAt(d, hdrSectorNumber), d, ds, buf, from, position, firstSector, lastSector);
      WriteSectors(firstSector, lastSector, buf, h, ds);
      OverwrittenBy(d, hdrSectorNumber, from, position, disk.contents);
    }

    /** WriteAt's growth: the map comes from its file and is not written back.  The ghost result is
        the disk before the header goes back.  GrowthMeaning says what comes of it. */
    method Grow(newLength: nat, junk: nat -> Slots, now: int32) returns (outcome: Outcome, ghost d': Platter)
      requires hdr.Valid() && IsSector(hdrSectorNumber) && HasMap(disk.contents)
      requires Extendable(hdr.numSectors, hdr.numBytes, newLength)
      modifies hdr, disk
      ensures hdr.Valid()
      ensures Extends(old(disk.contents), old(hdr.Value()), newLength, now, junk, outcome, hdr.Value(), d')
      ensures disk.contents == if outcome == Allocated then d'[hdrSectorNumber := ToSector(hdr.Value())] else d'
    {
      var freeMap := FetchMap(now);
      outcome := hdr.ExtendAllocate(freeMap, disk, newLength - hdr.numBytes, junk);
      d' := disk.contents;
      if outcome == Allocated {
        hdr.WriteBack(disk, hdrSectorNumber);
      }
    }

    /** Read the bitmap out of its file, which stamps that file's header. */
    method FetchMap(now: int32) returns (freeMap: BitMap)
      requires HasMap(disk.contents)
      modifies disk
      ensures fresh(freeMap) && fresh(freeMap.words) && freeMap.Valid() && freeMap.numBits == NUM_SECTORS
      ensures freeMap.marked == MapOn(old(disk.contents))
      ensures disk.contents == Stamped(old(disk.contents), 0, now)
    {
      StampKeeps(disk.contents, 0, now);
      freeMap := new BitMap(NUM_SECTORS);
      var freeMapFile := new OpenFile(disk, 0, now);
      var bytes := freeMapFile.ReadAt(128, 0, now);
      freeMap.Load(ToWords(bytes));
    }

    method Reload(now: int32)
      requires FileAt(disk.contents, hdrSectorNumber)
      modifies hdr
      ensures hdr.Valid() && hdr.Value() == HeaderAt(disk.contents, hdrSectorNumber).(lastVisitTime := now, lastWriteTime := now)
      ensures hdr.numBytes == |ContentAt(disk.contents, hdrSectorNumber)|
    {
      hdr.FetchFrom(disk, hdrSectorNumber);
      hdr.lastVisitTime := now;
      hdr.lastWriteTime := now;
    }

    /** WriteAt.  The ghost result is the disk between growth and transfer. */
    method WriteAt(from: seq<byte>, position: nat, scratch: nat -> byte, junk: nat -> Slots, now: int32)
        returns (written: nat, ghost grown: Platter)
      requires FileAt(disk.contents, hdrSectorNumber)
      requires from != [] && position + |from| > |ContentAt(disk.contents, hdrSectorNumber)| ==>
                 Growable(disk.contents, hdrSectorNumber, position + |from|)
      modifies hdr, disk
      ensures Written(old(disk.contents), hdrSectorNumber, from, position, now, written, grown, disk.contents)
    {
      Reload(now);
      grown := disk.contents;
      if from == [] {
        return 0, grown;
      }
      if position + |from| > hdr.numBytes {
        ghost var d, h := disk.contents, hdr.Value();
        var outcome, d' := Grow(position + |from|, junk, now);
        GrowthMeaning(d, hdrSectorNumber, h, position + |from|, now, junk, outcome, hdr.Value(), d', disk.contents);
        grown := disk.contents;
        if outcome != Allocated {
          return 0, grown;
        }
      }
      Overwrite(from, position, scratch, now);
      written := |from|;
    }

    method Seek(position: int)
      modifies this`seekPosition
      ensures seekPosition == position
    {
      seekPosition := position;
    }

    /** Read: the bytes at the seek position, which moves past them. */
    method Read(numBytes: int, now: int32) returns (into: seq<byte>)
      requires seekPosition >= 0 && FileAt(disk.contents, hdrSectorNumber)
      modifies hdr, this`seekPosition
      ensures into == Slice(ContentAt(disk.contents, hdrSectorNumber), numBytes, old(seekPosition))
      ensures seekPosition == old(seekPosition) + |into|
    {
      into := ReadAt(numBytes, seekPosition, now);
      seekPosition := seekPosition + |into|;
    }

    /** Write: WriteAt at the seek position, which moves past what was written. */
    method Write(from: seq<byte>, scratch: nat -> byte, junk: nat -> Slots, now: int32)
        returns (written: nat, ghost grown: Platter)
      requires seekPosition >= 0 && FileAt(disk.contents, hdrSectorNumber)
      requires from != [] && seekPosition + |from| > |ContentAt(disk.contents, hdrSectorNumber)| ==>
                 Growable(disk.contents, hdrSectorNumber, seekPosition + |from|)
      modifies hdr, disk, this`seekPosition
      ensures Written(old(disk.contents), hdrSectorNumber, from, old(seekPosition), now, written, grown, disk.contents)
      ensures seekPosition == old(seekPosition) + written
    {
      written, grown := WriteAt(from, seekPosition, scratch, junk, now);
      seekPosition := seekPosition + written;
    }
  }

  // ---- What a write means ----

  /** Two files with no sector in common. */
  ghost predicate Apart(d: Platter, sector: int, other: int) {
    && FileAt(d, sector) && FileAt(d, other) && other != sector
    && var mine, theirs := Owned(HeaderAt(d, sector), Ints(d)), Owned(HeaderAt(d, other), Ints(d));
    other !in mine && sector !in theirs && forall s :: s in theirs ==> s !in mine
  }

  ghost predicate Untouched(d: Platter, e: Platter, other: int) {
    && FileAt(d, other) && FileAt(e, other) && HeaderAt(e, other) == HeaderAt(d, other)
    && Owned(HeaderAt(e, other), Ints(e)) == Owned(HeaderAt(d, other), Ints(d))
    && ContentAt(e, other) == ContentAt(d, other)
  }

  lemma {:induction false} SameSectorsUntouched(d: Platter, e: Platter, other: int)
    requires FileAt(d, other) && d[other] == e[other]
    requires forall s :: s in Owned(HeaderAt(d, other), Ints(d)) ==> d[s] == e[s]
    ensures Untouched(d, e, other)
  {
    OtherFileKept(HeaderAt(d, other), d, e);
  }

  /** Overwriting bytes of one file leaves every file with disjoint sectors unchanged. */
  lemma {:induction false} OverwriteLeavesOthers(d: Platter, sector: int, from: seq<byte>, position: nat, e: Platter, other: int)
    requires Overwritten(d, sector, from, position, e) && Apart(d, sector, other)
    ensures Untouched(d, e, other) && Apart(e, sector, other)
  {
    SameSectorsUntouched(d, e, other);
  }

  /** So does growing a file, for the files that the map protects. */
  lemma {:induction false} GrowthLeavesOthers(d: Platter, sector: int, bytes: nat, e: Platter, other: int)
    requires GrownTo(d, sector, bytes, e) && Apart(d, sector, other) && other != 0
    requires other in MapOn(d) && Elements(Owned(HeaderAt(d, other), Ints(d))) <= MapOn(d)
    requires sector in MapOn(d) && 0 !in Owned(HeaderAt(d, other), Ints(d))
    ensures Untouched(d, e, other) && Apart(e, sector, other)
  {
    var mine, theirs := Owned(HeaderAt(d, sector), Ints(d)), Owned(HeaderAt(d, other), Ints(d));
    forall s | s in theirs
      ensures d[s] == e[s]
    {
      assert s in Elements(theirs);
    }
    SameSectorsUntouched(d, e, other);
    var after := Owned(HeaderAt(e, sector), Ints(e));
    forall s | s in theirs || s == other
      ensures s !in after
    {
      assert s in theirs ==> s in Elements(theirs);
      Unshared(mine, after, MapOn(d), s);
    }
  }

  /** A write changes exactly the bytes it was given, and keeps every other byte below the old
      length, whether or not the file grew. */
  lemma {:induction false} WriteMeaning(d: Platter, sector: int, from: seq<byte>, position: nat, now: int32,
                                        written: nat, grown: Platter, e: Platter)
    requires FileAt(d, sector) && Written(d, sector, from, position, now, written, grown, e) && written > 0
    ensures FileAt(e, sector)
    ensures var before, after := ContentAt(d, sector), ContentAt(e, sector);
            && |after| == (if position + |from| > |before| then position + |from| else |before|)
            && after[position..position + |from|] == from
            && forall o :: 0 <= o < |before| && !(position <= o < position + |from|) ==> after[o] == before[o]
  {
    var before, after := ContentAt(d, sector), ContentAt(e, sector);
    var mid := if position + |from| <= |before| then before else ContentAt(grown, sector);
    assert after == Splice(mid, from, position);
    SplicePrefix(before, mid, from, position);
  }

  lemma {:induction false} SplicePrefix(before: seq<byte>, mid: seq<byte>, from: seq<byte>, position: nat)
    requires |before| <= |mid| && mid[..|before|] == before && position + |from| <= |mid|
    ensures var after := Splice(mid, from, position);
            && after[position..position + |from|] == from
            && forall o :: 0 <= o < |before| && !(position <= o < position + |from|) ==> after[o] == before[o]
  {
    var after := Splice(mid, from, position);
    forall o | 0 <= o < |before| && !(position <= o < position + |from|)
      ensures after[o] == before[o]
    {
      assert mid[..|before|][o] == before[o];
    }
  }

  /** The grown file's new sectors are unknown to the map on disk, which WriteAt does not write
      back: everything the file owns is still marked exactly when it needed no new sector. */
  lemma {:induction false} MapMissesNewSectors(d: Platter, sector: int, bytes: nat, e: Platter)
    requires GrownTo(d, sector, bytes, e) && Elements(Owned(HeaderAt(d, sector), Ints(d))) <= MapOn(d)
    ensures Elements(Owned(HeaderAt(e, sector), Ints(e))) <= MapOn(d)
            <==> !NeedsSectors(HeaderAt(d, sector).numSectors, bytes)
  {
    var h, g := HeaderAt(d, sector), HeaderAt(e, sector);
    var mine, after := Owned(h, Ints(d)), Owned(g, Ints(e));
    OwnedLength(h.primary, Ints(d), 0, h.numSectors);
    OwnedLength(g.primary, Ints(e), 0, g.numSectors);
    if |after| == |mine| {
      assert after == mine;
      SameLengthSameCount(h.numSectors, g.numSectors);
    } else {
      assert after[|mine|] == after[|mine|..][0];
      assert after[|mine|] in Elements(after[|mine|..]) && after[|mine|] in Elements(after);
    }
  }

  lemma {:induction false} SameLengthSameCount(n: nat, m: nat)
    requires n + IndexCount(n) == m + IndexCount(m)
    ensures n == m
  {
    IndexCountIsCeiling(n);
    IndexCountIsCeiling(m);
  }

  // ---- Two growths on one map ----

  /** A growth leaves the map as it was, where the map marks its own file's sectors. */
  lemma {:induction false} MapStays(d: Platter, sector: int, bytes: nat, e: Platter)
    requires GrownTo(d, sector, bytes, e) && sector != 0 && 0 in MapOn(d) && Apart(d, sector, 0)
    requires Elements(Owned(HeaderAt(d, 0), Ints(d))) <= MapOn(d)
    ensures HasMap(e) && MapOn(e) == MapOn(d)
  {
    var h, mine := HeaderAt(d, 0), Owned(HeaderAt(d, 0), Ints(d));
    forall s | s in mine
      ensures d[s] == e[s]
    {
      assert s in Elements(mine);
    }
    OtherFileKept(h, d, e);
    TimesDoNotMatter(h, HeaderAt(e, 0), e);
  }

  /** Two files that need sectors and grow one after the other own a sector in common: the second growth
      starts from the map that the first one has not written back. */
  lemma {:induction false} GrowthsOverlap(d: Platter, a: int, m: nat, e: Platter, b: int, n: nat, f: Platter)
    requires GrownTo(d, a, m, e) && NeedsSectors(HeaderAt(d, a).numSectors, m)
    requires GrownTo(e, b, n, f) && NeedsSectors(HeaderAt(e, b).numSectors, n)
    requires a != 0 && 0 in MapOn(d) && Apart(d, a, 0) && Elements(Owned(HeaderAt(d, 0), Ints(d))) <= MapOn(d)
    ensures var l := LowestClear(MapOn(d), NUM_SECTORS);
            l in Owned(HeaderAt(e, a), Ints(e)) && l in Owned(HeaderAt(f, b), Ints(f))
  {
    MapStays(d, a, m, e);
  }

  /** One file that needs sectors twice owns a sector twice. */
  lemma {:induction false} RegrowthBreaks(d: Platter, sector: int, m: nat, e: Platter, n: nat, junk: nat -> Slots)
    requires GrownTo(d, sector, m, e) && NeedsSectors(HeaderAt(d, sector).numSectors, m)
    requires var h := HeaderAt(e, sector);
             && Extendable(h.numSectors, h.numBytes, n) && NeedsSectors(h.numSectors, n)
             && ExtendResult(h, Image(MapOn(d), h.primary, Ints(e)), n, junk).0 == Allocated
    ensures var h := HeaderAt(e, sector);
            var (_, g, x) := ExtendResult(h, Image(MapOn(d), h.primary, Ints(e)), n, junk);
            !Sound(g, x.disk)
  {
    var h := HeaderAt(e, sector);
    ExtendedAgain(h, Image(MapOn(d), h.primary, Ints(e)), n, junk);
  }
}
