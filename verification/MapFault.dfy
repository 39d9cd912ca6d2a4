/** A disk on which a growing write leaves the map behind. */
module MapFaults {
  import opened Arith
  import opened BitMaps
  import opened BitWords
  import opened Codec
  import opened Disks
  import opened FileIndex
  import opened FileHeaders
  import opened FileBytes
  import opened FileGrowth
  import opened SectorRuns
  import opened OpenFiles

  // ---- Every growth that is not refused happens ----

  ghost function SectorsOf(v: seq<Slots>): (ss: seq<Sector>)
    ensures |ss| == |v|
  {
    if v == [] then [] else SectorsOf(v[..|v| - 1]) + [IntsToSector(v[|v| - 1])]
  }

  lemma {:induction false} IntsOfSectors(v: seq<Slots>)
    ensures IntsOf(SectorsOf(v)) == v
  {
    if v != [] {
      IntsOfSectors(v[..|v| - 1]);
      IntsRoundTrip(v[|v| - 1]);
      assert SectorsOf(v)[..|v| - 1] == SectorsOf(v[..|v| - 1]);
      assert v == v[..|v| - 1] + [v[|v| - 1]];
    }
  }

  lemma {:induction false} GrowthHappens(d: Platter, sector: int, bytes: nat, now: int32, junk: nat -> Slots) returns (e: Platter)
    requires Growable(d, sector, bytes)
    requires !Refused(HeaderAt(d, sector).numSectors, HeaderAt(d, sector).numBytes, MapOn(d), bytes)
    ensures GrownTo(d, sector, bytes, e)
  {
    var h, d1 := HeaderAt(d, sector), Stamped(d, 0, now);
    GrowthStarts(d, sector, h, bytes, now);
    var (outcome, g, x) := ExtendResult(h, Image(MapOn(d), h.primary, Ints(d1)), bytes, junk);
    var d': Platter := SectorsOf(x.disk);
    IntsOfSectors(x.disk);
    LengthenResult(h, d1, MapOn(d), junk, outcome, x.marks, g, d');
    e := d'[sector := ToSector(g)];
    GrowthEnds(d, sector, h, bytes, now, junk, g, d', e);
  }

  // ---- A small disk ----

  /** A map sector that marks the first eight bits of its first word, and none of the second. */
  predicate LowByte(s: Sector) { ToWords(s)[0] == 255 && ToWords(s)[1] == 0 }

  /** The map file has its header in sector 0, its index in 2 and its data in 3, which marks the first
      eight sectors; sector 4 is the header of a file of no bytes. */
  ghost predicate Small(d: Platter) {
    var h, g := HeaderAt(d, 0), HeaderAt(d, 4);
    && h.numBytes == 128 && h.numSectors == 1 && h.primary[0] == 2 && Ints(d)[2][0] == 3
    && LowByte(d[3])
    && g.numBytes == g.numSectors == 0
  }

  lemma {:induction false} Build(h: Header, slots: Slots, bits: Sector, g: Header) returns (d: Platter)
    requires |h.primary| == |g.primary| == NUM_DIRECT
    ensures HeaderAt(d, 0) == h && Ints(d)[2] == slots && d[3] == bits && HeaderAt(d, 4) == g
  {
    d := seq<Sector>(NUM_SECTORS, i => BlankSector());
    d := d[0 := ToSector(h)][2 := IntsToSector(slots)][3 := bits][4 := ToSector(g)];
    HeaderRoundTrip(h);
    HeaderRoundTrip(g);
    IntsAt(d, 2);
    IntsRoundTrip(slots);
  }

  lemma {:induction false} MapSector(ws: seq<uint32>) returns (bits: Sector)
    requires |ws| == 32 && ws[0] == 255 && ws[1] == 0
    ensures LowByte(bits)
  {
    bits := ToBytes(ws);
    StoreThenLoad(ws);
  }

  lemma {:induction false} SmallExists() returns (d: Platter)
    ensures Small(d)
  {
    var primary := seq(NUM_DIRECT, i => 2);
    var slots: Slots := seq(32, i => 3);
    var bits := MapSector(seq(32, i => if i == 0 then 255 else 0));
    d := Build(Header(0, 0, 0, 1, primary, 0, 128, 1), slots, bits, Header(0, 0, 0, 0, primary, 0, 0, 0));
  }

  lemma {:induction false} OneBlock(p: seq<int32>, v: IntPlatter)
    requires |p| == NUM_DIRECT && IsSector(p[0])
    ensures IndexCount(1) == 1 && OwnedFrom(p, v, 0, 1) == [p[0] as int, v[p[0]][0] as int] && DataOf(p, v, 1) == [v[p[0]][0] as int]
  {
    assert IndexCount(0) == 0;
    assert OwnedFrom(p, v, 1, 0) == [];
    assert Listed(v, p[0])[..1] == [v[p[0]][0]];
    assert DataOf(p, v, 0) == [];
  }

  lemma {:induction false} SmallFiles(d: Platter)
    requires Small(d)
    ensures FileAt(d, 0) && Data(HeaderAt(d, 0), Ints(d)) == [3]
    ensures FileAt(d, 4) && Owned(HeaderAt(d, 4), Ints(d)) == []
  {
    OneBlock(HeaderAt(d, 0).primary, Ints(d));
    assert IndexCount(0) == 0;
  }

  lemma {:induction false} ZeroBits(k: nat)
    ensures !BitSet(0, k)
  {
    if k > 0 {
      ZeroBits(k - 1);
    }
  }

  lemma LowBits()
    ensures BitSet(255, 0) && BitSet(255, 4)
  {
    assert BitSet(15, 0) && BitSet(31, 1) && BitSet(63, 2) && BitSet(127, 3);
  }

  lemma {:induction false} SmallBits(ws: seq<uint32>)
    requires |ws| == 32 && ws[0] == 255 && ws[1] == 0
    ensures var m := MarkedBits(ws, NUM_SECTORS); 0 in m && 4 in m && 32 !in m && 33 !in m
  {
    LowBits();
    ZeroBits(0);
    ZeroBits(1);
  }

  lemma {:induction false} SmallContent(d: Platter)
    requires Small(d)
    ensures HasMap(d) && ContentAt(d, 0)[..128] == d[3]
  {
    SmallFiles(d);
    DataLayout(HeaderAt(d, 0), Ints(d));
  }

  lemma {:induction false} SmallMap(d: Platter)
    requires Small(d)
    ensures HasMap(d) && 0 in MapOn(d) && 4 in MapOn(d) && 32 !in MapOn(d) && 33 !in MapOn(d)
  {
    SmallContent(d);
    SmallBits(ToWords(d[3]));
  }

  lemma {:induction false} TwoClear(m: set<int>)
    requires 32 !in m && 33 !in m
    ensures ClearCount(m, NUM_SECTORS) >= 2
  {
    var c := ClearBits(m, NUM_SECTORS);
    assert 32 in c && 33 in c;
    assert c == {32, 33} + (c - {32, 33});
  }

  /** Writing one byte into that file leaves it with sectors that the map on disk does not mark. */
  lemma {:induction false} UnsavedMapBreaks(now: int32, junk: nat -> Slots) returns (d: Platter, e: Platter)
    ensures Small(d) && GrownTo(d, 4, 1, e) && Elements(Owned(HeaderAt(d, 4), Ints(d))) <= MapOn(d)
    ensures !(Elements(Owned(HeaderAt(e, 4), Ints(e))) <= MapOn(d))
  {
    d := SmallExists();
    SmallFiles(d);
    SmallMap(d);
    TwoClear(MapOn(d));
    assert IndexCount(0) == 0 && SectorCount(1) == 1 && IndexCount(1) == 1;
    e := GrowthHappens(d, 4, 1, now, junk);
    MapMissesNewSectors(d, 4, 1, e);
  }
}
