/** What ExtendAllocate does to the bytes of a file, and to everyone else's. */
module FileGrowth {
  import opened Arith
  import opened BitMaps
  import opened Codec
  import opened Disks
  import opened FileIndex
  import opened FileHeaders
  import opened FileBytes
  import opened SectorRuns
  import opened Regrowth

  lemma {:induction false} IntsDetermine(d: Platter, e: Platter, s: int)
    requires IsSector(s) && Ints(d)[s] == Ints(e)[s]
    ensures d[s] == e[s]
  {
    IntsAt(d, s);
    IntsAt(e, s);
    SectorRoundTrip(d[s]);
    SectorRoundTrip(e[s]);
  }

  /** The last index sector of a file of n data sectors is written to by a growth. */
  ghost predicate Rewritten(primary: seq<int32>, n: nat, s: int) {
    Used(n) != 0 && 0 < IndexCount(n) <= |primary| && primary[IndexCount(n) - 1] == s
  }

  /** A growth writes no marked sector but the file's last, partly filled index sector. */
  lemma {:induction false} ExtensionFrame(x: Image, n: nat, e: nat, junk: nat -> Slots, s: int)
    requires IndexCount(n + e) <= |x.primary| && IsSector(s) && s in x.marks && !Rewritten(x.primary, n, s)
    ensures Extension(x, n, e, junk).1.disk[s] == x.disk[s]
  {
    GrowthCounts(n, e);
    if ClearCount(x.marks, NUM_SECTORS) >= e {
      if Used(n) == 0 {
        AddBlocksFrame(x, IndexCount(n), e, junk);
      } else {
        var last := x.primary[IndexCount(n) - 1];
        if IsSector(last) {
          var y := TopUp(x, last, Used(n), Topped(n, e));
          TakeSlotsGrows(x.marks, Listed(x.disk, last), Used(n), Used(n) + Topped(n, e));
          AddBlocksFrame(y, IndexCount(n), e - Topped(n, e), junk);
        }
      }
    }
  }

  /** The data sectors of a file are its owned sectors with the index sectors left out, so a file
      that gained sectors behind its old ones has its old data sectors in place. */
  lemma {:induction false} DataPrefix(h: Header, v: IntPlatter, g: Header, w: IntPlatter, k: nat)
    requires Sound(h, v) && Sound(g, w) && Owned(h, v) <= Owned(g, w)
    requires k < h.numSectors <= g.numSectors
    ensures Data(h, v)[k] == Data(g, w)[k]
  {
    DataAt(h, v, k);
    DataAt(g, w, k);
    DataBlock(h, v, k);
    DataBlock(g, w, k);
  }

  lemma {:induction false} PrefixBytes(ds: seq<int>, d: Platter, es: seq<int>, e: Platter, n: nat)
    requires Layout(ds) && Layout(es) && n <= |ds| * 128 && |ds| <= |es|
    requires forall k :: 0 <= k < |ds| ==> ds[k] == es[k] && e[ds[k]] == d[ds[k]]
    ensures BytesOn(ds, d, n) == BytesOn(es, e, n)
  {
    forall o | 0 <= o < n
      ensures ByteOn(ds, d, o) == ByteOn(es, e, o)
    {
      assert o / 128 < |ds|;
    }
  }

  /** A file of header h on disk d, all of whose sectors the map marks, is grown by e data sectors
      on that map; g is the header and d' the disk afterwards. */
  ghost predicate Grows(h: Header, d: Platter, m: set<int>, e: nat, junk: nat -> Slots, g: Header, d': Platter) {
    && Sound(h, Ints(d)) && Elements(Owned(h, Ints(d))) <= m
    && 0 < e && h.numSectors + e < 0x8000_0000 && IndexCount(h.numSectors + e) <= NUM_DIRECT
    && e + IndexCount(h.numSectors + e) - IndexCount(h.numSectors) <= ClearCount(m, NUM_SECTORS)
    && h.numBytes <= g.numBytes <= (h.numSectors + e) * 128
    && var (outcome, x) := Extension(Image(m, h.primary, Ints(d)), h.numSectors, e, junk);
    Ints(d') == x.disk && SameExtent(g, Extend(h, x.primary, e, g.numBytes))
  }

  /** Headers that differ in nothing but times, type and visits. */
  predicate SameExtent(h: Header, g: Header) {
    g.primary == h.primary && g.numSectors == h.numSectors && g.numBytes == h.numBytes
  }

  /** Nothing about a file depends on the times in its header. */
  lemma {:induction false} TimesDoNotMatter(h: Header, g: Header, d: Platter)
    requires Sound(h, Ints(d)) && SameExtent(h, g)
    ensures Sound(g, Ints(d)) && Owned(g, Ints(d)) == Owned(h, Ints(d)) && Data(g, Ints(d)) == Data(h, Ints(d))
    ensures Content(g, d) == Content(h, d)
  {
  }

  /** The grown file is usable and keeps its sectors; what it gained was free. */
  lemma {:induction false} GrowthSectors(h: Header, d: Platter, m: set<int>, e: nat, junk: nat -> Slots, g: Header, d': Platter)
    requires Grows(h, d, m, e, junk, g, d')
    ensures Sound(g, Ints(d')) && Owned(h, Ints(d)) <= Owned(g, Ints(d'))
    ensures Elements(Owned(g, Ints(d'))[|Owned(h, Ints(d))|..]) !! m
  {
    var x := Image(m, h.primary, Ints(d));
    var x' := Extension(x, h.numSectors, e, junk).1;
    ExtensionSound(h, x, e, g.numBytes, junk);
    TimesDoNotMatter(Extend(h, x'.primary, e, g.numBytes), g, d');
  }

  /** Marked sectors other than the rewritten index sector keep their contents. */
  lemma {:induction false} GrowthFrame(h: Header, d: Platter, m: set<int>, e: nat, junk: nat -> Slots, g: Header, d': Platter, s: int)
    requires Grows(h, d, m, e, junk, g, d') && IsSector(s) && s in m && !Rewritten(h.primary, h.numSectors, s)
    ensures d'[s] == d[s]
  {
    ExtensionFrame(Image(m, h.primary, Ints(d)), h.numSectors, e, junk, s);
    IntsDetermine(d', d, s);
  }

  lemma {:induction false} DataKept(h: Header, d: Platter, m: set<int>, e: nat, junk: nat -> Slots, g: Header, d': Platter, k: nat)
    requires Grows(h, d, m, e, junk, g, d') && k < h.numSectors
    ensures IsSector(Data(h, Ints(d))[k]) && d'[Data(h, Ints(d))[k]] == d[Data(h, Ints(d))[k]]
  {
    var s := Data(h, Ints(d))[k];
    DataAt(h, Ints(d), k);
    DataBlock(h, Ints(d), k);
    DataIsOwned(h, Ints(d), s);
    if Rewritten(h.primary, h.numSectors, s) {
      IndexNotData(h, Ints(d), IndexCount(h.numSectors) - 1);
      assert false;
    }
    GrowthFrame(h, d, m, e, junk, g, d', s);
  }

  /** Growing a file keeps every byte it had. */
  lemma {:induction false} GrowthKeepsBytes(h: Header, d: Platter, m: set<int>, e: nat, junk: nat -> Slots, g: Header, d': Platter)
    requires Grows(h, d, m, e, junk, g, d')
    ensures Sound(g, Ints(d')) && Content(g, d')[..h.numBytes] == Content(h, d)
  {
    GrowthSectors(h, d, m, e, junk, g, d');
    DataLayout(h, Ints(d));
    DataLayout(g, Ints(d'));
    var ds, es := Data(h, Ints(d)), Data(g, Ints(d'));
    forall k | 0 <= k < |ds|
      ensures ds[k] == es[k] && d'[ds[k]] == d[ds[k]]
    {
      DataPrefix(h, Ints(d), g, Ints(d'), k);
      DataKept(h, d, m, e, junk, g, d', k);
    }
    PrefixBytes(ds, d, es, d', h.numBytes);
    assert Content(g, d')[..h.numBytes] == BytesOn(es, d', h.numBytes);
  }

  // ---- A file lengthened to some number of bytes ----

  /** ExtendAllocate answered yes: g and d' are header and disk after lengthening a file to g.numBytes. */
  ghost predicate Lengthened(h: Header, d: Platter, m: set<int>, junk: nat -> Slots, g: Header, d': Platter) {
    && Sound(h, Ints(d)) && Elements(Owned(h, Ints(d))) <= m && h.numBytes <= g.numBytes
    && if NeedsSectors(h.numSectors, g.numBytes) then Grows(h, d, m, SectorCount(g.numBytes - h.numBytes), junk, g, d')
       else d' == d && SameExtent(g, h.(numBytes := g.numBytes))
  }

  lemma {:induction false} MoreBytes(h: Header, g: Header, d: Platter)
    requires Sound(h, Ints(d)) && SameExtent(g, h.(numBytes := g.numBytes))
    requires h.numBytes <= g.numBytes && !NeedsSectors(h.numSectors, g.numBytes)
    ensures Sound(g, Ints(d)) && Owned(g, Ints(d)) == Owned(h, Ints(d)) && Content(g, d)[..h.numBytes] == Content(h, d)
  {
    SectorCountLeast(g.numBytes, h.numSectors);
    DataLayout(h, Ints(d));
    assert Content(g, d)[..h.numBytes] == BytesOn(Data(h, Ints(d)), d, h.numBytes);
  }

  lemma {:induction false} Unshared(a: seq<int>, b: seq<int>, m: set<int>, s: int)
    requires a <= b && s !in a && s in m && Elements(b[|a|..]) !! m
    ensures s !in b
  {
    forall k | 0 <= k < |b|
      ensures b[k] != s
    {
      if k < |a| {
        assert b[k] == a[k];
      } else {
        assert b[k] == b[|a|..][k - |a|];
      }
    }
  }

  /** A lengthened file keeps its bytes; a marked sector that it did not own it does not own
      afterwards either, and keeps its contents. */
  lemma {:induction false} LengthenedMeaning(h: Header, d: Platter, m: set<int>, junk: nat -> Slots, g: Header, d': Platter)
    requires Lengthened(h, d, m, junk, g, d')
    ensures Sound(g, Ints(d')) && Content(g, d')[..h.numBytes] == Content(h, d)
    ensures Owned(h, Ints(d)) <= Owned(g, Ints(d')) && Elements(Owned(g, Ints(d'))[|Owned(h, Ints(d))|..]) !! m
    ensures forall s {:trigger d'[s]} {:trigger s in Owned(g, Ints(d'))} :: IsSector(s) && s in m && s !in Owned(h, Ints(d)) ==> s !in Owned(g, Ints(d')) && d'[s] == d[s]
  {
    if NeedsSectors(h.numSectors, g.numBytes) {
      var e := SectorCount(g.numBytes - h.numBytes);
      GrowthKeepsBytes(h, d, m, e, junk, g, d');
      GrowthSectors(h, d, m, e, junk, g, d');
      forall s | IsSector(s) && s in m && s !in Owned(h, Ints(d))
        ensures s !in Owned(g, Ints(d')) && d'[s] == d[s]
      {
        Unshared(Owned(h, Ints(d)), Owned(g, Ints(d')), m, s);
        NotRewritten(h, Ints(d), s);
        GrowthFrame(h, d, m, e, junk, g, d', s);
      }
    } else {
      MoreBytes(h, g, d);
    }
  }

  /** A file that is given sectors is given the lowest clear one. */
  lemma {:induction false} TakesLowest(h: Header, d: Platter, m: set<int>, junk: nat -> Slots, g: Header, d': Platter)
    requires Lengthened(h, d, m, junk, g, d') && NeedsSectors(h.numSectors, g.numBytes)
    ensures WellFormed(g) && LowestClear(m, NUM_SECTORS) in Owned(g, Ints(d'))
  {
    var e := SectorCount(g.numBytes - h.numBytes);
    var x' := Extension(Image(m, h.primary, Ints(d)), h.numSectors, e, junk).1;
    var l, before, added := LowestClear(m, NUM_SECTORS), OwnedFrom(x'.primary, x'.disk, 0, h.numSectors),
                            Added(x'.primary, x'.disk, 0, h.numSectors, e);
    assert l in added by { LowestAdded(h, d, m, e, junk, g, d'); }
    assert WellFormed(g) && Owned(g, Ints(d')) == before + added by { ExtendedOwned(h, x'.primary, x'.disk, e, g.numBytes); }
    InConcat(l, before, added);
  }

  lemma {:induction false} LowestAdded(h: Header, d: Platter, m: set<int>, e: nat, junk: nat -> Slots, g: Header, d': Platter)
    requires Grows(h, d, m, e, junk, g, d')
    ensures var x' := Extension(Image(m, h.primary, Ints(d)), h.numSectors, e, junk).1;
            IndexCount(h.numSectors) <= NUM_DIRECT && LowestClear(m, NUM_SECTORS) in Added(x'.primary, x'.disk, 0, h.numSectors, e)
  {
    var x := Image(m, h.primary, Ints(d));
    assert Extension(x, h.numSectors, e, junk).0 == Allocated by { ExtensionSound(h, x, e, g.numBytes, junk); }
    assert LowestClear(m, NUM_SECTORS) != -1 by { FindTakesOne(m, NUM_SECTORS); LastEntry(h.numSectors, e); }
    FirstTaken(x, h.numSectors, e, junk);
  }

  lemma {:induction false} NotRewritten(h: Header, v: IntPlatter, s: int)
    requires Sound(h, v) && s !in Owned(h, v)
    ensures !Rewritten(h.primary, h.numSectors, s)
  {
    if Rewritten(h.primary, h.numSectors, s) {
      IndexIsOwned(h, v, IndexCount(h.numSectors) - 1);
      assert false;
    }
  }
}
