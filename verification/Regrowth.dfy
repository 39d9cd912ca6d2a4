/** What a growth takes, and what becomes of a file that grows on a map that does not mark everything
    the file owns, as it happens when WriteAt has not written the map back. */
module Regrowth {
  import opened Arith
  import opened BitMaps
  import opened Codec
  import opened Disks
  import opened FileIndex
  import opened FileHeaders

  // ---- The first sector taken ----

  lemma {:induction false} FirstSlot(m: set<int>, slots: seq<int32>, lo: nat, hi: nat)
    requires lo < hi <= |slots|
    ensures TakeSlots(m, slots, lo, hi).1[lo] == LowestClear(m, NUM_SECTORS)
  {
    FindTakesOne(m, NUM_SECTORS);
    var next := slots[lo := LowestClear(m, NUM_SECTORS)];
    TakeSlotsMeaning(AfterFind(m, NUM_SECTORS), next, lo + 1, hi);
    var r := TakeSlots(AfterFind(m, NUM_SECTORS), next, lo + 1, hi).1;
    assert r[lo] == r[..lo + 1][lo] == next[..lo + 1][lo];
  }

  /** The blocks of a growth start with the lowest clear sector, as an index sector. */
  lemma {:induction false} FirstIndex(x: Image, i: nat, left: nat, junk: nat -> Slots)
    requires i + IndexCount(left) <= |x.primary| && left > 0 && LowestClear(x.marks, NUM_SECTORS) != -1
    ensures AddBlocks(x, i, left, junk).1.primary[i] == LowestClear(x.marks, NUM_SECTORS)
  {
    FindTakesOne(x.marks, NUM_SECTORS);
    var y := AddBlock(x, i, Fill(left), junk(i));
    AddBlocksFrame(y, i + 1, left - Fill(left), junk);
    var x' := AddBlocks(y, i + 1, left - Fill(left), junk).1;
    assert x'.primary[i] == x'.primary[..i + 1][i] == y.primary[..i + 1][i];
  }

  /** A growth of a file whose sectors are marked takes the lowest clear sector. */
  lemma {:induction false} FirstTaken(x: Image, n: nat, e: nat, junk: nat -> Slots)
    requires e > 0 && IndexCount(n) <= |x.primary| && IndexCount(n + e) <= |x.primary| && Held(x, n)
    requires Extension(x, n, e, junk).0 == Allocated && LowestClear(x.marks, NUM_SECTORS) != -1
    ensures var x' := Extension(x, n, e, junk).1;
            LowestClear(x.marks, NUM_SECTORS) in Added(x'.primary, x'.disk, 0, n, e)
  {
    var x' := Extension(x, n, e, junk).1;
    GrowthCounts(n, e);
    if Used(n) == 0 {
      AddedWhole(x'.primary, x'.disk, 0, n, e);
      FirstIndex(x, IndexCount(n), e, junk);
      IndexPosition(x'.primary, x'.disk, IndexCount(n), e, 0);
    } else {
      HeldIndex(x, n, IndexCount(n) - 1);
      PartialAdded(x, n, e, junk);
      FirstSlot(x.marks, Listed(x.disk, x.primary[IndexCount(n) - 1]), Used(n), Used(n) + Topped(n, e));
      var y := TopUp(x, x.primary[IndexCount(n) - 1], Used(n), Topped(n, e));
      assert Listed(y.disk, x.primary[IndexCount(n) - 1])[Used(n)..Used(n) + Topped(n, e)][0] == LowestClear(x.marks, NUM_SECTORS);
    }
  }

  // ---- A sector owned twice ----

  /** An owned sector is an index sector or listed by one. */
  lemma {:induction false} WhereOwned(p: seq<int32>, d: IntPlatter, i: nat, n: nat, s: int) returns (isIndex: bool, j: nat, t: nat)
    requires i + IndexCount(n) <= |p| && s in OwnedFrom(p, d, i, n)
    ensures isIndex ==> j < IndexCount(n) && p[i + j] == s
    ensures !isIndex ==> t < 32 && 32 * j + t < n && j < IndexCount(n) && Listed(d, p[i + j])[t] == s
    decreases n
  {
    var block := [p[i] as int] + Listed(d, p[i])[..Fill(n)];
    if s == p[i] {
      isIndex, j, t := true, 0, 0;
    } else if s in Listed(d, p[i])[..Fill(n)] {
      t :| 0 <= t < Fill(n) && Listed(d, p[i])[t] == s;
      isIndex, j := false, 0;
    } else {
      isIndex, j, t := WhereOwned(p, d, i + 1, n - Fill(n), s);
      j := j + 1;
    }
  }

  lemma {:induction false} IndexTwice(p: seq<int32>, d: IntPlatter, n: nat, j: nat, k: nat)
    requires IndexCount(n) <= |p| && j < k < IndexCount(n) && p[j] == p[k]
    ensures !NoDuplicates(OwnedFrom(p, d, 0, n))
  {
    IndexPosition(p, d, 0, n, j);
    IndexPosition(p, d, 0, n, k);
  }

  lemma {:induction false} IndexAndData(p: seq<int32>, d: IntPlatter, n: nat, j: nat, k: nat, t: nat)
    requires IndexCount(n) <= |p| && j < IndexCount(n) && t < 32 && 32 * k + t < n
    requires k < IndexCount(n) && p[j] == Listed(d, p[k])[t]
    ensures !NoDuplicates(OwnedFrom(p, d, 0, n))
  {
    IndexPosition(p, d, 0, n, j);
    DataPosition(p, d, 0, n, k, t);
    assert 33 * j != 33 * k + 1 + t;
  }

  lemma {:induction false} DataTwice(p: seq<int32>, d: IntPlatter, n: nat, j: nat, t: nat, k: nat, u: nat)
    requires IndexCount(n) <= |p| && t < 32 && u < 32 && 32 * j + t < 32 * k + u < n
    requires j < IndexCount(n) && k < IndexCount(n) && Listed(d, p[j])[t] == Listed(d, p[k])[u]
    ensures !NoDuplicates(OwnedFrom(p, d, 0, n))
  {
    DataPosition(p, d, 0, n, j, t);
    DataPosition(p, d, 0, n, k, u);
    assert 33 * j + 1 + t != 33 * k + 1 + u;
  }

  /** The block loop writes nothing but its index sectors. */
  lemma {:induction false} BlocksWrite(x: Image, i: nat, left: nat, junk: nat -> Slots, s: int)
    requires i + IndexCount(left) <= |x.primary| && IsSector(s)
    ensures var x' := AddBlocks(x, i, left, junk).1;
            x'.disk[s] == x.disk[s] || exists k :: i <= k < i + IndexCount(left) && x'.primary[k] == s
    decreases left
  {
    if left > 0 {
      FindTakesOne(x.marks, NUM_SECTORS);
      var y := AddBlock(x, i, Fill(left), junk(i));
      if y.primary[i] != -1 {
        BlocksWrite(y, i + 1, left - Fill(left), junk, s);
        AddBlocksFrame(y, i + 1, left - Fill(left), junk);
        var x' := AddBlocks(y, i + 1, left - Fill(left), junk).1;
        assert x'.primary[i] == x'.primary[..i + 1][i] == y.primary[..i + 1][i];
      }
    }
  }

  lemma {:induction false} RealIndex(p: seq<int32>, d: IntPlatter, n: nat, j: nat)
    requires IndexCount(n) <= |p| && AllSectors(OwnedFrom(p, d, 0, n)) && j < IndexCount(n)
    ensures IsSector(p[j])
  {
    IndexPosition(p, d, 0, n, j);
    Member(OwnedFrom(p, d, 0, n), Elements(OwnedFrom(p, d, 0, n)), 33 * j);
  }

  lemma {:induction false} LastUsed(n: nat)
    ensures Used(n) != 0 ==> 0 < IndexCount(n) && n == 32 * (IndexCount(n) - 1) + Used(n)
  {
    UsedIsRemainder(n);
    IndexCountIsCeiling(n);
  }

  /** A primary table p' that goes on with further index sectors after the ic first ones of p, and a disk
      on which the index sector q is as before unless it is among those. */
  ghost predicate GoesOn(p: seq<int32>, d: IntPlatter, p': seq<int32>, d': IntPlatter, ic: nat, total: nat, q: int) {
    && ic <= total <= |p| == |p'| && p'[..ic] == p[..ic] && IsSector(q)
    && (d'[q] == d[q] || exists k :: ic <= k < total && p'[k] == q)
  }

  lemma {:induction false} BlocksGoOn(x: Image, ic: nat, left: nat, junk: nat -> Slots, q: int)
    requires ic + IndexCount(left) <= |x.primary| && IsSector(q)
    ensures var x' := AddBlocks(x, ic, left, junk).1;
            GoesOn(x.primary, x.disk, x'.primary, x'.disk, ic, ic + IndexCount(left), q)
  {
    AddBlocksFrame(x, ic, left, junk);
    BlocksWrite(x, ic, left, junk, q);
  }

  /** The next index sector is one the file owned already. */
  lemma {:induction false} NextTwice(p: seq<int32>, d: IntPlatter, p': seq<int32>, d': IntPlatter, n: nat, total: nat, isIndex: bool, j: nat, t: nat)
    requires IndexCount(n) < IndexCount(total) && n < total && j < IndexCount(n)
    requires |p| > j && GoesOn(p, d, p', d', IndexCount(n), IndexCount(total), p[j])
    requires if isIndex then p'[IndexCount(n)] == p[j] else t < 32 && 32 * j + t < n && p'[IndexCount(n)] == Listed(d, p[j])[t]
    ensures !NoDuplicates(OwnedFrom(p', d', 0, total))
  {
    var ic := IndexCount(n);
    assert p'[j] == p'[..ic][j] == p[..ic][j];
    if isIndex {
      IndexTwice(p', d', total, j, ic);
    } else if d'[p[j]] == d[p[j]] {
      IndexAndData(p', d', total, ic, j, t);
    } else {
      var k :| ic <= k < IndexCount(total) && p'[k] == p[j];
      IndexTwice(p', d', total, j, k);
    }
  }

  /** A sector that a file of n data sectors owns: its index sector number j, or the one that this lists
      as its t-th. */
  ghost predicate OwnedAt(p: seq<int32>, d: IntPlatter, n: nat, s: int, isIndex: bool, j: nat, t: nat) {
    && j < IndexCount(n) <= |p| && IsSector(p[j])
    && if isIndex then p[j] == s else t < 32 && 32 * j + t < n && d[p[j]][t] == s
  }

  lemma {:induction false} Located(p: seq<int32>, d: IntPlatter, n: nat, s: int) returns (isIndex: bool, j: nat, t: nat)
    requires IndexCount(n) <= |p| && AllSectors(OwnedFrom(p, d, 0, n)) && s in OwnedFrom(p, d, 0, n)
    ensures OwnedAt(p, d, n, s, isIndex, j, t)
  {
    isIndex, j, t := WhereOwned(p, d, 0, n, s);
    RealIndex(p, d, n, j);
  }

  /** Adding blocks to a file that owns the lowest clear sector already. */
  lemma {:induction false} WholeAgain(x: Image, n: nat, e: nat, junk: nat -> Slots, isIndex: bool, j: nat, t: nat)
    requires e > 0 && IndexCount(n + e) == IndexCount(n) + IndexCount(e) <= |x.primary| && LowestClear(x.marks, NUM_SECTORS) != -1
    requires OwnedAt(x.primary, x.disk, n, LowestClear(x.marks, NUM_SECTORS), isIndex, j, t)
    ensures var x' := AddBlocks(x, IndexCount(n), e, junk).1;
            !NoDuplicates(OwnedFrom(x'.primary, x'.disk, 0, n + e))
  {
    BlocksGoOn(x, IndexCount(n), e, junk, x.primary[j]);
    FirstIndex(x, IndexCount(n), e, junk);
    var x' := AddBlocks(x, IndexCount(n), e, junk).1;
    NextTwice(x.primary, x.disk, x'.primary, x'.disk, n, n + e, isIndex, j, t);
  }

  /** Filling up the last index sector of such a file, and then adding blocks. */
  lemma {:induction false} PartialAgain(x: Image, n: nat, e: nat, r: nat, f: nat, junk: nat -> Slots, isIndex: bool, j: nat, t: nat)
    requires 0 < f <= e && r + f <= 32 && n == 32 * (IndexCount(n) - 1) + r && IndexCount(n + e) == IndexCount(n) + IndexCount(e - f) <= |x.primary|
    requires OwnedAt(x.primary, x.disk, n, LowestClear(x.marks, NUM_SECTORS), isIndex, j, t)
    requires 0 < IndexCount(n) && IsSector(x.primary[IndexCount(n) - 1])
    requires j < IndexCount(n) - 1 ==> x.primary[j] != x.primary[IndexCount(n) - 1]
    ensures var x' := AddBlocks(TopUp(x, x.primary[IndexCount(n) - 1], r, f), IndexCount(n), e - f, junk).1;
            !NoDuplicates(OwnedFrom(x'.primary, x'.disk, 0, n + e))
  {
    var last := x.primary[IndexCount(n) - 1];
    var y := TopUp(x, last, r, f);
    TopUpLists(x, n, last, r, f);
    FilledAgain(x, y, n, n + e, r, last, IndexCount(n), e - f, junk, isIndex, j, t);
  }

  /** y is x with the lowest clear sector in slot r of its last index sector. */
  ghost predicate Listing(x: Image, y: Image, n: nat, r: nat, last: int) {
    && IsSector(last) && y.primary == x.primary && 0 <= r < 32
    && y.disk[last][r] == LowestClear(x.marks, NUM_SECTORS) && y.disk[last][..r] == x.disk[last][..r]
    && (forall s {:trigger y.disk[s]} :: IsSector(s) && s != last ==> y.disk[s] == x.disk[s])
  }

  lemma {:induction false} TopUpLists(x: Image, n: nat, last: int, r: nat, f: nat)
    requires IsSector(last) && 0 < f && r + f <= 32
    ensures Listing(x, TopUp(x, last, r, f), n, r, last)
  {
    FirstSlot(x.marks, Listed(x.disk, last), r, r + f);
    TopUpMeaning(x, last, r, f);
  }

  lemma {:induction false} FilledAgain(x: Image, y: Image, n: nat, total: nat, r: nat, last: int, ic: nat, left: nat, junk: nat -> Slots,
                                       isIndex: bool, j: nat, t: nat)
    requires 0 < ic == IndexCount(n) <= |x.primary| && last == x.primary[ic - 1] && Listing(x, y, n, r, last) && n == 32 * (ic - 1) + r < total
    requires IndexCount(total) == ic + IndexCount(left) <= |x.primary|
    requires OwnedAt(x.primary, x.disk, n, LowestClear(x.marks, NUM_SECTORS), isIndex, j, t) && (j < ic - 1 ==> x.primary[j] != last)
    ensures var x' := AddBlocks(y, ic, left, junk).1;
            !NoDuplicates(OwnedFrom(x'.primary, x'.disk, 0, total))
  {
    BlocksGoOn(y, ic, left, junk, last);
    BlocksGoOn(y, ic, left, junk, x.primary[j]);
    if !isIndex && j == ic - 1 {
      assert y.disk[last][t] == y.disk[last][..r][t] == x.disk[last][..r][t];
    }
    var x' := AddBlocks(y, ic, left, junk).1;
    LastTwice(y.primary, y.disk, x'.primary, x'.disk, n, total, r, isIndex, j, t);
  }

  /** The next data sector is one the file owned already. */
  lemma {:induction false} LastTwice(p: seq<int32>, d: IntPlatter, p': seq<int32>, d': IntPlatter, n: nat, total: nat, r: nat,
                                     isIndex: bool, j: nat, t: nat)
    requires 0 < IndexCount(n) <= IndexCount(total) <= |p| && n == 32 * (IndexCount(n) - 1) + r < total && r < 32 && j < IndexCount(n)
    requires GoesOn(p, d, p', d', IndexCount(n), IndexCount(total), p[j])
    requires GoesOn(p, d, p', d', IndexCount(n), IndexCount(total), p[IndexCount(n) - 1])
    requires var l := Listed(d, p[IndexCount(n) - 1])[r];
             if isIndex then p[j] == l else t < 32 && 32 * j + t < n && Listed(d, p[j])[t] == l
    ensures !NoDuplicates(OwnedFrom(p', d', 0, total))
  {
    var ic := IndexCount(n);
    var last := p[ic - 1];
    assert p'[j] == p'[..ic][j] == p[..ic][j];
    assert p'[ic - 1] == p'[..ic][ic - 1] == p[..ic][ic - 1];
    if k :| ic <= k < IndexCount(total) && p'[k] == last {
      IndexTwice(p', d', total, ic - 1, k);
    } else if k :| ic <= k < IndexCount(total) && p'[k] == p[j] {
      IndexTwice(p', d', total, j, k);
    } else if isIndex {
      IndexAndData(p', d', total, j, ic - 1, r);
    } else {
      DataTwice(p', d', total, j, t, ic - 1, r);
    }
  }

  lemma {:induction false} OtherIndex(p: seq<int32>, d: IntPlatter, n: nat, j: nat, k: nat)
    requires IndexCount(n) <= |p| && NoDuplicates(OwnedFrom(p, d, 0, n)) && j < k < IndexCount(n)
    ensures p[j] != p[k]
  {
    IndexPosition(p, d, 0, n, j);
    IndexPosition(p, d, 0, n, k);
  }

  lemma {:induction false} LastIndex(p: seq<int32>, d: IntPlatter, n: nat, j: nat)
    requires 0 < IndexCount(n) <= |p| && AllSectors(OwnedFrom(p, d, 0, n)) && NoDuplicates(OwnedFrom(p, d, 0, n)) && j < IndexCount(n)
    ensures IsSector(p[IndexCount(n) - 1]) && (j < IndexCount(n) - 1 ==> p[j] != p[IndexCount(n) - 1])
  {
    RealIndex(p, d, n, IndexCount(n) - 1);
    if j < IndexCount(n) - 1 {
      OtherIndex(p, d, n, j, IndexCount(n) - 1);
    }
  }

  /** A file that owns the lowest sector that its map leaves clear, and grows on that map, owns a sector
      twice. */
  lemma {:induction false} GrownAgain(x: Image, n: nat, e: nat, junk: nat -> Slots)
    requires e > 0 && IndexCount(n) <= |x.primary| && IndexCount(n + e) <= |x.primary|
    requires AllSectors(OwnedFrom(x.primary, x.disk, 0, n)) && NoDuplicates(OwnedFrom(x.primary, x.disk, 0, n))
    requires LowestClear(x.marks, NUM_SECTORS) in OwnedFrom(x.primary, x.disk, 0, n) && Extension(x, n, e, junk).0 != NoSpace
    ensures var x' := Extension(x, n, e, junk).1;
            !NoDuplicates(OwnedFrom(x'.primary, x'.disk, 0, n + e))
  {
    var isIndex, j, t := Located(x.primary, x.disk, n, LowestClear(x.marks, NUM_SECTORS));
    assert IndexCount(n) > 0;
    LastIndex(x.primary, x.disk, n, j);
    GrownAt(x, n, e, junk, isIndex, j, t);
  }

  lemma {:induction false} GrownAt(x: Image, n: nat, e: nat, junk: nat -> Slots, isIndex: bool, j: nat, t: nat)
    requires e > 0 && 0 < IndexCount(n) <= |x.primary| && IndexCount(n + e) <= |x.primary| && Extension(x, n, e, junk).0 != NoSpace
    requires OwnedAt(x.primary, x.disk, n, LowestClear(x.marks, NUM_SECTORS), isIndex, j, t)
    requires IsSector(x.primary[IndexCount(n) - 1]) && (j < IndexCount(n) - 1 ==> x.primary[j] != x.primary[IndexCount(n) - 1])
    ensures var x' := Extension(x, n, e, junk).1;
            !NoDuplicates(OwnedFrom(x'.primary, x'.disk, 0, n + e))
  {
    GrowthCounts(n, e);
    if Used(n) == 0 {
      FindTakesOne(x.marks, NUM_SECTORS);
      WholeAgain(x, n, e, junk, isIndex, j, t);
      GrowFrom(x, n, e, junk, x);
    } else {
      assert n == 32 * (IndexCount(n) - 1) + Used(n) by { LastUsed(n); }
      PartialAgain(x, n, e, Used(n), Topped(n, e), junk, isIndex, j, t);
      GrowFrom(x, n, e, junk, TopUp(x, x.primary[IndexCount(n) - 1], Used(n), Topped(n, e)));
    }
  }

  /** The same for a header and ExtendAllocate. */
  lemma {:induction false} ExtendedAgain(h: Header, x: Image, bytes: nat, junk: nat -> Slots)
    requires Sound(h, x.disk) && x.primary == h.primary && LowestClear(x.marks, NUM_SECTORS) in Owned(h, x.disk)
    requires Extendable(h.numSectors, h.numBytes, bytes) && NeedsSectors(h.numSectors, bytes)
    requires ExtendResult(h, x, bytes, junk).0 == Allocated
    ensures var (_, g, y) := ExtendResult(h, x, bytes, junk);
            !Sound(g, y.disk)
  {
    var e := SectorCount(bytes - h.numBytes);
    ExtendUnfolds(h, x, bytes, e, junk);
    assert e > 0 by { ExtraPositive(h, bytes); }
    var y := Extension(x, h.numSectors, e, junk).1;
    assert !NoDuplicates(OwnedFrom(y.primary, y.disk, 0, h.numSectors + e)) by { GrownAgain(x, h.numSectors, e, junk); }
  }
}
