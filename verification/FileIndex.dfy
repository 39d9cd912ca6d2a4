/** The two-level file index of filesys/filehdr.cc on values: the primary table, the disk read as
    ints, and the set of marked sectors.  The allocator is specified as functions on an `Image` and
    everything it promises is proved about those functions. */
module FileIndex {
  import opened Arith
  import opened BitMaps
  import opened BitWords
  import opened Codec
  import opened Disks

  // ---- The two-level index ----

  /** How many of n data sectors the next index sector lists. */
  function Fill(n: nat): nat { if n < 32 then n else 32 }

  /** How many of e data sectors fit in an index sector that lists r already. */
  function Room(r: nat, e: nat): nat
    requires r <= 32
  {
    if e < 32 - r then e else 32 - r
  }

  /** The number of index sectors for n data sectors, block by block. */
  function IndexCount(n: nat): nat {
    if n == 0 then 0 else 1 + IndexCount(n - Fill(n))
  }

  lemma {:induction false} IndexCountIsCeiling(n: nat)
    ensures IndexCount(n) == DivRoundUp(n, 32)
  {
    if n > 32 {
      IndexCountIsCeiling(n - 32);
    } else if n > 0 {
      assert IndexCount(n - Fill(n)) == 0;
    }
  }

  /** How many entries of the last index sector are in use; none when it is full. */
  function Used(n: nat): (r: nat)
    ensures r < 32
  {
    if n < 32 then n else Used(n - 32)
  }

  lemma {:induction false} UsedIsRemainder(n: nat)
    ensures Used(n) == n % 32
  {
    if n >= 32 {
      UsedIsRemainder(n - 32);
    }
  }

  /** The data-sector numbers listed in an index sector. */
  function Listed(d: IntPlatter, index: int): (ints: seq<int32>)
    ensures |ints| == 32
  {
    if IsSector(index) then d[index] else seq(32, i => -1)
  }

  /** The sectors a file with n data sectors owns from primary entry i on, in the order they were
      allocated: each index sector followed by the data sectors it lists. */
  function OwnedFrom(primary: seq<int32>, d: IntPlatter, i: nat, n: nat): seq<int>
    requires i + IndexCount(n) <= |primary|
    decreases n
  {
    if n == 0 then []
    else [primary[i] as int] + Listed(d, primary[i])[..Fill(n)] + OwnedFrom(primary, d, i + 1, n - Fill(n))
  }

  ghost predicate NoDuplicates(s: seq<int>) {
    forall i, j :: 0 <= i < j < |s| ==> s[i] != s[j]
  }

  ghost predicate AllSectors(s: seq<int>) {
    forall x {:trigger x in s} :: x in s ==> IsSector(x)
  }

  ghost function Elements(s: seq<int>): set<int> { set x | x in s }

  // ---- Specification of the allocator ----

  /** The inner loops: slots lo..hi take what successive Finds return. */
  ghost function TakeSlots(m: set<int>, slots: seq<int32>, lo: nat, hi: nat): (r: (set<int>, seq<int32>))
    requires lo <= hi <= |slots|
    ensures |r.1| == |slots|
    decreases hi - lo
  {
    if lo == hi then (m, slots)
    else
      FindTakesOne(m, NUM_SECTORS);
      TakeSlots(AfterFind(m, NUM_SECTORS), slots[lo := LowestClear(m, NUM_SECTORS)], lo + 1, hi)
  }

  /** Enough clear bits: every slot gets a fresh sector of its own.
      Too few: the map is used up and the last slot holds -1. */
  lemma {:induction false} TakeSlotsMeaning(m: set<int>, slots: seq<int32>, lo: nat, hi: nat)
    requires lo <= hi <= |slots|
    ensures var (m', slots') := TakeSlots(m, slots, lo, hi);
            && slots'[..lo] == slots[..lo] && slots'[hi..] == slots[hi..]
            && (if hi - lo <= ClearCount(m, NUM_SECTORS)
                then FreshRun(m, slots'[lo..hi], m')
                else ClearCount(m', NUM_SECTORS) == 0 && slots'[hi - 1] == -1)
    decreases hi - lo
  {
    var (m', slots') := TakeSlots(m, slots, lo, hi);
    if lo < hi {
      FindTakesOne(m, NUM_SECTORS);
      var f := LowestClear(m, NUM_SECTORS);
      var next := slots[lo := f];
      TakeSlotsMeaning(AfterFind(m, NUM_SECTORS), next, lo + 1, hi);
      assert slots'[..lo] == slots'[..lo + 1][..lo] == next[..lo];
      assert slots'[lo] == slots'[..lo + 1][lo] == f;
      if hi - lo <= ClearCount(m, NUM_SECTORS) {
        assert slots'[lo..hi] == [f as int] + slots'[lo + 1..hi];
        FreshCons(m, f, slots'[lo + 1..hi], m');
      }
    } else {
      assert slots'[lo..hi] == [];
    }
  }

  /** run holds distinct real sectors, none of them marked in m, and marking them all turns m
      into m'. */
  ghost predicate FreshRun(m: set<int>, run: seq<int>, m': set<int>) {
    && AllSectors(run)
    && NoDuplicates(run)
    && Elements(run) !! m
    && m' == m + Elements(run)
    && ClearCount(m', NUM_SECTORS) == ClearCount(m, NUM_SECTORS) - |run|
  }

  lemma {:induction false} FreshCons(m: set<int>, f: int, run: seq<int>, m': set<int>)
    requires f == LowestClear(m, NUM_SECTORS) && f != -1
    requires FreshRun(AfterFind(m, NUM_SECTORS), run, m')
    ensures FreshRun(m, [f] + run, m')
  {
    FindTakesOne(m, NUM_SECTORS);
    assert f in AfterFind(m, NUM_SECTORS);
    assert Elements([f] + run) == {f} + Elements(run);
    assert f !in run;
  }

  lemma {:induction false} FreshConcat(m: set<int>, a: seq<int>, m1: set<int>, b: seq<int>, m2: set<int>)
    requires FreshRun(m, a, m1) && FreshRun(m1, b, m2)
    ensures FreshRun(m, a + b, m2)
  {
    assert Elements(a + b) == Elements(a) + Elements(b);
    forall i, j | 0 <= i < j < |a + b|
      ensures (a + b)[i] != (a + b)[j]
    {
      if i < |a| <= j {
        assert (a + b)[i] in Elements(a) && (a + b)[j] in Elements(b);
      }
    }
  }

  /** The state the allocator works on: free map, primary table and disk. */
  datatype Image = Image(marks: set<int>, primary: seq<int32>, disk: IntPlatter)

  /** One index block: primary entry i gets a fresh sector, which lists `fill` fresh data sectors.
      `junk` is what the uninitialised stack array holds.  Where Find answers -1 for the index
      sector the kernel trips the ASSERT in Disk::WriteRequest and writes nothing. */
  ghost function AddBlock(x: Image, i: nat, fill: nat, junk: Slots): (r: Image)
    requires i < |x.primary| && fill <= 32
    ensures |r.primary| == |x.primary|
  {
    FindTakesOne(x.marks, NUM_SECTORS);
    var f := LowestClear(x.marks, NUM_SECTORS);
    var (m, slots) := TakeSlots(AfterFind(x.marks, NUM_SECTORS), junk, 0, fill);
    Image(m, x.primary[i := f], if f == -1 then x.disk else x.disk[f := slots])
  }

  /** The block loop of Allocate and ExtendAllocate, from primary entry i on with `left` data
      sectors to place.  The answer is false where the kernel trips the ASSERT. */
  ghost function AddBlocks(x: Image, i: nat, left: nat, junk: nat -> Slots): (r: (bool, Image))
    requires i + IndexCount(left) <= |x.primary|
    ensures |r.1.primary| == |x.primary|
    decreases left
  {
    if left == 0 then (true, x)
    else
      var y := AddBlock(x, i, Fill(left), junk(i));
      if y.primary[i] == -1 then (false, y)
      else AddBlocks(y, i + 1, left - Fill(left), junk)
  }

  lemma {:induction false} TakeSlotsGrows(m: set<int>, slots: seq<int32>, lo: nat, hi: nat)
    requires lo <= hi <= |slots|
    ensures m <= TakeSlots(m, slots, lo, hi).0
    decreases hi - lo
  {
    if lo < hi {
      FindTakesOne(m, NUM_SECTORS);
      TakeSlotsGrows(AfterFind(m, NUM_SECTORS), slots[lo := LowestClear(m, NUM_SECTORS)], lo + 1, hi);
    }
  }

  /** What one block leaves alone. */
  lemma {:induction false} AddBlockFrame(x: Image, i: nat, fill: nat, junk: Slots)
    requires i < |x.primary| && fill <= 32
    ensures var y := AddBlock(x, i, fill, junk);
            && x.marks <= y.marks
            && y.primary[..i] == x.primary[..i]
            && (forall s {:trigger y.disk[s]} :: s in x.marks && IsSector(s) ==> y.disk[s] == x.disk[s])
            && (IsSector(y.primary[i]) ==> y.primary[i] in y.marks)
  {
    FindTakesOne(x.marks, NUM_SECTORS);
    TakeSlotsGrows(AfterFind(x.marks, NUM_SECTORS), junk, 0, fill);
  }

  /** How many sectors one block uses. */
  lemma {:induction false} AddBlockCount(x: Image, i: nat, fill: nat, junk: Slots)
    requires i < |x.primary| && fill <= 32
    ensures var y := AddBlock(x, i, fill, junk);
            var clear := ClearCount(x.marks, NUM_SECTORS);
            && (if clear == 0 then y.primary[i] == -1 else IsSector(y.primary[i]))
            && ClearCount(y.marks, NUM_SECTORS) == if 1 + fill <= clear then clear - 1 - fill else 0
  {
    FindTakesOne(x.marks, NUM_SECTORS);
    TakeSlotsMeaning(AfterFind(x.marks, NUM_SECTORS), junk, 0, fill);
  }

  /** What one block lists: fresh sectors while they last, then -1. */
  lemma {:induction false} AddBlockFresh(x: Image, i: nat, fill: nat, junk: Slots)
    requires i < |x.primary| && 0 < fill <= 32
    requires ClearCount(x.marks, NUM_SECTORS) > 0
    ensures var y := AddBlock(x, i, fill, junk);
            if 1 + fill <= ClearCount(x.marks, NUM_SECTORS)
            then FreshRun(x.marks, [y.primary[i] as int] + Listed(y.disk, y.primary[i])[..fill], y.marks)
            else Listed(y.disk, y.primary[i])[fill - 1] == -1
  {
    FindTakesOne(x.marks, NUM_SECTORS);
    var f := LowestClear(x.marks, NUM_SECTORS);
    var m := AfterFind(x.marks, NUM_SECTORS);
    TakeSlotsMeaning(m, junk, 0, fill);
    var (m2, slots) := TakeSlots(m, junk, 0, fill);
    assert slots[0..fill] == slots[..fill];
    if 1 + fill <= ClearCount(x.marks, NUM_SECTORS) {
      FreshCons(x.marks, f, slots[..fill], m2);
    }
  }

  lemma {:induction false} OwnedFromFrame(p: seq<int32>, d: IntPlatter, q: seq<int32>, e: IntPlatter, i: nat, n: nat)
    requires i + IndexCount(n) <= |p| && i + IndexCount(n) <= |q|
    requires forall j :: i <= j < i + IndexCount(n) ==> p[j] == q[j]
    requires forall j :: i <= j < i + IndexCount(n) && IsSector(p[j]) ==> d[p[j]] == e[p[j]]
    ensures OwnedFrom(p, d, i, n) == OwnedFrom(q, e, i, n)
    decreases n
  {
    if n > 0 {
      OwnedFromFrame(p, d, q, e, i + 1, n - Fill(n));
    }
  }

  lemma {:induction false} OwnedLength(p: seq<int32>, d: IntPlatter, i: nat, n: nat)
    requires i + IndexCount(n) <= |p|
    ensures |OwnedFrom(p, d, i, n)| == n + IndexCount(n)
    decreases n
  {
    if n > 0 {
      OwnedLength(p, d, i + 1, n - Fill(n));
    }
  }

  /** What the block loop leaves alone: earlier primary entries and every sector that was marked. */
  lemma {:induction false} AddBlocksFrame(x: Image, i: nat, left: nat, junk: nat -> Slots)
    requires i + IndexCount(left) <= |x.primary|
    ensures var x' := AddBlocks(x, i, left, junk).1;
            && x'.primary[..i] == x.primary[..i]
            && (forall s {:trigger x'.disk[s]} :: s in x.marks && IsSector(s) ==> x'.disk[s] == x.disk[s])
    decreases left
  {
    if left > 0 {
      AddBlockFrame(x, i, Fill(left), junk(i));
      var y := AddBlock(x, i, Fill(left), junk(i));
      if y.primary[i] != -1 {
        AddBlocksFrame(y, i + 1, left - Fill(left), junk);
        var x' := AddBlocks(y, i + 1, left - Fill(left), junk).1;
        assert x'.primary[..i] == x'.primary[..i + 1][..i];
        assert y.primary[..i + 1][..i] == y.primary[..i];
      }
    }
  }

  /** The first block survives the rest of the loop. */
  lemma {:induction false} FirstBlock(x: Image, i: nat, left: nat, junk: nat -> Slots)
    requires i + IndexCount(left) <= |x.primary| && left > 0
    requires ClearCount(x.marks, NUM_SECTORS) > 0
    ensures var y := AddBlock(x, i, Fill(left), junk(i));
            var x' := AddBlocks(x, i, left, junk).1;
            && AddBlocks(x, i, left, junk) == AddBlocks(y, i + 1, left - Fill(left), junk)
            && OwnedFrom(x'.primary, x'.disk, i, left)
               == [y.primary[i] as int] + Listed(y.disk, y.primary[i])[..Fill(left)]
                  + OwnedFrom(x'.primary, x'.disk, i + 1, left - Fill(left))
  {
    AddBlockFrame(x, i, Fill(left), junk(i));
    AddBlockCount(x, i, Fill(left), junk(i));
    var y := AddBlock(x, i, Fill(left), junk(i));
    AddBlocksFrame(y, i + 1, left - Fill(left), junk);
    var x' := AddBlocks(y, i + 1, left - Fill(left), junk).1;
    assert x'.primary[i] == x'.primary[..i + 1][i] == y.primary[..i + 1][i];
  }

  /** The block loop with enough clear sectors: everything it hands out is fresh and distinct. */
  lemma {:induction false} AddBlocksEnough(x: Image, i: nat, left: nat, junk: nat -> Slots)
    requires i + IndexCount(left) <= |x.primary|
    requires left + IndexCount(left) <= ClearCount(x.marks, NUM_SECTORS)
    ensures var (ok, x') := AddBlocks(x, i, left, junk);
            ok && FreshRun(x.marks, OwnedFrom(x'.primary, x'.disk, i, left), x'.marks)
    decreases left
  {
    if left > 0 {
      var y := AddBlock(x, i, Fill(left), junk(i));
      var x' := AddBlocks(x, i, left, junk).1;
      var head := [y.primary[i] as int] + Listed(y.disk, y.primary[i])[..Fill(left)];
      FirstBlock(x, i, left, junk);
      assert FreshRun(x.marks, head, y.marks) by { AddBlockFresh(x, i, Fill(left), junk(i)); }
      AddBlocksEnough(y, i + 1, left - Fill(left), junk);
      FreshConcat(x.marks, head, y.marks, OwnedFrom(x'.primary, x'.disk, i + 1, left - Fill(left)), x'.marks);
    }
  }

  /** The block loop trips the device's ASSERT exactly when its last index sector is missing. */
  lemma {:induction false} AddBlocksAborts(x: Image, i: nat, left: nat, junk: nat -> Slots)
    requires i + IndexCount(left) <= |x.primary|
    ensures AddBlocks(x, i, left, junk).0 <==>
            left == 0 || 33 * (IndexCount(left) - 1) < ClearCount(x.marks, NUM_SECTORS)
    decreases left
  {
    if left > 0 {
      AddBlockCount(x, i, Fill(left), junk(i));
      var y := AddBlock(x, i, Fill(left), junk(i));
      if y.primary[i] != -1 {
        AddBlocksAborts(y, i + 1, left - Fill(left), junk);
        assert left > 32 ==> IndexCount(left - 32) == IndexCount(left) - 1;
      }
    }
  }

  lemma {:induction false} InConcat(x: int, a: seq<int>, b: seq<int>)
    requires x in a || x in b
    ensures x in a + b
  {
  }

  /** The block loop with too few clear sectors, where it does not trip the ASSERT: -1 is among
      the sectors it records. */
  lemma {:induction false} AddBlocksShort(x: Image, i: nat, left: nat, junk: nat -> Slots)
    requires i + IndexCount(left) <= |x.primary|
    requires left + IndexCount(left) > ClearCount(x.marks, NUM_SECTORS)
    requires AddBlocks(x, i, left, junk).0
    ensures var x' := AddBlocks(x, i, left, junk).1;
            -1 in OwnedFrom(x'.primary, x'.disk, i, left)
    decreases left
  {
    var head, tail, y, x' := LastBlockShort(x, i, left, junk);
    if -1 !in head {
      assert -1 in tail by { AddBlocksShort(y, i + 1, left - Fill(left), junk); }
    }
    InConcat(-1, head, tail);
  }

  /** One step of the above: -1 is in the first block, or the remaining blocks are short too. */
  lemma {:induction false} LastBlockShort(x: Image, i: nat, left: nat, junk: nat -> Slots)
      returns (head: seq<int>, tail: seq<int>, y: Image, x': Image)
    requires i + IndexCount(left) <= |x.primary|
    requires left + IndexCount(left) > ClearCount(x.marks, NUM_SECTORS)
    requires AddBlocks(x, i, left, junk).0
    ensures left > 0 && |y.primary| == |x.primary| == |x'.primary| && i + 1 + IndexCount(left - Fill(left)) <= |x.primary|
    ensures AddBlocks(x, i, left, junk) == AddBlocks(y, i + 1, left - Fill(left), junk) == (true, x')
    ensures OwnedFrom(x'.primary, x'.disk, i, left) == head + tail
    ensures tail == OwnedFrom(x'.primary, x'.disk, i + 1, left - Fill(left))
    ensures -1 in head || left - Fill(left) + IndexCount(left - Fill(left)) > ClearCount(y.marks, NUM_SECTORS)
  {
    AddBlockCount(x, i, Fill(left), junk(i));
    AddBlockFresh(x, i, Fill(left), junk(i));
    FirstBlock(x, i, left, junk);
    y, x' := AddBlock(x, i, Fill(left), junk(i)), AddBlocks(x, i, left, junk).1;
    head := [y.primary[i] as int] + Listed(y.disk, y.primary[i])[..Fill(left)];
    tail := OwnedFrom(x'.primary, x'.disk, i + 1, left - Fill(left));
    if left <= 32 {
      assert head[Fill(left)] == -1;
    }
  }

  // ---- Allocate ----

  datatype Outcome = Allocated | NoSpace | Aborted

  ghost function AllocateResult(x: Image, size: nat, junk: nat -> Slots): (r: (Outcome, Image))
    requires IndexCount(SectorCount(size)) <= |x.primary|
    ensures |r.1.primary| == |x.primary|
  {
    var n := SectorCount(size);
    if ClearCount(x.marks, NUM_SECTORS) < n then (NoSpace, x)
    else
      var (ok, x') := AddBlocks(x, 0, n, junk);
      (if ok then Allocated else Aborted, x')
  }

  /** Allocate on every map.  The guard looks at the data sectors only, so the outcome depends on
      the number of clear sectors as follows: too few for the data is refused with nothing
      changed; enough for data and index sectors gives fresh, distinct sectors; in between the
      file is unusable, because the device's ASSERT stops the kernel or because -1 is recorded as
      one of its sectors. */
  lemma {:induction false} AllocateMeaning(x: Image, size: nat, junk: nat -> Slots)
    requires IndexCount(SectorCount(size)) <= |x.primary|
    ensures var n := SectorCount(size);
            var clear := ClearCount(x.marks, NUM_SECTORS);
            var (outcome, x') := AllocateResult(x, size, junk);
            && (outcome == NoSpace <==> clear < n)
            && (outcome == NoSpace ==> x' == x)
            && (outcome == Aborted <==> 0 < n <= clear <= 33 * (IndexCount(n) - 1))
            && (outcome == Allocated ==>
                  var owned := OwnedFrom(x'.primary, x'.disk, 0, n);
                  && (n + IndexCount(n) <= clear ==> FreshRun(x.marks, owned, x'.marks))
                  && (AllSectors(owned) <==> n + IndexCount(n) <= clear))
            && (forall s {:trigger x'.disk[s]} :: s in x.marks && IsSector(s) ==> x'.disk[s] == x.disk[s])
  {
    var n := SectorCount(size);
    if n <= ClearCount(x.marks, NUM_SECTORS) {
      AddBlocksFrame(x, 0, n, junk);
      AddBlocksAborts(x, 0, n, junk);
      if n + IndexCount(n) <= ClearCount(x.marks, NUM_SECTORS) {
        AddBlocksEnough(x, 0, n, junk);
      } else if AddBlocks(x, 0, n, junk).0 {
        AddBlocksShort(x, 0, n, junk);
      }
    }
  }

  // ---- ExtendAllocate ----

  /** How many of e further data sectors go into the last, partly filled index sector of a file
      with n data sectors. */
  function Topped(n: nat, e: nat): nat {
    if Used(n) == 0 then 0 else Room(Used(n), e)
  }

  /** Growing a file adds the index sectors that its new blocks need. */
  lemma {:induction false} GrowthCounts(n: nat, e: nat)
    ensures IndexCount(n + e) == IndexCount(n) + IndexCount(e - Topped(n, e))
    ensures n > 0 ==> IndexCount(n) > 0
  {
    if n >= 32 {
      GrowthCounts(n - 32, e);
    } else if n > 0 {
      assert Fill(n + e) == n + Topped(n, e);
      assert IndexCount(n - Fill(n)) == 0;
    }
  }

  /** Filling up the last index sector. */
  ghost function TopUp(x: Image, last: int, r: nat, t: nat): (y: Image)
    requires IsSector(last) && r + t <= 32
    ensures |y.primary| == |x.primary|
  {
    var (m, slots) := TakeSlots(x.marks, Listed(x.disk, last), r, r + t);
    Image(m, x.primary, x.disk[last := slots])
  }

  /** Fill up the last index sector, then add blocks.  Reading an index sector that is not on the
      disk trips the device's ASSERT. */
  ghost function Grow(x: Image, n: nat, e: nat, junk: nat -> Slots): (r: (bool, Image))
    requires IndexCount(n + e) <= |x.primary|
    ensures |r.1.primary| == |x.primary|
  {
    GrowthCounts(n, e);
    if Used(n) == 0 then AddBlocks(x, IndexCount(n), e, junk)
    else
      var last := x.primary[IndexCount(n) - 1];
      if !IsSector(last) then (false, x)
      else AddBlocks(TopUp(x, last, Used(n), Topped(n, e)), IndexCount(n), e - Topped(n, e), junk)
  }

  /** A last index sector that is partly filled. */
  lemma {:induction false} LastEntry(n: nat, e: nat)
    ensures IndexCount(n) <= IndexCount(n + e) && (Used(n) != 0 ==> IndexCount(n) > 0)
  {
    GrowthCounts(n, e);
  }

  lemma {:induction false} GrowStops(x: Image, n: nat, e: nat, junk: nat -> Slots)
    requires IndexCount(n + e) <= |x.primary| && Used(n) != 0 && 0 < IndexCount(n) <= |x.primary| && !IsSector(x.primary[IndexCount(n) - 1])
    ensures Grow(x, n, e, junk) == (false, x)
  {
  }

  /** Growing after the last index sector was filled up, giving y. */
  lemma {:induction false} GrowFrom(x: Image, n: nat, e: nat, junk: nat -> Slots, y: Image)
    requires IndexCount(n + e) <= |x.primary|
    requires Used(n) == 0 ==> y == x
    requires Used(n) != 0 ==>
               && 0 < IndexCount(n) <= |x.primary| && IsSector(x.primary[IndexCount(n) - 1])
               && y == TopUp(x, x.primary[IndexCount(n) - 1], Used(n), Topped(n, e))
    ensures IndexCount(n) + IndexCount(e - Topped(n, e)) == IndexCount(n + e) && |y.primary| == |x.primary|
    ensures Grow(x, n, e, junk) == AddBlocks(y, IndexCount(n), e - Topped(n, e), junk)
  {
    GrowthCounts(n, e);
  }

  lemma {:induction false} LastFilled(x: Image, n: nat, e: nat, junk: nat -> Slots, y: Image, entries: nat, left: nat, grown: (bool, Image))
    requires IndexCount(n + e) <= |x.primary| && grown == Grow(x, n, e, junk)
    requires entries == IndexCount(n) && left == e - Topped(n, e)
    requires Used(n) == 0 ==> y == x
    requires Used(n) != 0 ==> 0 < entries <= |x.primary| && IsSector(x.primary[entries - 1])
                              && y == TopUp(x, x.primary[entries - 1], Used(n), Topped(n, e))
    ensures |y.primary| == |x.primary| && entries + IndexCount(left) == IndexCount(n + e) && grown == AddBlocks(y, entries, left, junk)
  {
    GrowFrom(x, n, e, junk, y);
  }

  /** ExtendAllocate, past its early exit, for a file with n data sectors that is to get e more. */
  ghost function Extension(x: Image, n: nat, e: nat, junk: nat -> Slots): (r: (Outcome, Image))
    requires IndexCount(n + e) <= |x.primary|
    ensures |r.1.primary| == |x.primary|
  {
    if ClearCount(x.marks, NUM_SECTORS) < e then (NoSpace, x)
    else
      var (ok, x') := Grow(x, n, e, junk);
      (if ok then Allocated else Aborted, x')
  }

  /** The sectors an extension by e data sectors adds: the rest of the last index sector, then new
      blocks. */
  ghost function Added(p: seq<int32>, d: IntPlatter, i: nat, n: nat, e: nat): seq<int>
    requires i + IndexCount(n + e) <= |p|
    decreases n
  {
    if n >= 32 then Added(p, d, i + 1, n - 32, e)
    else if n == 0 then OwnedFrom(p, d, i, e)
    else
      assert Fill(n + e) == n + Room(n, e);
      Listed(d, p[i])[n..n + Room(n, e)] + OwnedFrom(p, d, i + 1, e - Room(n, e))
  }

  /** The sectors of n + e data sectors are those of n followed by the added ones. */
  lemma {:induction false} OwnedGrowth(p: seq<int32>, d: IntPlatter, i: nat, n: nat, e: nat)
    requires i + IndexCount(n + e) <= |p| && i + IndexCount(n) <= |p|
    ensures OwnedFrom(p, d, i, n + e) == OwnedFrom(p, d, i, n) + Added(p, d, i, n, e)
    decreases n
  {
    if n >= 32 {
      var block := [p[i] as int] + Listed(d, p[i])[..32];
      assert n + e - 32 == n - 32 + e;
      assert OwnedFrom(p, d, i, n) == block + OwnedFrom(p, d, i + 1, n - 32) by { FullBlock(p, d, i, n); }
      assert OwnedFrom(p, d, i, n + e) == block + OwnedFrom(p, d, i + 1, n - 32 + e) by { FullBlock(p, d, i, n + e); }
      OwnedGrowth(p, d, i + 1, n - 32, e);
      Prepend(block, OwnedFrom(p, d, i + 1, n - 32), Added(p, d, i + 1, n - 32, e), OwnedFrom(p, d, i + 1, n - 32 + e));
    } else if n > 0 {
      BlockGrowth(p, d, i, n, e);
    }
  }

  lemma {:induction false} FullBlock(p: seq<int32>, d: IntPlatter, i: nat, n: nat)
    requires i + IndexCount(n) <= |p| && n >= 32
    ensures i + 1 + IndexCount(n - 32) <= |p|
    ensures OwnedFrom(p, d, i, n) == [p[i] as int] + Listed(d, p[i])[..32] + OwnedFrom(p, d, i + 1, n - 32)
  {
  }

  lemma {:induction false} Prepend(a: seq<int>, b: seq<int>, c: seq<int>, bc: seq<int>)
    requires bc == b + c
    ensures a + bc == a + b + c
  {
  }

  lemma {:induction false} BlockGrowth(p: seq<int32>, d: IntPlatter, i: nat, n: nat, e: nat)
    requires 0 < n < 32 && i + IndexCount(n + e) <= |p| && i + IndexCount(n) <= |p|
    ensures OwnedFrom(p, d, i, n + e) == OwnedFrom(p, d, i, n) + Added(p, d, i, n, e)
  {
    var t := Room(n, e);
    assert Fill(n + e) == n + t && Fill(n) == n;
    assert OwnedFrom(p, d, i, n) == [p[i] as int] + Listed(d, p[i])[..n] + [];
    SliceGrowth([p[i] as int], Listed(d, p[i]), n, t, OwnedFrom(p, d, i + 1, e - t));
  }

  lemma {:induction false} SliceGrowth(a: seq<int>, listed: seq<int>, n: nat, t: nat, rest: seq<int>)
    requires n + t <= |listed|
    ensures a + listed[..n + t] + rest == (a + listed[..n] + []) + (listed[n..n + t] + rest)
  {
  }

  /** The added sectors of a file whose index sectors are all full. */
  lemma {:induction false} AddedWhole(p: seq<int32>, d: IntPlatter, i: nat, n: nat, e: nat)
    requires i + IndexCount(n + e) <= |p| && Used(n) == 0
    ensures IndexCount(n + e) == IndexCount(n) + IndexCount(e)
    ensures Added(p, d, i, n, e) == OwnedFrom(p, d, i + IndexCount(n), e)
    decreases n
  {
    if n > 0 {
      AddedWhole(p, d, i + 1, n - 32, e);
    }
  }

  /** The added sectors of a file whose last index sector has room. */
  lemma {:induction false} AddedPartial(p: seq<int32>, d: IntPlatter, i: nat, n: nat, e: nat)
    requires i + IndexCount(n + e) <= |p| && Used(n) != 0
    requires IndexCount(n + e) == IndexCount(n) + IndexCount(e - Topped(n, e)) && IndexCount(n) > 0
    ensures Added(p, d, i, n, e) == Listed(d, p[i + IndexCount(n) - 1])[Used(n)..Used(n) + Topped(n, e)]
                                    + OwnedFrom(p, d, i + IndexCount(n), e - Topped(n, e))
    decreases n
  {
    if n > 32 {
      GrowthCounts(n - 32, e);
      AddedPartial(p, d, i + 1, n - 32, e);
    } else {
      assert IndexCount(n - Fill(n)) == 0;
      assert Fill(n + e) == n + Room(n, e);
    }
  }

  lemma {:induction false} MoreThanOne(n: nat)
    requires IndexCount(n) > 1
    ensures n > 32
  {
    IndexCountIsCeiling(n);
  }

  /** Index sector j is owned sector number 33 * j. */
  lemma {:induction false} IndexPosition(p: seq<int32>, d: IntPlatter, i: nat, n: nat, j: nat)
    requires i + IndexCount(n) <= |p| && j < IndexCount(n)
    ensures 33 * j < |OwnedFrom(p, d, i, n)| && OwnedFrom(p, d, i, n)[33 * j] == p[i + j]
    decreases n
  {
    if j > 0 {
      MoreThanOne(n);
      FullBlock(p, d, i, n);
      assert IndexCount(n - 32) == IndexCount(n) - 1;
      var rest := OwnedFrom(p, d, i + 1, n - 32);
      IndexPosition(p, d, i + 1, n - 32, j - 1);
      PastBlock([p[i] as int] + Listed(d, p[i])[..32], rest, OwnedFrom(p, d, i, n), 33 * j);
    }
  }

  /** After a whole block. */
  lemma {:induction false} PastBlock(block: seq<int>, rest: seq<int>, all: seq<int>, at: nat)
    requires |block| == 33 && all == block + rest && 33 <= at < 33 + |rest|
    ensures at < |all| && all[at] == rest[at - 33]
  {
  }

  /** Data sector 32 * j + t is owned sector number 33 * j + 1 + t. */
  lemma {:induction false} DataPosition(p: seq<int32>, d: IntPlatter, i: nat, n: nat, j: nat, t: nat)
    requires i + IndexCount(n) <= |p| && 32 * j + t < n && t < 32
    ensures i + j < |p| && 33 * j + 1 + t < |OwnedFrom(p, d, i, n)|
    ensures OwnedFrom(p, d, i, n)[33 * j + 1 + t] == Listed(d, p[i + j])[t]
    decreases n
  {
    if j > 0 {
      DataPosition(p, d, i + 1, n - 32, j - 1, t);
    }
  }

  /** Primary tables and disks that agree on the entries in use of every index sector. */
  ghost predicate SameListing(p: seq<int32>, d: IntPlatter, q: seq<int32>, e: IntPlatter, i: nat, n: nat)
    requires i + IndexCount(n) <= |p| && i + IndexCount(n) <= |q|
    decreases n
  {
    n > 0 ==>
      && p[i] == q[i]
      && Listed(d, p[i])[..Fill(n)] == Listed(e, q[i])[..Fill(n)]
      && SameListing(p, d, q, e, i + 1, n - Fill(n))
  }

  lemma {:induction false} SameListingSameOwned(p: seq<int32>, d: IntPlatter, q: seq<int32>, e: IntPlatter, i: nat, n: nat)
    requires i + IndexCount(n) <= |p| && i + IndexCount(n) <= |q|
    requires SameListing(p, d, q, e, i, n)
    ensures OwnedFrom(p, d, i, n) == OwnedFrom(q, e, i, n)
    decreases n
  {
    if n > 0 {
      SameListingSameOwned(p, d, q, e, i + 1, n - Fill(n));
    }
  }

  lemma {:induction false} SameEntries(p: seq<int32>, d: IntPlatter, q: seq<int32>, e: IntPlatter, i: nat, n: nat)
    requires i + IndexCount(n) <= |p| && i + IndexCount(n) <= |q|
    requires forall j :: i <= j < i + IndexCount(n) ==> q[j] == p[j] && Listed(e, p[j]) == Listed(d, p[j])
    ensures SameListing(p, d, q, e, i, n)
    decreases n
  {
    if n > 0 {
      SameEntries(p, d, q, e, i + 1, n - Fill(n));
    }
  }

  /** Rewriting the last index sector beyond the entries in use moves no owned sector. */
  lemma {:induction false} LastIndexRewritten(p: seq<int32>, d: IntPlatter, q: seq<int32>, e: IntPlatter, i: nat, n: nat, last: int)
    requires n > 0 && Used(n) != 0 && i + IndexCount(n) <= |p| == |q|
    requires IndexCount(n) > 0 && last == p[i + IndexCount(n) - 1]
    requires forall j :: i <= j < i + IndexCount(n) ==> q[j] == p[j]
    requires forall j :: i <= j < i + IndexCount(n) - 1 ==> Listed(e, p[j]) == Listed(d, p[j])
    requires Listed(e, last)[..Used(n)] == Listed(d, last)[..Used(n)]
    ensures SameListing(p, d, q, e, i, n)
    decreases n
  {
    if n > 32 {
      LastIndexRewritten(p, d, q, e, i + 1, n - 32, last);
    } else {
      assert IndexCount(n - Fill(n)) == 0;
    }
  }

  lemma {:induction false} TopUpMeaning(x: Image, last: int, r: nat, t: nat)
    requires IsSector(last) && r + t <= 32 && 0 < t
    ensures var y := TopUp(x, last, r, t);
            var slots := Listed(y.disk, last);
            var clear := ClearCount(x.marks, NUM_SECTORS);
            && y.primary == x.primary
            && x.marks <= y.marks
            && slots[..r] == Listed(x.disk, last)[..r]
            && ClearCount(y.marks, NUM_SECTORS) == (if t <= clear then clear - t else 0)
            && (t <= clear ==> FreshRun(x.marks, slots[r..r + t], y.marks))
            && (t > clear ==> slots[r + t - 1] == -1)
  {
    TakeSlotsMeaning(x.marks, Listed(x.disk, last), r, r + t);
    TakeSlotsGrows(x.marks, Listed(x.disk, last), r, r + t);
  }

  /** Real, distinct and marked sectors. */
  ghost predicate Reserved(owned: seq<int>, m: set<int>) {
    AllSectors(owned) && NoDuplicates(owned) && Elements(owned) <= m
  }

  /** What a growing file owns is reserved. */
  ghost predicate Held(x: Image, n: nat)
    requires IndexCount(n) <= |x.primary|
  {
    Reserved(OwnedFrom(x.primary, x.disk, 0, n), x.marks)
  }

  /** The members of a sequence of distinct marked sectors. */
  lemma {:induction false} Member(owned: seq<int>, m: set<int>, k: nat)
    requires AllSectors(owned) && Elements(owned) <= m && k < |owned|
    ensures IsSector(owned[k]) && owned[k] in m
  {
    assert owned[k] in owned && owned[k] in Elements(owned);
  }

  lemma {:induction false} HeldIndex(x: Image, n: nat, j: nat)
    requires IndexCount(n) <= |x.primary| && Held(x, n) && j < IndexCount(n)
    ensures IsSector(x.primary[j]) && x.primary[j] in x.marks
  {
    IndexPosition(x.primary, x.disk, 0, n, j);
    Member(OwnedFrom(x.primary, x.disk, 0, n), x.marks, 33 * j);
  }

  lemma {:induction false} HeldIndexDistinct(x: Image, n: nat, j: nat, k: nat)
    requires IndexCount(n) <= |x.primary| && Held(x, n) && j < k < IndexCount(n)
    ensures x.primary[j] != x.primary[k]
  {
    IndexPosition(x.primary, x.disk, 0, n, j);
    IndexPosition(x.primary, x.disk, 0, n, k);
  }

  /** The blocks added after entry ic leave the entries before it as they were. */
  lemma {:induction false} EarlierEntries(y: Image, ic: nat, left: nat, junk: nat -> Slots, j: nat)
    requires ic + IndexCount(left) <= |y.primary| && j < ic
    requires IsSector(y.primary[j]) && y.primary[j] in y.marks
    ensures var x' := AddBlocks(y, ic, left, junk).1;
            x'.primary[j] == y.primary[j] && Listed(x'.disk, y.primary[j]) == Listed(y.disk, y.primary[j])
  {
    AddBlocksFrame(y, ic, left, junk);
    var x' := AddBlocks(y, ic, left, junk).1;
    assert x'.primary[j] == x'.primary[..ic][j] == y.primary[..ic][j];
  }

  /** Extending a file moves none of the sectors it already owns (no room in the last index sector). */
  lemma {:induction false} WholeKept(x: Image, n: nat, e: nat, junk: nat -> Slots)
    requires IndexCount(n) + IndexCount(e) <= |x.primary| && Held(x, n)
    ensures var x' := AddBlocks(x, IndexCount(n), e, junk).1;
            OwnedFrom(x'.primary, x'.disk, 0, n) == OwnedFrom(x.primary, x.disk, 0, n)
  {
    var x' := AddBlocks(x, IndexCount(n), e, junk).1;
    forall j | 0 <= j < IndexCount(n)
      ensures x'.primary[j] == x.primary[j] && Listed(x'.disk, x.primary[j]) == Listed(x.disk, x.primary[j])
    {
      HeldIndex(x, n, j);
      EarlierEntries(x, IndexCount(n), e, junk, j);
    }
    SameEntries(x.primary, x.disk, x'.primary, x'.disk, 0, n);
    SameListingSameOwned(x.primary, x.disk, x'.primary, x'.disk, 0, n);
  }

  /** The same with room in the last index sector. */
  lemma {:induction false} PartialKept(x: Image, n: nat, t: nat, left: nat, junk: nat -> Slots)
    requires Used(n) != 0 && 0 < t <= 32 - Used(n)
    requires 0 < IndexCount(n) && IndexCount(n) + IndexCount(left) <= |x.primary| && Held(x, n)
    requires IsSector(x.primary[IndexCount(n) - 1])
    ensures var last := x.primary[IndexCount(n) - 1];
            var y := TopUp(x, last, Used(n), t);
            var x' := AddBlocks(y, IndexCount(n), left, junk).1;
            && OwnedFrom(x'.primary, x'.disk, 0, n) == OwnedFrom(x.primary, x.disk, 0, n)
            && x'.primary[IndexCount(n) - 1] == last && Listed(x'.disk, last) == Listed(y.disk, last)
  {
    var ic := IndexCount(n);
    var last := x.primary[ic - 1];
    var y := TopUp(x, last, Used(n), t);
    var x' := AddBlocks(y, ic, left, junk).1;
    assert Listed(y.disk, last)[..Used(n)] == Listed(x.disk, last)[..Used(n)] by { TopUpMeaning(x, last, Used(n), t); }
    forall j | 0 <= j < ic
      ensures EntryKept(x, y, x', j)
    {
      PartialEntry(x, n, t, left, junk, j);
    }
    assert EntryKept(x, y, x', ic - 1);
    forall j | 0 <= j < ic
      ensures x'.primary[j] == x.primary[j] && (j < ic - 1 ==> Listed(x'.disk, x.primary[j]) == Listed(x.disk, x.primary[j]))
    {
      assert EntryKept(x, y, x', j);
      if j < ic - 1 {
        HeldIndexDistinct(x, n, j, ic - 1);
      }
    }
    LastIndexRewritten(x.primary, x.disk, x'.primary, x'.disk, 0, n, last);
    SameListingSameOwned(x.primary, x.disk, x'.primary, x'.disk, 0, n);
  }

  ghost predicate EntryKept(x: Image, y: Image, x': Image, j: nat)
    requires j < |x.primary| == |x'.primary|
  {
    x'.primary[j] == x.primary[j] && Listed(x'.disk, x.primary[j]) == Listed(y.disk, x.primary[j])
  }

  lemma {:induction false} PartialEntry(x: Image, n: nat, t: nat, left: nat, junk: nat -> Slots, j: nat)
    requires Used(n) != 0 && 0 < t <= 32 - Used(n)
    requires 0 < IndexCount(n) && IndexCount(n) + IndexCount(left) <= |x.primary| && Held(x, n)
    requires IsSector(x.primary[IndexCount(n) - 1]) && j < IndexCount(n)
    ensures var y := TopUp(x, x.primary[IndexCount(n) - 1], Used(n), t);
            EntryKept(x, y, AddBlocks(y, IndexCount(n), left, junk).1, j)
  {
    var last := x.primary[IndexCount(n) - 1];
    var y := TopUp(x, last, Used(n), t);
    TopUpMeaning(x, last, Used(n), t);
    HeldIndex(x, n, j);
    EarlierEntries(y, IndexCount(n), left, junk, j);
  }

  /** What an extension from x to x' by e data sectors has to achieve, and what it does instead
      when data and new index sectors do not fit. */
  ghost predicate Grown(x: Image, ok: bool, x': Image, n: nat, e: nat)
    requires IndexCount(n) <= |x.primary| == |x'.primary| && IndexCount(n + e) <= |x.primary|
  {
    var need := e + IndexCount(n + e) - IndexCount(n);
    var clear := ClearCount(x.marks, NUM_SECTORS);
    && OwnedFrom(x'.primary, x'.disk, 0, n) == OwnedFrom(x.primary, x.disk, 0, n)
    && (need <= clear ==> ok && FreshRun(x.marks, Added(x'.primary, x'.disk, 0, n, e), x'.marks))
    && (ok && clear < need ==> -1 in Added(x'.primary, x'.disk, 0, n, e))
  }

  lemma {:induction false} WholeGrown(x: Image, n: nat, e: nat, junk: nat -> Slots)
    requires Used(n) == 0 && IndexCount(n + e) <= |x.primary|
    requires IndexCount(n + e) == IndexCount(n) + IndexCount(e)
    ensures var need := e + IndexCount(e);
            var clear := ClearCount(x.marks, NUM_SECTORS);
            var (ok, x') := AddBlocks(x, IndexCount(n), e, junk);
            && (need <= clear ==> ok && FreshRun(x.marks, Added(x'.primary, x'.disk, 0, n, e), x'.marks))
            && (ok && clear < need ==> -1 in Added(x'.primary, x'.disk, 0, n, e))
  {
    var (ok, x') := AddBlocks(x, IndexCount(n), e, junk);
    AddedWhole(x'.primary, x'.disk, 0, n, e);
    if e + IndexCount(e) <= ClearCount(x.marks, NUM_SECTORS) {
      AddBlocksEnough(x, IndexCount(n), e, junk);
    } else if ok {
      AddBlocksShort(x, IndexCount(n), e, junk);
    }
  }

  /** The last index sector is filled up and then blocks are added: with enough clear sectors. */
  lemma {:induction false} PartialEnough(x: Image, ic: nat, last: int, r: nat, t: nat, left: nat, junk: nat -> Slots)
    requires IsSector(last) && 0 < t <= 32 - r && r <= 32
    requires ic + IndexCount(left) <= |x.primary|
    requires t + left + IndexCount(left) <= ClearCount(x.marks, NUM_SECTORS)
    ensures var y := TopUp(x, last, r, t);
            var (ok, x') := AddBlocks(y, ic, left, junk);
            ok && FreshRun(x.marks, Listed(y.disk, last)[r..r + t] + OwnedFrom(x'.primary, x'.disk, ic, left), x'.marks)
  {
    var y := TopUp(x, last, r, t);
    TopUpMeaning(x, last, r, t);
    AddBlocksEnough(y, ic, left, junk);
    var x' := AddBlocks(y, ic, left, junk).1;
    FreshConcat(x.marks, Listed(y.disk, last)[r..r + t], y.marks, OwnedFrom(x'.primary, x'.disk, ic, left), x'.marks);
  }

  /** The same with too few clear sectors. */
  lemma {:induction false} PartialShort(x: Image, ic: nat, last: int, r: nat, t: nat, left: nat, junk: nat -> Slots)
    requires IsSector(last) && 0 < t <= 32 - r && r <= 32
    requires ic + IndexCount(left) <= |x.primary|
    requires t + left + IndexCount(left) > ClearCount(x.marks, NUM_SECTORS)
    requires AddBlocks(TopUp(x, last, r, t), ic, left, junk).0
    ensures var y := TopUp(x, last, r, t);
            var x' := AddBlocks(y, ic, left, junk).1;
            -1 in Listed(y.disk, last)[r..r + t] + OwnedFrom(x'.primary, x'.disk, ic, left)
  {
    var y := TopUp(x, last, r, t);
    TopUpMeaning(x, last, r, t);
    var x' := AddBlocks(y, ic, left, junk).1;
    var head := Listed(y.disk, last)[r..r + t];
    if t <= ClearCount(x.marks, NUM_SECTORS) {
      AddBlocksShort(y, ic, left, junk);
    } else {
      assert head[t - 1] == -1;
    }
    InConcat(-1, head, OwnedFrom(x'.primary, x'.disk, ic, left));
  }

  lemma {:induction false} PartialAdded(x: Image, n: nat, e: nat, junk: nat -> Slots)
    requires Used(n) != 0 && e > 0 && 0 < IndexCount(n) && IndexCount(n + e) <= |x.primary|
    requires IndexCount(n) + IndexCount(e - Topped(n, e)) == IndexCount(n + e) && Held(x, n)
    requires IsSector(x.primary[IndexCount(n) - 1])
    ensures var r, t, ic, last := Used(n), Topped(n, e), IndexCount(n), x.primary[IndexCount(n) - 1];
            var y := TopUp(x, last, r, t);
            var x' := AddBlocks(y, ic, e - t, junk).1;
            Added(x'.primary, x'.disk, 0, n, e)
            == Listed(y.disk, last)[r..r + t] + OwnedFrom(x'.primary, x'.disk, ic, e - t)
  {
    var t, ic := Topped(n, e), IndexCount(n);
    var last := x.primary[ic - 1];
    var y := TopUp(x, last, Used(n), t);
    var x' := AddBlocks(y, ic, e - t, junk).1;
    assert x'.primary[ic - 1] == last && Listed(x'.disk, last) == Listed(y.disk, last) by {
      PartialKept(x, n, t, e - t, junk);
    }
    AddedPartial(x'.primary, x'.disk, 0, n, e);
  }

  lemma {:induction false} PartialGrown(x: Image, ic: nat, last: int, r: nat, t: nat, left: nat, junk: nat -> Slots)
    requires IsSector(last) && 0 < t <= 32 - r && r <= 32
    requires ic + IndexCount(left) <= |x.primary|
    ensures var need := t + left + IndexCount(left);
            var clear := ClearCount(x.marks, NUM_SECTORS);
            var y := TopUp(x, last, r, t);
            var (ok, x') := AddBlocks(y, ic, left, junk);
            var added := Listed(y.disk, last)[r..r + t] + OwnedFrom(x'.primary, x'.disk, ic, left);
            && (need <= clear ==> ok && FreshRun(x.marks, added, x'.marks))
            && (ok && clear < need ==> -1 in added)
  {
    if t + left + IndexCount(left) <= ClearCount(x.marks, NUM_SECTORS) {
      PartialEnough(x, ic, last, r, t, left, junk);
    } else if AddBlocks(TopUp(x, last, r, t), ic, left, junk).0 {
      PartialShort(x, ic, last, r, t, left, junk);
    }
  }

  lemma {:induction false} GrowWhole(x: Image, n: nat, e: nat, junk: nat -> Slots)
    requires e > 0 && IndexCount(n) + IndexCount(e) == IndexCount(n + e) <= |x.primary| && Held(x, n) && Used(n) == 0
    ensures var (ok, x') := AddBlocks(x, IndexCount(n), e, junk);
            Grown(x, ok, x', n, e)
  {
    WholeKept(x, n, e, junk);
    WholeGrown(x, n, e, junk);
  }

  lemma {:induction false} GrowPartial(x: Image, n: nat, e: nat, junk: nat -> Slots, t: nat)
    requires e > 0 && Used(n) != 0 && t == Topped(n, e) && 0 < IndexCount(n)
    requires IndexCount(n) + IndexCount(e - t) == IndexCount(n + e) <= |x.primary| && Held(x, n)
    requires IsSector(x.primary[IndexCount(n) - 1])
    ensures var (ok, x') := AddBlocks(TopUp(x, x.primary[IndexCount(n) - 1], Used(n), t), IndexCount(n), e - t, junk);
            Grown(x, ok, x', n, e)
  {
    PartialKept(x, n, t, e - t, junk);
    PartialAdded(x, n, e, junk);
    PartialGrown(x, IndexCount(n), x.primary[IndexCount(n) - 1], Used(n), t, e - t, junk);
  }

  lemma {:induction false} GrowMeaning(x: Image, n: nat, e: nat, junk: nat -> Slots)
    requires e > 0 && IndexCount(n) <= |x.primary| && IndexCount(n + e) <= |x.primary| && Held(x, n)
    ensures var (ok, x') := Grow(x, n, e, junk);
            Grown(x, ok, x', n, e)
  {
    GrowthCounts(n, e);
    if Used(n) == 0 {
      GrowWhole(x, n, e, junk);
      GrowFrom(x, n, e, junk, x);
    } else {
      assert IsSector(x.primary[IndexCount(n) - 1]) by { HeldIndex(x, n, IndexCount(n) - 1); }
      GrowPartial(x, n, e, junk, Topped(n, e));
      GrowFrom(x, n, e, junk, TopUp(x, x.primary[IndexCount(n) - 1], Used(n), Topped(n, e)));
    }
  }

  /** ExtendAllocate on every map that marks what the file owns: refused with nothing changed when
      the data alone does not fit; otherwise the old sectors stay where they are, and the file is
      usable exactly when data and new index sectors fit together. */
  lemma {:induction false} ExtensionMeaning(x: Image, n: nat, e: nat, junk: nat -> Slots)
    requires e > 0 && IndexCount(n) <= |x.primary| && IndexCount(n + e) <= |x.primary| && Held(x, n)
    ensures var (outcome, x') := Extension(x, n, e, junk);
            && (outcome == NoSpace <==> ClearCount(x.marks, NUM_SECTORS) < e)
            && (outcome == NoSpace ==> x' == x)
            && (outcome != NoSpace ==> Grown(x, outcome == Allocated, x', n, e))
  {
    GrowMeaning(x, n, e, junk);
  }

  // ---- Deallocate ----

  /** The marked set after freeing block by block: the data sectors listed, then the index sector. */
  ghost function Released(m: set<int>, p: seq<int32>, d: IntPlatter, i: nat, n: nat): set<int>
    requires i + IndexCount(n) <= |p|
    decreases n
  {
    if n == 0 then m
    else Released(m - Elements(Listed(d, p[i])[..Fill(n)]) - {p[i] as int}, p, d, i + 1, n - Fill(n))
  }

  /** Deallocate frees exactly what the file owns. */
  lemma {:induction false} ReleasedMeaning(m: set<int>, p: seq<int32>, d: IntPlatter, i: nat, n: nat)
    requires i + IndexCount(n) <= |p|
    ensures Released(m, p, d, i, n) == m - Elements(OwnedFrom(p, d, i, n))
    decreases n
  {
    if n > 0 {
      var listed: seq<int> := Listed(d, p[i])[..Fill(n)];
      var rest := OwnedFrom(p, d, i + 1, n - Fill(n));
      ReleasedMeaning(m - Elements(listed) - {p[i] as int}, p, d, i + 1, n - Fill(n));
      assert Elements([p[i] as int] + listed + rest) == {p[i] as int} + Elements(listed) + Elements(rest);
    }
  }

  // ---- The life of a file on one map ----

  /** One extension that fits. */
  lemma {:induction false} ExtendOnce(base: set<int>, x: Image, n: nat, e: nat, junk: nat -> Slots)
    requires IndexCount(n) <= |x.primary| && IndexCount(n + e) <= |x.primary| && e > 0
    requires FreshRun(base, OwnedFrom(x.primary, x.disk, 0, n), x.marks)
    requires e + IndexCount(n + e) - IndexCount(n) <= ClearCount(x.marks, NUM_SECTORS)
    ensures var y := Extension(x, n, e, junk).1;
            var owned := OwnedFrom(y.primary, y.disk, 0, n + e);
            && FreshRun(base, owned, y.marks)
            && OwnedFrom(x.primary, x.disk, 0, n) <= owned
            && ClearCount(y.marks, NUM_SECTORS)
               == ClearCount(x.marks, NUM_SECTORS) - (e + IndexCount(n + e) - IndexCount(n))
  {
    var y := Extension(x, n, e, junk).1;
    var old_, added := OwnedFrom(x.primary, x.disk, 0, n), Added(y.primary, y.disk, 0, n, e);
    assert FreshRun(x.marks, added, y.marks) && OwnedFrom(y.primary, y.disk, 0, n) == old_ by {
      GrowthCounts(n, e);
      ExtensionMeaning(x, n, e, junk);
    }
    OwnedGrowth(y.primary, y.disk, 0, n, e);
    FreshConcat(base, old_, x.marks, added, y.marks);
    OwnedLength(x.primary, x.disk, 0, n);
    OwnedLength(y.primary, y.disk, 0, n + e);
  }

  /** What is left after a file took its sectors from `base`, and what freeing it gives back. */
  lemma {:induction false} Conservation(base: set<int>, x: Image, n: nat)
    requires IndexCount(n) <= |x.primary|
    requires FreshRun(base, OwnedFrom(x.primary, x.disk, 0, n), x.marks)
    ensures ClearCount(x.marks, NUM_SECTORS) == ClearCount(base, NUM_SECTORS) - (n + IndexCount(n))
    ensures Released(x.marks, x.primary, x.disk, 0, n) == base
  {
    OwnedLength(x.primary, x.disk, 0, n);
    ReleasedMeaning(x.marks, x.primary, x.disk, 0, n);
  }

  lemma {:induction false} PrefixOf(a: seq<int>, b: seq<int>, c: seq<int>)
    requires a <= b <= c
    ensures a <= c
  {
  }
}
