/** One 32-bit word of the bitmap.  `MarkIn` is w | 1 << k and `ClearIn` is w & ~(1 << k),
    written out bit by bit. */
module BitWords {

  type uint32 = w: int | 0 <= w < 0x1_0000_0000

  predicate BitSet(w: nat, k: nat) {
    if k == 0 then w % 2 == 1 else BitSet(w / 2, k - 1)
  }

  function MarkIn(w: nat, k: nat): nat {
    if k == 0 then w - w % 2 + 1 else 2 * MarkIn(w / 2, k - 1) + w % 2
  }

  function ClearIn(w: nat, k: nat): nat {
    if k == 0 then w - w % 2 else 2 * ClearIn(w / 2, k - 1) + w % 2
  }

  lemma {:induction false} MarkInMeaning(w: nat, k: nat, j: nat)
    ensures BitSet(MarkIn(w, k), j) <==> j == k || BitSet(w, j)
  {
    if j > 0 && k > 0 {
      MarkInMeaning(w / 2, k - 1, j - 1);
    }
  }

  lemma {:induction false} ClearInMeaning(w: nat, k: nat, j: nat)
    ensures BitSet(ClearIn(w, k), j) <==> j != k && BitSet(w, j)
  {
    if j > 0 && k > 0 {
      ClearInMeaning(w / 2, k - 1, j - 1);
    }
  }

  function Pow2(k: nat): nat {
    if k == 0 then 1 else 2 * Pow2(k - 1)
  }

  /** Setting or clearing a bit below b keeps a b-bit word a b-bit word. */
  lemma {:induction false} WordRange(w: nat, k: nat, b: nat)
    requires k < b && w < Pow2(b)
    ensures MarkIn(w, k) < Pow2(b) && ClearIn(w, k) < Pow2(b)
  {
    if k > 0 {
      WordRange(w / 2, k - 1, b - 1);
    }
  }

  lemma Pow2Of32()
    ensures Pow2(32) == 0x1_0000_0000
  {
    assert Pow2(8) == 256;
    assert Pow2(16) == 65536;
    assert Pow2(24) == 0x100_0000;
  }
}

/** userprog/bitmap.cc: a bitmap packed in 32-bit words, read as the set of its marked bits. */
module BitMaps {
  import opened Arith
  import opened BitWords

  // ---- Specification: bitmaps as sets of marked bits ----

  ghost function ClearBits(marked: set<int>, n: nat): set<int> {
    set i | 0 <= i < n && i !in marked
  }

  ghost function ClearCount(marked: set<int>, n: nat): nat { |ClearBits(marked, n)| }

  ghost predicate IsLowestClear(marked: set<int>, n: nat, i: int) {
    0 <= i < n && i !in marked && forall k :: 0 <= k < i ==> k in marked
  }

  ghost function LowestClear(marked: set<int>, n: nat): int {
    if exists i :: IsLowestClear(marked, n, i)
    then var i :| IsLowestClear(marked, n, i); i
    else -1
  }

  /** The marked set after a Find. */
  ghost function AfterFind(marked: set<int>, n: nat): set<int> {
    var f := LowestClear(marked, n);
    if f == -1 then marked else marked + {f}
  }

  lemma LowestClearMeaning(marked: set<int>, n: nat)
    ensures var f := LowestClear(marked, n);
            && (f == -1 <==> forall i :: 0 <= i < n ==> i in marked)
            && (f != -1 ==> IsLowestClear(marked, n, f))
  {
    if i :| 0 <= i < n && i !in marked {
      ClearHasLowest(marked, n, i);
    }
  }

  lemma {:induction false} ClearHasLowest(marked: set<int>, n: nat, i: nat)
    requires i < n && i !in marked
    ensures exists j :: IsLowestClear(marked, n, j)
  {
    if k :| 0 <= k < i && k !in marked {
      ClearHasLowest(marked, n, k);
    } else {
      assert IsLowestClear(marked, n, i);
    }
  }

  /** A Find either takes exactly one clear bit or there was none. */
  lemma FindTakesOne(marked: set<int>, n: nat)
    ensures var f := LowestClear(marked, n);
            if f == -1 then ClearCount(marked, n) == 0
            else 0 <= f < n && f !in marked && ClearCount(AfterFind(marked, n), n) == ClearCount(marked, n) - 1
  {
    LowestClearMeaning(marked, n);
    var f := LowestClear(marked, n);
    if f == -1 {
      assert ClearBits(marked, n) == {};
    } else {
      assert ClearBits(marked + {f}, n) == ClearBits(marked, n) - {f};
    }
  }

  // ---- Words ----

  lemma WordsSuffice(n: nat)
    ensures forall i :: 0 <= i < n ==> i / 32 < DivRoundUp(n, 32)
  {
  }

  /** The marked bits of a word array: bit i is bit i % 32 of word i / 32. */
  ghost function MarkedBits(ws: seq<uint32>, n: nat): set<int>
    requires |ws| == DivRoundUp(n, 32)
  {
    WordsSuffice(n);
    set i | 0 <= i < n && BitSet(ws[i / 32], i % 32)
  }

  lemma MarkOne(ws: seq<uint32>, n: nat, which: nat)
    requires |ws| == DivRoundUp(n, 32) && which < n
    ensures var w := which / 32;
            var word := MarkIn(ws[w], which % 32);
            word < 0x1_0000_0000 && MarkedBits(ws[w := word], n) == MarkedBits(ws, n) + {which}
  {
    var w := which / 32;
    Pow2Of32();
    WordRange(ws[w], which % 32, 32);
    var ws' := ws[w := MarkIn(ws[w], which % 32)];
    WordsSuffice(n);
    forall i | 0 <= i < n
      ensures i in MarkedBits(ws', n) <==> i == which || i in MarkedBits(ws, n)
    {
      MarkInMeaning(ws[w], which % 32, i % 32);
    }
  }

  lemma ClearOne(ws: seq<uint32>, n: nat, which: nat)
    requires |ws| == DivRoundUp(n, 32) && which < n
    ensures var w := which / 32;
            var word := ClearIn(ws[w], which % 32);
            word < 0x1_0000_0000 && MarkedBits(ws[w := word], n) == MarkedBits(ws, n) - {which}
  {
    var w := which / 32;
    Pow2Of32();
    WordRange(ws[w], which % 32, 32);
    var ws' := ws[w := ClearIn(ws[w], which % 32)];
    WordsSuffice(n);
    forall i | 0 <= i < n
      ensures i in MarkedBits(ws', n) <==> i != which && i in MarkedBits(ws, n)
    {
      ClearInMeaning(ws[w], which % 32, i % 32);
    }
  }

  /** Words that agree bit by bit are equal. */
  lemma {:induction false} SameBits(v: nat, w: nat, b: nat)
    requires v < Pow2(b) && w < Pow2(b) && forall k :: 0 <= k < b ==> BitSet(v, k) == BitSet(w, k)
    ensures v == w
  {
    if b > 0 {
      assert BitSet(v, 0) == BitSet(w, 0);
      forall k | 0 <= k < b - 1
        ensures BitSet(v / 2, k) == BitSet(w / 2, k)
      {
        assert BitSet(v, k + 1) == BitSet(w, k + 1);
      }
      SameBits(v / 2, w / 2, b - 1);
    }
  }

  /** A bitmap of whole words is determined bit for bit by what is marked. */
  lemma {:induction false} MarkedDetermines(ws: seq<uint32>, vs: seq<uint32>, n: nat)
    requires |ws| == |vs| == DivRoundUp(n, 32) && n % 32 == 0 && MarkedBits(ws, n) == MarkedBits(vs, n)
    ensures ws == vs
  {
    Pow2Of32();
    forall i | 0 <= i < |ws|
      ensures ws[i] == vs[i]
    {
      forall k | 0 <= k < 32
        ensures BitSet(ws[i], k) == BitSet(vs[i], k)
      {
        var bit := 32 * i + k;
        assert bit / 32 == i && bit % 32 == k && 0 <= bit < n;
        assert bit in MarkedBits(ws, n) <==> bit in MarkedBits(vs, n);
      }
      SameBits(ws[i], vs[i], 32);
    }
  }

  // ---- The class ----

  class BitMap {
    const numBits: nat
    const numWords: nat
    const words: array<uint32>
    ghost var marked: set<int>  // the abstract bitmap

    ghost predicate Valid()
      reads this, words
    {
      && numWords == DivRoundUp(numBits, 32)
      && words.Length == numWords
      && marked == MarkedBits(words[..], numBits)
    }

    constructor (nitems: nat)
      ensures Valid() && fresh(words) && numBits == nitems
      ensures marked == {}
    {
      numBits := nitems;
      numWords := DivRoundUp(nitems, 32);
      words := new uint32[DivRoundUp(nitems, 32)];
      new;
      WordsSuffice(numBits);
      marked := MarkedBits(words[..], numBits);
      for i := 0 to numBits
        invariant Valid()
        invariant forall k :: 0 <= k < i ==> k !in marked
      {
        Clear(i);
      }
    }

    /** FetchFrom: the words come from a file. */
    method Load(ws: seq<uint32>)
      requires Valid() && |ws| == numWords
      modifies this, words
      ensures Valid() && marked == MarkedBits(ws, numBits)
    {
      for k := 0 to numWords
        invariant forall i :: 0 <= i < k ==> words[i] == ws[i]
      {
        words[k] := ws[k];
      }
      assert words[..] == ws;
      marked := MarkedBits(ws, numBits);
    }

    method Mark(which: int)
      requires Valid() && 0 <= which < numBits
      modifies this, words
      ensures Valid() && marked == old(marked) + {which}
    {
      WordsSuffice(numBits);
      var w := which / 32;
      MarkOne(words[..], numBits, which);
      words[w] := MarkIn(words[w], which % 32);
      marked := marked + {which};
    }

    method Clear(which: int)
      requires Valid() && 0 <= which < numBits
      modifies this, words
      ensures Valid() && marked == old(marked) - {which}
    {
      WordsSuffice(numBits);
      var w := which / 32;
      ClearOne(words[..], numBits, which);
      words[w] := ClearIn(words[w], which % 32);
      marked := marked - {which};
    }

    method Test(which: int) returns (set_: bool)
      requires Valid() && 0 <= which < numBits
      ensures set_ <==> which in marked
    {
      WordsSuffice(numBits);
      set_ := BitSet(words[which / 32], which % 32);
    }

    /** Takes the lowest clear bit, or answers -1 and changes nothing when every bit is marked. */
    method Find() returns (bit: int)
      requires Valid()
      modifies this, words
      ensures Valid()
      ensures bit == LowestClear(old(marked), numBits)
      ensures marked == AfterFind(old(marked), numBits)
    {
      LowestClearMeaning(marked, numBits);
      var i := 0;
      while i < numBits
        invariant 0 <= i <= numBits
        invariant Valid() && marked == old(marked)
        invariant forall k :: 0 <= k < i ==> k in marked
      {
        var taken := Test(i);
        if !taken {
          assert LowestClear(marked, numBits) == i;
          Mark(i);
          return i;
        }
        i := i + 1;
      }
      return -1;
    }

    method NumClear() returns (count: nat)
      requires Valid()
      ensures count == ClearCount(marked, numBits)
    {
      count := 0;
      ghost var seen: set<int> := {};
      for i := 0 to numBits
        invariant seen == set k: int | 0 <= k < i && k !in marked
        invariant count == |seen|
      {
        var taken := Test(i);
        if !taken {
          assert i !in seen;
          seen := seen + {i};
          count := count + 1;
        }
      }
      assert seen == ClearBits(marked, numBits);
    }
  }
}
