/** A file as a sequence of bytes: the bytes of its data sectors, found through its index. */
module FileBytes {
  import opened Codec
  import opened Disks
  import opened FileIndex
  import opened FileHeaders
  import opened SectorRuns

  // ---- A file's data sectors ----

  function DataOf(primary: seq<int32>, v: IntPlatter, n: nat): (ds: seq<int>)
    requires n <= 32 * |primary|
    ensures |ds| == n
  {
    if n == 0 then [] else DataOf(primary, v, n - 1) + [Listed(v, primary[(n - 1) / 32])[(n - 1) % 32] as int]
  }

  lemma {:induction false} DataOfAt(primary: seq<int32>, v: IntPlatter, n: nat, k: nat)
    requires k < n <= 32 * |primary|
    ensures DataOf(primary, v, n)[k] == Listed(v, primary[k / 32])[k % 32]
  {
    if k < n - 1 {
      DataOfAt(primary, v, n - 1, k);
    }
  }

  /** The data sectors of a file, in file order. */
  ghost function Data(h: Header, v: IntPlatter): (ds: seq<int>)
    requires WellFormed(h)
    ensures |ds| == h.numSectors
  {
    IndexCountBound(h.numSectors);
    DataOf(h.primary, v, h.numSectors)
  }

  lemma {:induction false} DataAt(h: Header, v: IntPlatter, k: nat)
    requires WellFormed(h) && k < h.numSectors
    ensures Data(h, v)[k] == DataSector(h, v, k)
  {
    IndexCountBound(h.numSectors);
    DataOfAt(h.primary, v, h.numSectors, k);
  }

  lemma {:induction false} DataDistinct(h: Header, v: IntPlatter, j: nat, k: nat)
    requires Sound(h, v) && j < k < h.numSectors
    ensures Data(h, v)[j] != Data(h, v)[k]
  {
    DataBlock(h, v, j);
    DataBlock(h, v, k);
    DataAt(h, v, j);
    DataAt(h, v, k);
    assert 33 * (j / 32) + 1 + j % 32 != 33 * (k / 32) + 1 + k % 32;
  }

  lemma {:induction false} DataLayout(h: Header, v: IntPlatter)
    requires Sound(h, v)
    ensures Layout(Data(h, v))
  {
    forall k | 0 <= k < h.numSectors
      ensures IsSector(Data(h, v)[k])
    {
      DataAt(h, v, k);
      DataBlock(h, v, k);
    }
    forall j, k | 0 <= j < k < h.numSectors
      ensures Data(h, v)[j] != Data(h, v)[k]
    {
      DataDistinct(h, v, j, k);
    }
  }

  lemma {:induction false} DataIsOwned(h: Header, v: IntPlatter, s: int)
    requires Sound(h, v) && s in Data(h, v)
    ensures s in Owned(h, v)
  {
    var k :| 0 <= k < h.numSectors && Data(h, v)[k] == s;
    DataAt(h, v, k);
    DataBlock(h, v, k);
  }

  lemma {:induction false} IndexNotData(h: Header, v: IntPlatter, i: nat)
    requires Sound(h, v) && i < IndexCount(h.numSectors)
    ensures h.primary[i] as int !in Data(h, v)
  {
    forall k | 0 <= k < h.numSectors
      ensures Data(h, v)[k] != h.primary[i]
    {
      DataAt(h, v, k);
      DatumNotIndex(h, v, i, k);
    }
  }

  lemma {:induction false} DatumNotIndex(h: Header, v: IntPlatter, i: nat, k: nat)
    requires Sound(h, v) && i < IndexCount(h.numSectors) && k < h.numSectors
    ensures DataSector(h, v, k) != h.primary[i]
  {
    IndexPosition(h.primary, v, 0, h.numSectors, i);
    DataBlock(h, v, k);
    assert 33 * (k / 32) + 1 + k % 32 != 33 * i;
  }

  lemma {:induction false} IndexIsOwned(h: Header, v: IntPlatter, i: nat)
    requires Sound(h, v) && i < IndexCount(h.numSectors)
    ensures h.primary[i] as int in Owned(h, v)
  {
    IndexPosition(h.primary, v, 0, h.numSectors, i);
  }

  // ---- What a file depends on ----

  /** Two disks on which a file has the same index sectors. */
  ghost predicate SameIndex(h: Header, v: IntPlatter, w: IntPlatter)
    requires WellFormed(h)
  {
    forall i :: 0 <= i < IndexCount(h.numSectors) && IsSector(h.primary[i]) ==> v[h.primary[i]] == w[h.primary[i]]
  }

  /** A file's sectors depend on nothing on disk but its index sectors. */
  lemma {:induction false} SameIndexSameFile(h: Header, v: IntPlatter, w: IntPlatter)
    requires Sound(h, v) && SameIndex(h, v, w)
    ensures Owned(h, v) == Owned(h, w) && Sound(h, w) && Data(h, v) == Data(h, w)
  {
    OwnedFromFrame(h.primary, v, h.primary, w, 0, h.numSectors);
    forall k | 0 <= k < h.numSectors
      ensures Data(h, v)[k] == Data(h, w)[k]
    {
      DataAt(h, v, k);
      DataAt(h, w, k);
      IndexCountIsCeiling(h.numSectors);
    }
  }

  /** Writes to a file's data sectors leave its index, and so its list of sectors, as they were. */
  lemma {:induction false} DataWritesKeepIndex(h: Header, d: Platter, e: Platter)
    requires Sound(h, Ints(d))
    requires forall s {:trigger e[s]} :: IsSector(s) && s !in Data(h, Ints(d)) ==> e[s] == d[s]
    ensures Sound(h, Ints(e)) && Data(h, Ints(e)) == Data(h, Ints(d)) && Owned(h, Ints(e)) == Owned(h, Ints(d))
  {
    forall i | 0 <= i < IndexCount(h.numSectors) && IsSector(h.primary[i])
      ensures Ints(d)[h.primary[i]] == Ints(e)[h.primary[i]]
    {
      IndexNotData(h, Ints(d), i);
      IntsAt(d, h.primary[i]);
      IntsAt(e, h.primary[i]);
    }
    SameIndexSameFile(h, Ints(d), Ints(e));
  }

  /** The contents of a file. */
  ghost function Content(h: Header, d: Platter): (c: seq<byte>)
    requires Sound(h, Ints(d))
    ensures |c| == h.numBytes
  {
    DataLayout(h, Ints(d));
    BytesOn(Data(h, Ints(d)), d, h.numBytes)
  }

  lemma {:induction false} SameBytes(ds: seq<int>, d: Platter, e: Platter, n: nat)
    requires Layout(ds) && n <= |ds| * 128 && forall s :: s in ds ==> d[s] == e[s]
    ensures BytesOn(ds, d, n) == BytesOn(ds, e, n)
  {
    forall o | 0 <= o < n
      ensures ByteOn(ds, d, o) == ByteOn(ds, e, o)
    {
      assert ds[o / 128] in ds;
    }
  }

  /** A file whose sectors keep their contents keeps its own. */
  lemma {:induction false} OtherFileKept(h: Header, d: Platter, e: Platter)
    requires Sound(h, Ints(d))
    requires forall s :: s in Owned(h, Ints(d)) ==> d[s] == e[s]
    ensures Sound(h, Ints(e)) && Owned(h, Ints(e)) == Owned(h, Ints(d)) && Content(h, e) == Content(h, d)
  {
    forall i | 0 <= i < IndexCount(h.numSectors) && IsSector(h.primary[i])
      ensures Ints(d)[h.primary[i]] == Ints(e)[h.primary[i]]
    {
      IndexIsOwned(h, Ints(d), i);
      IntsAt(d, h.primary[i]);
      IntsAt(e, h.primary[i]);
    }
    SameIndexSameFile(h, Ints(d), Ints(e));
    DataLayout(h, Ints(d));
    var ds := Data(h, Ints(d));
    forall s | s in ds
      ensures d[s] == e[s]
    {
      DataIsOwned(h, Ints(d), s);
    }
    SameBytes(ds, d, e, h.numBytes);
  }

  /** Writing a run of a file's data sectors leaves its list of sectors as it was and touches no
      sector the file does not own. */
  lemma {:induction false} RunKeepsIndex(h: Header, d: Platter, ds: seq<int>, i: nat, j: nat, buf: seq<byte>)
    requires Sound(h, Ints(d)) && ds == Data(h, Ints(d)) && Layout(ds)
    requires i <= j <= |ds| && |buf| >= (j - i) * 128
    ensures var e := WriteRun(ds, d, i, j, buf);
            && Sound(h, Ints(e)) && Data(h, Ints(e)) == ds && Owned(h, Ints(e)) == Owned(h, Ints(d))
            && forall s {:trigger e[s]} :: IsSector(s) && s !in Owned(h, Ints(d)) ==> e[s] == d[s]
  {
    var e := WriteRun(ds, d, i, j, buf);
    forall s | IsSector(s) && s !in ds
      ensures e[s] == d[s]
    {
      WriteRunFrame(ds, d, i, j, buf, s);
    }
    DataWritesKeepIndex(h, d, e);
    forall s | IsSector(s) && s !in Owned(h, Ints(d))
      ensures s !in ds
    {
      if s in ds {
        DataIsOwned(h, Ints(d), s);
      }
    }
  }

  /** Writing merged sectors back splices the new bytes into the file. */
  lemma {:induction false} ContentSpliced(h: Header, d: Platter, ds: seq<int>, buf: seq<byte>, from: seq<byte>,
                       position: nat, first: nat, last: nat)
    requires Sound(h, Ints(d)) && ds == Data(h, Ints(d)) && Layout(ds)
    requires 0 < |from| && position + |from| <= h.numBytes && Spans(first, last, position, |from|)
    requires |buf| == (1 + last - first) * 128 && Merged(buf, first * 128, Content(h, d), from, position)
    ensures last < |ds|
    ensures var e := WriteRun(ds, d, first, last + 1, buf);
            && Sound(h, Ints(e)) && Owned(h, Ints(e)) == Owned(h, Ints(d))
            && Content(h, e) == Splice(Content(h, d), from, position)
            && forall s {:trigger e[s]} :: IsSector(s) && s !in Owned(h, Ints(d)) ==> e[s] == d[s]
  {
    SpliceOfRun(ds, d, h.numBytes, buf, from, position, first, last);
    RunKeepsIndex(h, d, ds, first, last + 1, buf);
  }
}
