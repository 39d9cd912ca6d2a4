/** Bytes laid out over a list of distinct sectors, and runs of whole-sector reads and writes. */
module SectorRuns {
  import opened Codec
  import opened Disks

  /** A file's data sectors, in file order. */
  ghost predicate Layout(ds: seq<int>) {
    && (forall k :: 0 <= k < |ds| ==> IsSector(ds[k]))
    && (forall j, k :: 0 <= j < k < |ds| ==> ds[j] != ds[k])
  }

  /** Byte o of the sectors ds. */
  function ByteOn(ds: seq<int>, d: Platter, o: nat): byte
    requires o < |ds| * 128 && IsSector(ds[o / 128])
  {
    d[ds[o / 128]][o % 128]
  }

  /** The first n bytes of the sectors ds. */
  ghost function BytesOn(ds: seq<int>, d: Platter, n: nat): (c: seq<byte>)
    requires Layout(ds) && n <= |ds| * 128
    ensures |c| == n
  {
    seq(n, o requires 0 <= o < n => ByteOn(ds, d, o))
  }

  /** Sectors i..j, one after the other. */
  function ReadRun(ds: seq<int>, d: Platter, i: nat, j: nat): (run: seq<byte>)
    requires Layout(ds) && i <= j <= |ds|
    ensures |run| == (j - i) * 128
    decreases j - i
  {
    if i == j then [] else assert IsSector(ds[j - 1]); ReadRun(ds, d, i, j - 1) + d[ds[j - 1]]
  }

  lemma {:induction false} ReadRunStep(ds: seq<int>, d: Platter, i: nat, j: nat)
    requires Layout(ds) && i <= j < |ds|
    ensures IsSector(ds[j]) && ReadRun(ds, d, i, j + 1) == ReadRun(ds, d, i, j) + d[ds[j]]
  {
    assert IsSector(ds[j]);
  }

  lemma {:induction false} ReadRunAt(ds: seq<int>, d: Platter, i: nat, j: nat, k: nat, r: nat)
    requires Layout(ds) && i <= k < j <= |ds| && r < 128
    ensures ReadRun(ds, d, i, j)[(k - i) * 128 + r] == d[ds[k]][r]
    decreases j - i
  {
    assert IsSector(ds[j - 1]);
    if k < j - 1 {
      ReadRunAt(ds, d, i, j - 1, k, r);
    }
  }

  /** A run of reads returns the bytes in its range. */
  lemma {:induction false} ReadRunMeaning(ds: seq<int>, d: Platter, i: nat, j: nat, o: nat)
    requires Layout(ds) && i <= j <= |ds| && i * 128 <= o < j * 128
    ensures ReadRun(ds, d, i, j)[o - i * 128] == ByteOn(ds, d, o)
  {
    ReadRunAt(ds, d, i, j, o / 128, o % 128);
  }

  /** The k-th sector's worth of a buffer. */
  function Piece(buf: seq<byte>, k: nat): Sector
    requires (k + 1) * 128 <= |buf|
  {
    buf[k * 128..(k + 1) * 128]
  }

  /** The disk after writing sectors i..j from a buffer. */
  function WriteRun(ds: seq<int>, d: Platter, i: nat, j: nat, buf: seq<byte>): Platter
    requires Layout(ds) && i <= j <= |ds| && |buf| >= (j - i) * 128
    decreases j - i
  {
    if i == j then d
    else
      assert IsSector(ds[j - 1]);
      WriteRun(ds, d, i, j - 1, buf)[ds[j - 1] := Piece(buf, j - 1 - i)]
  }

  /** A run of writes touches no other sector. */
  lemma {:induction false} WriteRunFrame(ds: seq<int>, d: Platter, i: nat, j: nat, buf: seq<byte>, s: int)
    requires Layout(ds) && i <= j <= |ds| && |buf| >= (j - i) * 128
    requires IsSector(s) && forall k :: i <= k < j ==> ds[k] != s
    ensures WriteRun(ds, d, i, j, buf)[s] == d[s]
    decreases j - i
  {
    if i < j {
      WriteRunFrame(ds, d, i, j - 1, buf, s);
    }
  }

  /** A run of writes puts each part of the buffer in its sector. */
  lemma {:induction false} WriteRunSectors(ds: seq<int>, d: Platter, i: nat, j: nat, buf: seq<byte>, k: nat)
    requires Layout(ds) && i <= k < j <= |ds| && |buf| >= (j - i) * 128
    ensures WriteRun(ds, d, i, j, buf)[ds[k]] == Piece(buf, k - i)
    decreases j - i
  {
    if k < j - 1 {
      WriteRunSectors(ds, d, i, j - 1, buf, k);
    }
  }

  /** A run of writes changes exactly the bytes in its range. */
  lemma {:induction false} WriteRunMeaning(ds: seq<int>, d: Platter, i: nat, j: nat, buf: seq<byte>, o: nat)
    requires Layout(ds) && i <= j <= |ds| && |buf| >= (j - i) * 128 && o < |ds| * 128
    ensures ByteOn(ds, WriteRun(ds, d, i, j, buf), o)
            == if i * 128 <= o < j * 128 then buf[o - i * 128] else ByteOn(ds, d, o)
  {
    var k := o / 128;
    if i <= k < j {
      WriteRunSectors(ds, d, i, j, buf, k);
    } else {
      WriteRunFrame(ds, d, i, j, buf, ds[k]);
    }
  }

  // ---- Byte ranges ----

  /** What a write of `from` at position makes of the contents. */
  function Splice(c: seq<byte>, from: seq<byte>, position: nat): (s: seq<byte>)
    requires position + |from| <= |c|
    ensures |s| == |c|
  {
    c[..position] + from + c[position + |from|..]
  }

  /** Sectors first..last are those that a byte range touches. */
  predicate Spans(first: nat, last: nat, position: nat, count: nat) {
    first * 128 <= position < first * 128 + 128 && last * 128 < position + count <= last * 128 + 128
  }

  /** The part of a run of whole sectors that a byte range wants. */
  lemma {:induction false} SliceOfRun(ds: seq<int>, d: Platter, n: nat, position: nat, count: nat, first: nat, last: nat)
    requires Layout(ds) && n <= |ds| * 128 && 0 < count && position + count <= n
    requires Spans(first, last, position, count)
    ensures first <= last < |ds|
    ensures var run, skip := ReadRun(ds, d, first, last + 1), position - first * 128;
            && 0 <= skip && skip + count <= |run|
            && run[skip..skip + count] == BytesOn(ds, d, n)[position..position + count]
  {
    var run, skip := ReadRun(ds, d, first, last + 1), position - first * 128;
    forall b | skip <= b < skip + count
      ensures run[b] == BytesOn(ds, d, n)[first * 128 + b]
    {
      ReadRunMeaning(ds, d, first, last + 1, first * 128 + b);
    }
  }

  /** A buffer of the whole sectors from byte `start` on that holds the new bytes in place and,
      below the end of the contents c, the old bytes around them. */
  ghost predicate Merged(buf: seq<byte>, start: nat, c: seq<byte>, from: seq<byte>, position: nat) {
    forall o :: start <= o < start + |buf| ==>
      if position <= o < position + |from| then buf[o - start] == from[o - position]
      else o < |c| ==> buf[o - start] == c[o]
  }

  /** What a read of numBytes at position yields: the request clipped to the contents. */
  function Slice(c: seq<byte>, numBytes: int, position: nat): seq<byte> {
    if numBytes <= 0 || position >= |c| then []
    else if position + numBytes > |c| then c[position..]
    else c[position..position + numBytes]
  }

  /** The bytes from the position on, as many as were asked for, or all there are. */
  lemma {:induction false} SliceMeaning(c: seq<byte>, numBytes: int, position: nat)
    ensures var r := Slice(c, numBytes, position);
            && (forall k :: 0 <= k < |r| ==> position + k < |c| && r[k] == c[position + k])
            && (numBytes <= 0 ==> r == []) && (numBytes > 0 ==> |r| <= numBytes)
            && (|r| < numBytes ==> |c| <= position + |r|)
  {
  }

  lemma {:induction false} SliceShort(c: seq<byte>, p: nat)
    ensures |Slice(c, 128, p)| <= 128
  {
  }

  lemma {:induction false} SliceAt(c: seq<byte>, p: nat, o: nat)
    requires p <= o < p + 128 && o < |c|
    ensures o - p < |Slice(c, 128, p)| && Slice(c, 128, p)[o - p] == c[o]
  {
  }

  /** The buffer after the first sector, from byte `start` on, and the last, from byte `end` on, have been
      read in where that is needed for bytes `position` up to `stop`. */
  ghost predicate ReadIn(c: seq<byte>, buf0: seq<byte>, buf1: seq<byte>, buf2: seq<byte>, position: nat, stop: nat, start: nat, end: nat) {
    && start <= end && |buf0| == end - start + 128 && |Slice(c, 128, start)| <= 128 && |Slice(c, 128, end)| <= 128
    && buf1 == (if position == start then buf0 else Splice(buf0, Slice(c, 128, start), 0))
    && buf2 == if stop != end + 128 && (start != end || position == start) then Splice(buf1, Slice(c, 128, end), end - start) else buf1
  }

  /** A byte before the range is in the first sector. */
  lemma {:induction false} ByteBefore(c: seq<byte>, buf0: seq<byte>, buf1: seq<byte>, buf2: seq<byte>, position: nat, stop: nat, start: nat, end: nat, o: nat)
    requires ReadIn(c, buf0, buf1, buf2, position, stop, start, end) && (start == end || start + 128 <= end)
    requires start <= o < position < start + 128 && o < |c|
    ensures buf2[o - start] == c[o]
  {
    SliceAt(c, start, o);
  }

  /** A byte after the range is in the last sector. */
  lemma {:induction false} ByteAfter(c: seq<byte>, buf0: seq<byte>, buf1: seq<byte>, buf2: seq<byte>, position: nat, stop: nat, start: nat, end: nat, o: nat)
    requires ReadIn(c, buf0, buf1, buf2, position, stop, start, end)
    requires position < stop && end < stop <= o < end + 128 && o < |c|
    ensures buf2[o - start] == c[o]
  {
    SliceAt(c, end, o);
  }

  /** The buffer holds the old bytes around the range. */
  ghost predicate Around(buf: seq<byte>, start: nat, c: seq<byte>, position: nat, stop: nat) {
    forall o :: start <= o < start + |buf| && o < |c| && !(position <= o < stop) ==> buf[o - start] == c[o]
  }

  lemma {:induction false} ReadInAround(c: seq<byte>, buf0: seq<byte>, buf1: seq<byte>, buf2: seq<byte>, position: nat, stop: nat, start: nat, end: nat)
    requires ReadIn(c, buf0, buf1, buf2, position, stop, start, end) && (start == end || start + 128 <= end)
    requires start <= position < start + 128 && position < stop && end < stop <= end + 128
    ensures Around(buf2, start, c, position, stop)
  {
    forall o | start <= o < start + |buf2| && o < |c| && !(position <= o < stop)
      ensures buf2[o - start] == c[o]
    {
      if o < position {
        ByteBefore(c, buf0, buf1, buf2, position, stop, start, end, o);
      } else {
        ByteAfter(c, buf0, buf1, buf2, position, stop, start, end, o);
      }
    }
  }

  lemma {:induction false} SpliceAt(c: seq<byte>, from: seq<byte>, position: nat, k: nat)
    requires position + |from| <= |c| && k < |c|
    ensures Splice(c, from, position)[k] == if position <= k < position + |from| then from[k - position] else c[k]
  {
  }

  /** With the new bytes copied over it such a buffer is merged. */
  lemma {:induction false} AroundMerged(buf: seq<byte>, start: nat, c: seq<byte>, from: seq<byte>, position: nat)
    requires start <= position && position - start + |from| <= |buf| && Around(buf, start, c, position, position + |from|)
    ensures Merged(Splice(buf, from, position - start), start, c, from, position)
  {
    forall o | start <= o < start + |buf|
      ensures var b := Splice(buf, from, position - start)[o - start];
              if position <= o < position + |from| then b == from[o - position] else o < |c| ==> b == c[o]
    {
      SpliceAt(buf, from, position - start, o - start);
    }
  }

  /** WriteAt's buffer is merged: the first and last sectors are read in where they are only partly
      overwritten, and the new bytes are copied over them. */
  lemma {:induction false} BufferMerged(c: seq<byte>, buf0: seq<byte>, buf1: seq<byte>, buf2: seq<byte>, from: seq<byte>,
                     position: nat, first: nat, last: nat)
    requires 0 < |from| && position + |from| <= |c|
    requires Spans(first, last, position, |from|)
    requires |buf0| == (1 + last - first) * 128 && |Slice(c, 128, first * 128)| <= 128 && |Slice(c, 128, last * 128)| <= 128
    requires buf1 == if position == first * 128 then buf0 else Splice(buf0, Slice(c, 128, first * 128), 0)
    requires buf2 == if position + |from| != (last + 1) * 128 && (first != last || position == first * 128)
                     then Splice(buf1, Slice(c, 128, last * 128), (last - first) * 128) else buf1
    ensures position - first * 128 >= 0 && position - first * 128 + |from| <= |buf2|
    ensures Merged(Splice(buf2, from, position - first * 128), first * 128, c, from, position)
  {
    var start, end := first * 128, last * 128;
    assert first < last ==> start + 128 <= end;
    ReadInAround(c, buf0, buf1, buf2, position, position + |from|, start, end);
    AroundMerged(buf2, start, c, from, position);
  }

  /** Writing back the merged sectors splices the new bytes into the contents. */
  lemma {:induction false} SpliceOfRun(ds: seq<int>, d: Platter, n: nat, buf: seq<byte>, from: seq<byte>, position: nat, first: nat, last: nat)
    requires Layout(ds) && n <= |ds| * 128 && 0 < |from| && position + |from| <= n
    requires Spans(first, last, position, |from|)
    requires |buf| == (1 + last - first) * 128 && Merged(buf, first * 128, BytesOn(ds, d, n), from, position)
    ensures last < |ds|
    ensures BytesOn(ds, WriteRun(ds, d, first, last + 1, buf), n) == Splice(BytesOn(ds, d, n), from, position)
  {
    var e := WriteRun(ds, d, first, last + 1, buf);
    var c := BytesOn(ds, d, n);
    forall o | 0 <= o < n
      ensures BytesOn(ds, e, n)[o] == Splice(c, from, position)[o]
    {
      WriteRunMeaning(ds, d, first, last + 1, buf, o);
      assert c[o] == ByteOn(ds, d, o);
    }
  }
}
