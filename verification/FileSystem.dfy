/** filesys/filesys.cc as a whole: formatting, opening, and every run of operations from a format on. */
module FileSystems {
  import opened Arith
  import opened BitMaps
  import opened Codec
  import opened Disks
  import opened FileIndex
  import opened FileHeaders
  import opened FileBytes
  import opened Directories
  import opened FileTrees
  import opened FileCreation
  import opened FileRemoval
  import opened FileClearing

  // ---- Formatting ----

  /** What a format starts from: disk and memory as they happen to be. */
  datatype Raw = Raw(index: IntPlatter, headers: Headers, tables: Tables, mapHdr: Header, dirHdr: Header,
                     junk: nat -> Slots, blend: (Entry, Entry, nat) -> Entry)

  predicate Whole(raw: Raw) { |raw.mapHdr.primary| == |raw.dirHdr.primary| == NUM_DIRECT }

  /** The allocations of a format: the map's header is in sector 0 and the root directory's in sector
      1; the map takes 128 bytes and the directory 120. */
  ghost function Formatted(raw: Raw): Fs
    requires Whole(raw)
  {
    FormatCounts();
    var x := AllocateResult(Image({0, 1}, raw.mapHdr.primary, raw.index), 128, raw.junk).1;
    var y := AllocateResult(Image(x.marks, raw.dirHdr.primary, x.disk), TABLE_SIZE, raw.junk).1;
    Fs(y.marks, y.disk,
       raw.headers[0 := NewHeader(raw.mapHdr, x.primary, 128, 1)][1 := NewHeader(raw.dirHdr, y.primary, TABLE_SIZE, 1)],
       raw.tables[1 := EmptyTable()], {0, 1}, seq(NUM_SECTORS, i => 0), raw.blend)
  }

  lemma FormatCounts()
    ensures SectorCount(128) == SectorCount(TABLE_SIZE) == 1 && IndexCount(1) == 1
  {
    assert IndexCount(0) == 0;
  }

  lemma {:induction false} RangeCount(n: nat)
    ensures ClearCount({}, n) == n
  {
    if n > 0 {
      RangeCount(n - 1);
      assert ClearBits({}, n) == ClearBits({}, n - 1) + {n - 1};
    } else {
      assert ClearBits({}, 0) == {};
    }
  }

  lemma EmptyMapCount()
    ensures ClearCount({0, 1}, NUM_SECTORS) == 1022
  {
    RangeCount(NUM_SECTORS);
    assert ClearBits({}, NUM_SECTORS) == ClearBits({0, 1}, NUM_SECTORS) + {0, 1};
  }

  /** A small file allocated on a map with room: usable, and on fresh sectors. */
  lemma {:induction false} SmallFile(m: set<int>, blank: Header, index: IntPlatter, size: nat, junk: nat -> Slots)
    requires |blank.primary| == NUM_DIRECT && 0 < size <= 128 && ClearCount(m, NUM_SECTORS) >= 2
    ensures SectorCount(size) == 1 && IndexCount(1) == 1
    ensures var x := AllocateResult(Image(m, blank.primary, index), size, junk).1;
            var h := NewHeader(blank, x.primary, size, 1);
            && Sound(h, x.disk) && FreshRun(m, Owned(h, x.disk), x.marks)
            && ClearCount(x.marks, NUM_SECTORS) == ClearCount(m, NUM_SECTORS) - 2
            && (forall s :: s in m && IsSector(s) ==> x.disk[s] == index[s])
  {
    FormatCounts();
    var image := Image(m, blank.primary, index);
    var x := AllocateResult(image, size, junk).1;
    var h := NewHeader(blank, x.primary, size, 1);
    AllocateMeaning(image, size, junk);
    AllocationSound(h, image, size, junk);
    OwnedLength(h.primary, x.disk, 0, 1);
  }

  /** The map's file has a bit for every sector, and the root directory ten entries; each takes one sector. */
  lemma {:induction false} FormatSizes(raw: Raw)
    requires Whole(raw)
    ensures var fs := Formatted(raw);
            && fs.headers[0].numBytes * 8 == NUM_SECTORS && fs.headers[1].numBytes == NUM_DIR_ENTRIES * ENTRY_SIZE
            && fs.headers[0].numSectors == fs.headers[1].numSectors == 1 && fs.headers[0].fileType == fs.headers[1].fileType == 1
  {
    FormatCounts();
  }

  /** A formatted disk is in order, and has 1018 clear sectors. */
  lemma {:induction false} FormatInv(raw: Raw)
    requires Whole(raw)
    ensures var fs := Formatted(raw);
            Inv(fs) && ClearCount(fs.marks, NUM_SECTORS) == 1018 && fs.live == {0, 1} && fs.tables[1] == EmptyTable() && fs.depth[1] == 0
  {
    EmptyMapCount();
    SmallFile({0, 1}, raw.mapHdr, raw.index, 128, raw.junk);
    var x := AllocateResult(Image({0, 1}, raw.mapHdr.primary, raw.index), 128, raw.junk).1;
    SmallFile(x.marks, raw.dirHdr, x.disk, TABLE_SIZE, raw.junk);
    TwoFiles(Formatted(raw), x.disk, x.marks);
    FormatTree(Formatted(raw));
  }

  /** Two files, one allocated after the other. */
  lemma {:induction false} TwoFiles(fs: Fs, v: IntPlatter, m: set<int>)
    requires fs.live == {0, 1} && Sound(fs.headers[0], v) && Sound(fs.headers[1], fs.index)
    requires FreshRun({0, 1}, Owned(fs.headers[0], v), m) && FreshRun(m, Owned(fs.headers[1], fs.index), fs.marks)
    requires forall s :: s in m && IsSector(s) ==> fs.index[s] == v[s]
    ensures FilesOk(fs)
  {
    MapKept(fs.headers[0], v, fs.index, m);
    SetOfIsElements(Owned(fs.headers[0], fs.index));
    SetOfIsElements(Owned(fs.headers[1], fs.index));
    var first, second := OwnedBy(fs, 0), OwnedBy(fs, 1);
    assert first !! {0, 1} && m == {0, 1} + first && second !! m && fs.marks == m + second;
    assert FileOk(fs, 0) && FileOk(fs, 1);
  }

  lemma {:induction false} FormatTree(fs: Fs)
    requires fs.live == {0, 1} && fs.tables[1] == EmptyTable() && fs.headers[0].fileType == fs.headers[1].fileType == 1
    requires fs.headers[1].numBytes == TABLE_SIZE
    ensures TreeOk(fs)
  {
    assert TableOk(fs, 1);
  }

  lemma {:induction false} MapKept(h: Header, v: IntPlatter, w: IntPlatter, m: set<int>)
    requires Sound(h, v) && Elements(Owned(h, v)) <= m && forall s :: s in m && IsSector(s) ==> w[s] == v[s]
    ensures Sound(h, w) && Owned(h, w) == Owned(h, v)
  {
    forall i | 0 <= i < IndexCount(h.numSectors) && IsSector(h.primary[i])
      ensures v[h.primary[i]] == w[h.primary[i]]
    {
      IndexIsOwned(h, v, i);
      assert h.primary[i] as int in Elements(Owned(h, v));
    }
    SameIndexSameFile(h, v, w);
  }

  // ---- Opening ----

  function MoreOne(n: int32): int32 { if n == 0x7FFF_FFFF then -0x8000_0000 else n + 1 }

  /** Open counts a visit when the file is there. */
  function Opened(fs: Fs, path: seq<string>): Fs
    requires path != []
  {
    var s := Target(fs, path);
    if IsFile(fs, s) then Visits(fs, s, MoreOne(fs.headers[s].numVisits)) else fs
  }

  /** Opening counts one visit of the file that the path leads to, does nothing else, and keeps the file
      system in order, whatever files the path leads through. */
  lemma {:induction false} OpenKeeps(fs: Fs, path: seq<string>)
    requires Inv(fs) && path != [] && !Strays(fs, path)
    ensures var fs', s := Opened(fs, path), Target(fs, path);
            && Inv(fs')
            && (s == -1 ==> fs' == fs)
            && (s != -1 ==> IsFile(fs, s) && fs' == fs.(headers := fs.headers[s := fs'.headers[s]])
                            && OneVisitLess(fs'.headers[s], fs.headers[s]))
  {
    var s := Target(fs, path);
    if IsFile(fs, s) {
      VisitsKeep(fs, s, MoreOne(fs.headers[s].numVisits));
    }
  }

  lemma {:induction false} FollowVisits(fs: Fs, s: int, n: int32, d: int, table: Table, names: seq<string>)
    requires IsSector(s)
    ensures Follow(Visits(fs, s, n), d, table, names) == Follow(fs, d, table, names)
    decreases |names|
  {
    if names != [] {
      var t := Lookup(table, names[0]);
      if IsFile(fs, t) {
        assert Fetched(Visits(fs, s, n), t, table) == Fetched(fs, t, table);
        FollowVisits(fs, s, n, t, Fetched(fs, t, table), names[1..]);
      }
    }
  }

  /** A plain file that is opened and then removed: the removal is refused, and takes the visit back, unless
      it was the first visit; then the file goes. */
  lemma {:induction false} OpenThenRemove(fs: Fs, path: seq<string>, levels: nat, junk: nat -> Slots)
    requires Inv(fs) && path != [] && !Strays(fs, path) && Target(fs, path) != -1 && fs.headers[Target(fs, path)].fileType == 0
    ensures var s := Target(fs, path);
            if fs.headers[s].numVisits == 0 then RemovePath(Opened(fs, path), path, levels, junk).0 == Yes
            else RemovePath(Opened(fs, path), path, levels, junk) == (No, fs)
  {
    var s, fs' := Target(fs, path), Opened(fs, path);
    var n := MoreOne(fs.headers[s].numVisits);
    assert Inv(fs') && IsFile(fs, s) && fs' == Visits(fs, s, n) by { OpenKeeps(fs, path); }
    assert IsFile(fs, Resolve(fs, path).file) by { FollowEnds(fs, 1, fs.tables[1], Inner(path)); }
    assert Resolve(fs', path) == Resolve(fs, path) by { FollowVisits(fs, s, n, 1, fs.tables[1], Inner(path)); }
    if fs.headers[s].numVisits == 0 {
      GoesNow(fs', s);
    } else {
      BackAgain(fs, s);
    }
  }

  lemma {:induction false} GoesNow(fs: Fs, s: int)
    requires Inv(fs) && IsFile(fs, s)
    ensures CanFree(Left(fs, s), s)
  {
    VisitsKeep(fs, s, LessOne(fs.headers[s].numVisits));
    LiveCanFree(Left(fs, s), s);
  }

  /** A visit counted and taken back. */
  lemma {:induction false} BackAgain(fs: Fs, s: int)
    requires IsSector(s)
    ensures Left(Visits(fs, s, MoreOne(fs.headers[s].numVisits)), s) == fs
  {
    var back := Left(Visits(fs, s, MoreOne(fs.headers[s].numVisits)), s);
    assert back.headers[s] == fs.headers[s];
    assert back.headers == fs.headers;
  }

  // ---- Whole runs ----

  /** StoreFile: a write into the sectors that a plain file has. */
  datatype Op = MakeFile(path: seq<string>, size: nat, kind: int32, blank: Header, contents: Table, junk: nat -> Slots)
              | OpenFile(path: seq<string>)
              | StoreFile(path: seq<string>, contents: Table)
              | RemoveFile(path: seq<string>, levels: nat, junk: nat -> Slots)

  /** A removal that keeps the file system in order. */
  ghost predicate Orderly(fs: Fs, path: seq<string>)
    requires path != []
  {
    var s := Target(fs, path);
    IsFile(fs, s) ==>
      if |path| == 1 && IsDirectory(fs, s) then
        && IndexOf(fs.tables[s], Last(path)) == -1
        && forall j :: 0 <= j < NUM_DIR_ENTRIES && fs.tables[s][j].inUse ==> !Goes(fs, fs.tables[s][j].name)
      else
        Resolve(fs, path).At? && (IsDirectory(fs, Resolve(fs, path).file) || !Leaves(fs, s)
                                  || (IsFile(fs, Resolve(fs, path).file) && Harmless(fs, Resolve(fs, path).file, s)))
  }

  /** What a run may ask for: a file or directory of a size that the index can hold, where the inner
      names of its path lead to a table, and with room for it all if it is not refused; and a removal
      that is orderly.  Paths do not stray. */
  ghost predicate Allowed(fs: Fs, op: Op) {
    op.path != [] && match op
    case MakeFile(path, size, kind, blank, contents, junk) =>
      && Resolve(fs, path).At? && IsSector(Resolve(fs, path).file)
      && |blank.primary| == NUM_DIRECT && (kind == 0 || kind == 1)
      && size < 0x8000_0000 && IndexCount(SectorCount(size)) <= NUM_DIRECT
      && (var At(w, table) := Resolve(fs, path);
          Create(fs, w, table, Last(path), size, kind, blank, contents, junk).0 == Yes ==> Yields(fs, w, size, kind))
    case OpenFile(path) => !Strays(fs, path)
    case StoreFile(path, contents) =>
      var s := Target(fs, path);
      IsFile(fs, s) && !IsDirectory(fs, s)
    case RemoveFile(path, levels, junk) => Proper(fs, path) && Covers(fs, levels) && Orderly(fs, path)
  }

  ghost function Done(fs: Fs, op: Op): Fs
    requires Allowed(fs, op)
  {
    match op
    case MakeFile(path, size, kind, blank, contents, junk) =>
      var At(w, table) := Resolve(fs, path);
      Create(fs, w, table, Last(path), size, kind, blank, contents, junk).1
    case OpenFile(path) => Opened(fs, path)
    case StoreFile(path, contents) => fs.(tables := fs.tables[Target(fs, path) := contents])
    case RemoveFile(path, levels, junk) => RemovePath(fs, path, levels, junk).1
  }

  lemma {:induction false} MakeInv(fs: Fs, op: Op)
    requires Inv(fs) && Allowed(fs, op) && op.MakeFile?
    ensures Inv(Done(fs, op))
  {
    FollowEnds(fs, 1, fs.tables[1], Inner(op.path));
    var At(w, table) := Resolve(fs, op.path);
    CreateKeeps(fs, w, table, Last(op.path), op.size, op.kind, op.blank, op.contents, op.junk);
  }

  lemma {:induction false} StoreInv(fs: Fs, s: int, contents: Table)
    requires Inv(fs) && IsFile(fs, s) && !IsDirectory(fs, s)
    ensures Inv(fs.(tables := fs.tables[s := contents]))
  {
    var fs' := fs.(tables := fs.tables[s := contents]);
    OwnedMarked(fs);
    SameFiles(fs, fs');
    TreeSizes(fs);
    SameTree(fs, fs');
  }

  /** A write changes the bytes of its file and nothing else. */
  lemma {:induction false} StoredThere(fs: Fs, path: seq<string>, contents: Table)
    requires Inv(fs) && Allowed(fs, StoreFile(path, contents))
    ensures var fs', s := Done(fs, StoreFile(path, contents)), Target(fs, path);
            fs'.tables[s] == contents && fs' == fs.(tables := fs'.tables) && forall e :: IsSector(e) && e != s ==> fs'.tables[e] == fs.tables[e]
  {
  }

  /** An orderly removal keeps the file system in order, and no other does. */
  lemma {:induction false} RemoveInv(fs: Fs, path: seq<string>, levels: nat, junk: nat -> Slots)
    requires Inv(fs) && Proper(fs, path) && Covers(fs, levels)
    ensures var (answer, fs') := RemovePath(fs, path, levels, junk);
            answer != Stopped ==> (Inv(fs') <==> Orderly(fs, path))
    ensures Orderly(fs, path) ==> RemovePath(fs, path, levels, junk).0 != Stopped
  {
    var s := Target(fs, path);
    if IsFile(fs, s) {
      assert fs.depth[1] < levels;
      if |path| == 1 && IsDirectory(fs, s) {
        assert path == [Last(path)] && Inner(path) == [];
        OneComponent(fs, Last(path), levels, junk);
      } else {
        var At(w, table) := Resolve(fs, path);
        RemoveKeeps(fs, path, w, table, s, levels, junk);
      }
    }
  }

  lemma {:induction false} DoneInv(fs: Fs, op: Op)
    requires Inv(fs) && Allowed(fs, op)
    ensures Inv(Done(fs, op))
  {
    match op
    case MakeFile(_, _, _, _, _, _) => MakeInv(fs, op);
    case OpenFile(path) => OpenKeeps(fs, path);
    case StoreFile(path, contents) => StoreInv(fs, Target(fs, path), contents);
    case RemoveFile(path, levels, junk) => RemoveInv(fs, path, levels, junk);
  }

  ghost predicate Runs(fs: Fs, ops: seq<Op>, e: Fs)
    decreases |ops|
  {
    if ops == [] then e == fs else Allowed(fs, ops[0]) && Runs(Done(fs, ops[0]), ops[1..], e)
  }

  lemma {:induction false} RunKeepsInv(fs: Fs, ops: seq<Op>, e: Fs)
    requires Inv(fs) && Runs(fs, ops, e)
    ensures Inv(e)
    decreases |ops|
  {
    if ops != [] {
      DoneInv(fs, ops[0]);
      RunKeepsInv(Done(fs, ops[0]), ops[1..], e);
    }
  }

  /** The file is usable, and its header sector and everything it owns is marked. */
  ghost predicate AllMarked(fs: Fs, s: int)
    requires IsSector(s)
  {
    Sound(fs.headers[s], fs.index) && OwnedBy(fs, s) + {s} <= fs.marks
  }

  /** Two files have no sector in common. */
  ghost predicate Separate(fs: Fs, s: int, t: int)
    requires IsSector(s) && IsSector(t)
  {
    && WellFormed(fs.headers[s]) && WellFormed(fs.headers[t])
    && OwnedBy(fs, s) + {s} !! OwnedBy(fs, t) + {t}
  }

  /** In every state reached from a format: no sector belongs to two live files, everything a live file
      owns is marked and so is its header, and the names in every directory are unique. */
  lemma {:induction false} NothingShared(raw: Raw, ops: seq<Op>, e: Fs)
    requires Whole(raw) && Runs(Formatted(raw), ops, e)
    ensures forall s :: s in e.live ==> AllMarked(e, s)
    ensures forall s, t :: s in e.live && t in e.live && s != t ==> Separate(e, s, t)
    ensures forall d :: IsDirectory(e, d) ==> NamesUnique(e.tables[d])
  {
    FormatInv(raw);
    RunKeepsInv(Formatted(raw), ops, e);
    InOrder(e);
  }

  lemma {:induction false} InOrder(e: Fs)
    requires Inv(e)
    ensures forall s :: s in e.live ==> AllMarked(e, s)
    ensures forall s, t :: s in e.live && t in e.live && s != t ==> Separate(e, s, t)
    ensures forall d :: IsDirectory(e, d) ==> NamesUnique(e.tables[d])
  {
    forall s | s in e.live
      ensures AllMarked(e, s)
    {
      assert FileOk(e, s);
    }
    forall s, t | s in e.live && t in e.live && s != t
      ensures Separate(e, s, t)
    {
      assert FileOk(e, s) && FileOk(e, t);
    }
    forall d | IsDirectory(e, d)
      ensures NamesUnique(e.tables[d])
    {
      assert TableOk(e, d);
    }
  }
}
