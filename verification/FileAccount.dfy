/** Every marked sector belongs to exactly one live file, over whole runs. */
module FileAccounts {
  import opened Arith
  import opened BitMaps
  import opened Codec
  import opened Disks
  import opened FileIndex
  import opened FileHeaders
  import opened FileBytes
  import opened Directories
  import opened FileTrees
  import opened FileCreation
  import opened FileRemoval
  import opened FileClearing
  import opened FileSystems

  /** The sector is the header of live file s, or belongs to it. */
  ghost predicate Holds(fs: Fs, s: int, x: int) { s in fs.live && (x == s || x in Freed(fs, s)) }

  ghost predicate Held(fs: Fs, x: int) { exists s :: Holds(fs, s, x) }

  /** Every marked sector belongs to some live file. */
  ghost predicate Accounted(fs: Fs) { forall x {:trigger Held(fs, x)} :: x in fs.marks ==> Held(fs, x) }

  lemma {:induction false} FormatAccounted(raw: Raw)
    requires Whole(raw)
    ensures Accounted(Formatted(raw))
  {
    var fs := Formatted(raw);
    EmptyMapCount();
    SmallFile({0, 1}, raw.mapHdr, raw.index, 128, raw.junk);
    var x := AllocateResult(Image({0, 1}, raw.mapHdr.primary, raw.index), 128, raw.junk).1;
    SmallFile(x.marks, raw.dirHdr, x.disk, TABLE_SIZE, raw.junk);
    TwoFilesAccounted(fs, x.disk, x.marks);
  }

  lemma {:induction false} TwoFilesAccounted(fs: Fs, v: IntPlatter, m: set<int>)
    requires fs.live == {0, 1} && Sound(fs.headers[0], v) && Sound(fs.headers[1], fs.index)
    requires FreshRun({0, 1}, Owned(fs.headers[0], v), m) && FreshRun(m, Owned(fs.headers[1], fs.index), fs.marks)
    requires forall s :: s in m && IsSector(s) ==> fs.index[s] == v[s]
    ensures Accounted(fs)
  {
    MapKept(fs.headers[0], v, fs.index, m);
    SetOfIsElements(Owned(fs.headers[0], fs.index));
    SetOfIsElements(Owned(fs.headers[1], fs.index));
    forall x | x in fs.marks
      ensures Held(fs, x)
    {
      assert Holds(fs, 0, x) || Holds(fs, 1, x);
    }
  }

  /** Live files that keep their sectors account for a map that has not changed. */
  lemma {:induction false} StillAccounted(fs: Fs, fs': Fs)
    requires Accounted(fs) && fs'.marks == fs.marks && fs'.live == fs.live
    requires forall s :: s in fs.live ==> Freed(fs', s) == Freed(fs, s)
    ensures Accounted(fs')
  {
    forall x | x in fs'.marks
      ensures Held(fs', x)
    {
      assert Held(fs, x);
      var s :| Holds(fs, s, x);
      assert Holds(fs', s, x);
    }
  }

  /** Files keep their sectors with their extents, where marked sectors keep their contents. */
  lemma {:induction false} SameFreed(fs: Fs, fs': Fs)
    requires FilesOk(fs) && fs'.live <= fs.live
    requires forall s :: s in fs'.live ==> SameExtents(fs.headers[s], fs'.headers[s]) && WellFormed(fs'.headers[s])
    requires forall t {:trigger fs'.index[t]} :: t in fs.marks && IsSector(t) ==> fs'.index[t] == fs.index[t]
    ensures forall s :: s in fs'.live ==> Freed(fs', s) == Freed(fs, s)
  {
    forall s | s in fs'.live
      ensures Freed(fs', s) == Freed(fs, s)
    {
      assert FileOk(fs, s);
      IndexKept(fs, s, fs'.index);
    }
  }

  lemma {:induction false} ClearedAccounted(fs: Fs, mid: Fs, files: set<int>)
    requires Inv(fs) && Accounted(fs) && Cleared(fs, mid, files)
    ensures Accounted(mid)
  {
    forall x | x in mid.marks
      ensures Held(mid, x)
    {
      assert Held(fs, x);
      var s :| Holds(fs, s, x);
      assert !Goer(fs, files, s);
      assert FileOk(fs, s) && SameExtents(fs.headers[s], mid.headers[s]);
      assert Holds(mid, s, x);
    }
  }

  lemma {:induction false} ClearedFiles(fs: Fs, mid: Fs, files: set<int>)
    requires FilesOk(fs) && Cleared(fs, mid, files)
    ensures FilesOk(mid)
  {
    forall s | s in mid.live
      ensures WellFormed(fs.headers[s]) && OwnedBy(fs, s) + {s} <= mid.marks && SameExtents(fs.headers[s], mid.headers[s])
      ensures s in fs.live && mid.headers[s].numBytes == fs.headers[s].numBytes
    {
      assert FileOk(fs, s);
      StillMarked(fs, mid, files, s);
    }
    SameFiles(fs, mid);
  }

  /** A table that goes back into a file with sectors. */
  lemma {:induction false} WrittenAccounted(mid: Fs, w: int, table: Table, junk: nat -> Slots)
    requires Accounted(mid) && IsSector(w) && Sound(mid.headers[w], mid.index) && mid.headers[w].numSectors > 0
    ensures Accounted(WrittenBack(mid, w, table, junk))
  {
    WrittenInPlace(mid, w, table, junk);
    StillAccounted(mid, WrittenBack(mid, w, table, junk));
  }

  /** A table that goes into a file that is gone. */
  lemma {:induction false} WrittenToGone(mid: Fs, w: int, table: Table, junk: nat -> Slots)
    requires Accounted(mid) && FilesOk(mid) && IsSector(w) && w !in mid.live && w !in mid.marks
    requires Sound(mid.headers[w], mid.index) && mid.headers[w].numSectors == 0
    ensures Accounted(WrittenBack(mid, w, table, junk))
  {
    LowestClearMeaning(mid.marks, NUM_SECTORS);
    WrittenIntoEmpty(mid, w, table, junk);
    var fs' := WrittenBack(mid, w, table, junk);
    OwnedMarked(mid);
    SameFreed(mid, fs');
    StillAccounted(mid, fs');
  }

  lemma {:induction false} SameSound(fs: Fs, mid: Fs, files: set<int>, w: int)
    requires FilesOk(fs) && Cleared(fs, mid, files) && w in fs.live
    ensures Sound(mid.headers[w], mid.index) && mid.headers[w].numSectors == fs.headers[w].numSectors
  {
    assert FileOk(fs, w) && SameExtents(fs.headers[w], mid.headers[w]) && mid.headers[w].numBytes == fs.headers[w].numBytes;
  }

  lemma {:induction false} RemovedAccounted(fs: Fs, path: seq<string>, w: int, table: Table, s: int, levels: nat, junk: nat -> Slots)
    requires Leads(fs, path, w, table, s) && Covers(fs, levels) && Accounted(fs)
    requires IsFile(fs, w) && (IsDirectory(fs, w) || !Leaves(fs, s) || Harmless(fs, w, s))
    ensures Accounted(RemovePath(fs, path, levels, junk).1)
  {
    assert fs.depth[1] < levels;
    SubtreeMeaning(fs, s, levels);
    var files := Subtree(fs, s, levels);
    var mid := RemoveClears(fs, path, w, table, s, files, levels, junk);
    ClearedAccounted(fs, mid, files);
    ClearedFiles(fs, mid, files);
    if Leaves(fs, s) {
      SameSound(fs, mid, files, w);
      if fs.headers[w].numSectors > 0 {
        WrittenAccounted(mid, w, WithoutEntry(table, Last(path)), junk);
      } else {
        assert !IsDirectory(fs, w) by {
          if IsDirectory(fs, w) {
            DirectorySectors(fs, w);
          }
        }
        assert Goer(fs, files, s);
        assert GivenUp(fs, files, s);
        WrittenToGone(mid, w, WithoutEntry(table, Last(path)), junk);
      }
    }
  }

  lemma {:induction false} BareAccounted(fs: Fs, name: string, s: int, levels: nat, junk: nat -> Slots)
    requires Inv(fs) && Covers(fs, levels) && s == Lookup(fs.tables[1], name) && IsDirectory(fs, s) && Accounted(fs)
    ensures Accounted(RemovePath(fs, [name], levels, junk).1)
  {
    assert fs.depth[1] < levels;
    ForestMeaning(fs, 1, fs.tables[s], 0, levels - 1);
    var files := Forest(fs, 1, fs.tables[s], 0, levels - 1);
    var mid := BareClears(fs, name, s, files, levels, junk);
    if IndexOf(fs.tables[s], name) != -1 {
      ClearedAccounted(fs, mid, files);
    } else {
      ClearedAccounted(fs, mid, files + {s});
      SameSound(fs, mid, files + {s}, 1);
      DirectorySectors(fs, 1);
      WrittenAccounted(mid, 1, WithoutEntry(fs.tables[1], name), junk);
    }
  }

  lemma {:induction false} RemoveAccounted(fs: Fs, path: seq<string>, levels: nat, junk: nat -> Slots)
    requires Inv(fs) && Accounted(fs) && Proper(fs, path) && Covers(fs, levels) && Orderly(fs, path)
    ensures Accounted(RemovePath(fs, path, levels, junk).1)
  {
    var s := Target(fs, path);
    if IsFile(fs, s) {
      if |path| == 1 && IsDirectory(fs, s) {
        assert path == [Last(path)] && Inner(path) == [];
        BareAccounted(fs, Last(path), s, levels, junk);
      } else {
        var At(w, table) := Resolve(fs, path);
        FollowEnds(fs, 1, fs.tables[1], Inner(path));
        RemovedAccounted(fs, path, w, table, s, levels, junk);
      }
    }
  }

  lemma {:induction false} MadeAccounted(fs: Fs, w: int, table: Table, s: int, h: Header, contents: Table, fs': Fs)
    requires Inv(fs) && Accounted(fs) && IsSector(w) && Made(fs, w, table, s, h, contents, fs')
    ensures Accounted(fs')
  {
    var old_ := fs'.(live := fs.live, marks := fs.marks);
    OwnedMarked(fs);
    LiveMarked(fs);
    SameFreed(fs, old_);
    StillAccounted(fs, old_);
    forall x | x in fs'.marks
      ensures Held(fs', x)
    {
      if x in fs.marks {
        assert Held(old_, x);
        var t :| Holds(old_, t, x);
        assert Freed(fs', t) == Freed(old_, t);
        assert Holds(fs', t, x);
      } else {
        assert Holds(fs', s, x);
      }
    }
  }

  lemma {:induction false} MakeAccounted(fs: Fs, op: Op)
    requires Inv(fs) && Accounted(fs) && Allowed(fs, op) && op.MakeFile?
    ensures Accounted(Done(fs, op))
  {
    FollowEnds(fs, 1, fs.tables[1], Inner(op.path));
    var At(w, table) := Resolve(fs, op.path);
    CreateKeeps(fs, w, table, Last(op.path), op.size, op.kind, op.blank, op.contents, op.junk);
    var (answer, fs') := Create(fs, w, table, Last(op.path), op.size, op.kind, op.blank, op.contents, op.junk);
    if answer == Stopped {
      OwnedMarked(fs);
      SameFreed(fs, fs');
      StillAccounted(fs, fs');
    } else if answer == Yes {
      CreatedThere(fs, w, table, Last(op.path), op.size, op.kind, op.blank, op.contents, op.junk);
      var s := LowestClear(fs.marks, NUM_SECTORS);
      MadeAccounted(fs, w, WithEntry(table, Last(op.path), s), s, fs'.headers[s],
                    if op.kind == 1 then EmptyTable() else op.contents, fs');
    }
  }

  lemma {:induction false} DoneAccounted(fs: Fs, op: Op)
    requires Inv(fs) && Accounted(fs) && Allowed(fs, op)
    ensures Accounted(Done(fs, op))
  {
    match op
    case MakeFile(_, _, _, _, _, _) => MakeAccounted(fs, op);
    case OpenFile(path) => StillAccounted(fs, Opened(fs, path));
    case StoreFile(path, contents) => StillAccounted(fs, Done(fs, op));
    case RemoveFile(path, levels, junk) => RemoveAccounted(fs, path, levels, junk);
  }

  lemma {:induction false} RunAccounted(fs: Fs, ops: seq<Op>, e: Fs)
    requires Inv(fs) && Accounted(fs) && Runs(fs, ops, e)
    ensures Inv(e) && Accounted(e)
    decreases |ops|
  {
    if ops != [] {
      DoneInv(fs, ops[0]);
      DoneAccounted(fs, ops[0]);
      RunAccounted(Done(fs, ops[0]), ops[1..], e);
    }
  }

  /** In every state reached from a format, every marked sector belongs to exactly one live file: none is
      lost, and none is shared. */
  lemma {:induction false} NothingLost(raw: Raw, ops: seq<Op>, e: Fs, x: int)
    requires Whole(raw) && Runs(Formatted(raw), ops, e)
    ensures x in e.marks <==> Held(e, x)
    ensures forall s, t :: Holds(e, s, x) && Holds(e, t, x) ==> s == t
  {
    FormatInv(raw);
    FormatAccounted(raw);
    RunAccounted(Formatted(raw), ops, e);
    HeldOnce(e, x);
  }

  lemma {:induction false} HeldOnce(e: Fs, x: int)
    requires Inv(e) && Accounted(e)
    ensures x in e.marks <==> Held(e, x)
    ensures forall s, t :: Holds(e, s, x) && Holds(e, t, x) ==> s == t
  {
    if s :| Holds(e, s, x) {
      assert FileOk(e, s);
    }
    assert x in e.marks ==> Held(e, x);
    forall s, t | Holds(e, s, x) && Holds(e, t, x)
      ensures s == t
    {
      assert FileOk(e, s) && FileOk(e, t);
    }
  }
}
