/** FileSystem::Remove on the values of `FileTrees`. */
module FileRemoval {
  import opened Arith
  import opened BitMaps
  import opened Codec
  import opened Disks
  import opened FileIndex
  import opened FileHeaders
  import opened FileBytes
  import opened Directories
  import opened FileTrees
  import opened FileCreation

  // ---- Taking a file away ----

  ghost function Freed(fs: Fs, s: int): set<int>
    requires IsSector(s)
  {
    if WellFormed(fs.headers[s]) then OwnedBy(fs, s) else {}
  }

  /** Give up the sectors of file s. */
  ghost function Gone(fs: Fs, s: int): (r: Fs)
    requires IsSector(s)
  {
    fs.(marks := fs.marks - Freed(fs, s) - {s}, live := fs.live - {s})
  }

  function LessOne(n: int32): int32 { if n == -0x8000_0000 then 0x7FFF_FFFF else n - 1 }

  function Visits(fs: Fs, s: int, n: int32): (r: Fs)
    requires IsSector(s)
  {
    fs.(headers := fs.headers[s := fs.headers[s].(numVisits := n)])
  }

  /** One visit fewer. */
  function Left(fs: Fs, s: int): (r: Fs)
    requires IsSector(s)
  {
    Visits(fs, s, LessOne(fs.headers[s].numVisits))
  }

  /** Give up the sectors of file s and write this table, without its name, back to directory d. */
  ghost function Dropped(fs: Fs, d: int, table: Table, name: string, s: int): (r: Fs)
    requires IsSector(d) && IsSector(s)
  {
    Gone(fs, s).(tables := fs.tables[d := WithoutEntry(table, name)])
  }

  lemma {:induction false} VisitsKeep(fs: Fs, s: int, n: int32)
    requires Inv(fs) && s in fs.live
    ensures Inv(Visits(fs, s, n))
  {
    var fs' := Visits(fs, s, n);
    OwnedMarked(fs);
    SameFiles(fs, fs');
    TreeSizes(fs);
    SameTree(fs, fs');
  }

  lemma {:induction false} GoneFiles(fs: Fs, s: int)
    requires FilesOk(fs) && s in fs.live
    ensures FilesOk(Gone(fs, s))
  {
    var fs' := Gone(fs, s);
    assert FileOk(fs, s);
    forall t | t in fs'.live
      ensures WellFormed(fs.headers[t]) && OwnedBy(fs, t) + {t} <= fs'.marks
    {
      assert FileOk(fs, t);
      assert OwnedBy(fs, s) !! OwnedBy(fs, t);
    }
    SameFiles(fs, fs');
  }

  /** A file can go without harm to the tree exactly when no directory lists it. */
  lemma {:induction false} GoneTree(fs: Fs, s: int)
    requires Inv(fs) && IsFile(fs, s)
    ensures TreeOk(Gone(fs, s)) <==> Unlisted(fs, s)
  {
    var fs' := Gone(fs, s);
    assert forall d :: IsDirectory(fs', d) <==> IsDirectory(fs, d) && d != s;
    if d, i :| Refers(fs, d, i, s) {
      ListedHigher(fs, d, i, s);
      assert !EntryOk(fs', d, i) && !TableOk(fs', d) && IsDirectory(fs', d);
    } else if s != 1 {
      forall d | IsDirectory(fs', d)
        ensures TableOk(fs', d)
      {
        assert TableOk(fs, d);
        forall i | 0 <= i < NUM_DIR_ENTRIES
          ensures EntryOk(fs', d, i)
        {
          assert EntryOk(fs, d, i) && !Refers(fs, d, i, s);
        }
      }
      assert forall d, i, t :: Refers(fs', d, i, t) ==> Refers(fs, d, i, t);
    }
  }

  lemma {:induction false} ListedHigher(fs: Fs, d: int, i: int, s: int)
    requires Inv(fs) && Refers(fs, d, i, s)
    ensures d != s && s in fs.live && fs.depth[s] == fs.depth[d] + 1
  {
    assert TableOk(fs, d) && EntryOk(fs, d, i);
  }

  /** Striking a name off a directory leaves its file unlisted. */
  lemma {:induction false} Struck(fs: Fs, d: int, name: string, s: int)
    requires Inv(fs) && IsDirectory(fs, d) && s == Lookup(fs.tables[d], name) && s != -1
    ensures var fs' := fs.(tables := fs.tables[d := WithoutEntry(fs.tables[d], name)]);
            Inv(fs') && IsFile(fs', s) && Unlisted(fs', s)
  {
    var fs' := fs.(tables := fs.tables[d := WithoutEntry(fs.tables[d], name)]);
    OwnedMarked(fs);
    SameFiles(fs, fs');
    Found(fs, d, name);
    StruckTree(fs, d, name, s);
  }

  lemma {:induction false} StruckTree(fs: Fs, d: int, name: string, s: int)
    requires Inv(fs) && IsDirectory(fs, d) && s == Lookup(fs.tables[d], name) && s != -1
    ensures var fs' := fs.(tables := fs.tables[d := WithoutEntry(fs.tables[d], name)]);
            TreeOk(fs') && Unlisted(fs', s)
  {
    var fs', k := fs.(tables := fs.tables[d := WithoutEntry(fs.tables[d], name)]), IndexOf(fs.tables[d], name);
    Found(fs, d, name);
    assert TableOk(fs, d);
    RemoveThenFind(fs.tables[d], name, name);
    forall e, i, t | Refers(fs', e, i, t)
      ensures Refers(fs, e, i, t) && t != s
    {
      assert e == d ==> i != k;
      assert Refers(fs, e, i, t);
    }
    forall e | IsDirectory(fs', e)
      ensures TableOk(fs', e)
    {
      assert TableOk(fs, e);
      forall i | 0 <= i < NUM_DIR_ENTRIES
        ensures EntryOk(fs', e, i)
      {
        assert EntryOk(fs, e, i);
      }
    }
  }

  // ---- Remove on the tree ----

  /** Remove on the directory tree: a file goes only when its visit count is one; a directory goes
      after its entries have been tried, whatever came of that. */
  ghost function RemoveIn(fs: Fs, d: int, name: string, levels: nat): (r: (bool, Fs))
    requires IsSector(d)
    decreases levels, 0, 0
  {
    var s := Lookup(fs.tables[d], name);
    if !IsFile(fs, s) then (false, fs)
    else if fs.headers[s].fileType == 0 then
      if fs.headers[s].numVisits != 1 then (false, Left(fs, s))
      else (true, Dropped(Left(fs, s), d, fs.tables[d], name, s))
    else if levels == 0 then (false, fs)
    else (true, Dropped(Emptied(fs, s, levels - 1), d, fs.tables[d], name, s))
  }

  /** All entries of directory s. */
  ghost function Emptied(fs: Fs, s: int, levels: nat): (r: Fs)
    requires IsSector(s)
    decreases levels, 2, 0
  {
    RemoveAllIn(fs, s, fs.tables[s], 0, levels)
  }

  /** The entries of directory s that a table lists from entry i on. */
  ghost function RemoveAllIn(fs: Fs, s: int, table: Table, i: nat, levels: nat): (r: Fs)
    requires IsSector(s) && i <= NUM_DIR_ENTRIES
    decreases levels, 1, NUM_DIR_ENTRIES - i
  {
    if i == NUM_DIR_ENTRIES then fs else RemoveAllIn(Next(fs, s, table[i], levels), s, table, i + 1, levels)
  }

  /** One entry of directory s. */
  ghost function Next(fs: Fs, s: int, entry: Entry, levels: nat): (r: Fs)
    requires IsSector(s)
    decreases levels, 0, 1
  {
    if entry.inUse then RemoveIn(fs, s, entry.name, levels).1 else fs
  }

  /** Headers of the same file, as far as anything here depends on them: the number of visits may
      differ. */
  predicate SameFile(h: Header, g: Header) { SameExtents(h, g) && h.numBytes == g.numBytes }

  /** What removing below directory d leaves alone: files no deeper than d stay, with their tables,
      except that d's own table may change; and no sector or header is touched but to count visits. */
  ghost predicate Above(fs: Fs, fs': Fs, d: int)
    requires IsSector(d)
  {
    && fs'.index == fs.index && fs'.depth == fs.depth && fs'.live <= fs.live && fs'.blend == fs.blend
    && fs'.marks <= fs.marks
    && (forall t {:trigger fs'.headers[t]} :: IsSector(t) ==> SameFile(fs.headers[t], fs'.headers[t]))
    && (forall e {:trigger e in fs'.live} {:trigger fs'.tables[e]} :: e in fs.live && fs.depth[e] <= fs.depth[d] ==> e in fs'.live && (e != d ==> fs'.tables[e] == fs.tables[e]))
  }

  lemma {:induction false} DropKeeps(fs: Fs, d: int, name: string, s: int)
    requires Inv(fs) && IsDirectory(fs, d) && s == Lookup(fs.tables[d], name) && IsSector(s)
    ensures Inv(Dropped(fs, d, fs.tables[d], name, s)) && Above(fs, Dropped(fs, d, fs.tables[d], name, s), d)
  {
    Found(fs, d, name);
    var mid := fs.(tables := fs.tables[d := WithoutEntry(fs.tables[d], name)]);
    Struck(fs, d, name, s);
    GoneFiles(mid, s);
    GoneTree(mid, s);
  }

  lemma {:induction false} AboveTrans(fs: Fs, mid: Fs, fs': Fs, d: int)
    requires IsSector(d) && Above(fs, mid, d) && Above(mid, fs', d)
    ensures Above(fs, fs', d)
  {
  }

  /** Removing below s, a file of directory d, leaves d's own table alone as well. */
  lemma {:induction false} AboveParent(fs: Fs, fs': Fs, d: int, s: int)
    requires IsSector(s) && d in fs.live && fs.depth[s] == fs.depth[d] + 1 && Above(fs, fs', s)
    ensures Above(fs, fs', d) && fs'.tables[d] == fs.tables[d] && (s in fs.live ==> s in fs'.live)
  {
  }

  /** Removing from a live directory keeps the file system in order and touches nothing above. */
  lemma {:induction false} RemoveInKeeps(fs: Fs, d: int, name: string, levels: nat)
    requires Inv(fs) && IsDirectory(fs, d)
    ensures var fs' := RemoveIn(fs, d, name, levels).1;
            Inv(fs') && Above(fs, fs', d) && IsDirectory(fs', d)
    decreases levels, 0, 1
  {
    var s := Lookup(fs.tables[d], name);
    if s != -1 {
      Found(fs, d, name);
      if fs.headers[s].fileType == 0 {
        VisitsKeep(fs, s, LessOne(fs.headers[s].numVisits));
        if fs.headers[s].numVisits == 1 {
          DropKeeps(Left(fs, s), d, name, s);
        }
      } else if levels > 0 {
        RemoveDirectoryKeeps(fs, d, name, s, levels);
      }
    }
  }

  lemma {:induction false} NextKeeps(fs: Fs, s: int, entry: Entry, levels: nat)
    requires Inv(fs) && IsDirectory(fs, s)
    ensures var fs' := Next(fs, s, entry, levels);
            Inv(fs') && Above(fs, fs', s) && IsDirectory(fs', s)
    decreases levels, 0, 2
  {
    if entry.inUse {
      RemoveInKeeps(fs, s, entry.name, levels);
    }
  }

  lemma {:induction false} RemoveAllInKeeps(fs: Fs, s: int, table: Table, i: nat, levels: nat)
    requires Inv(fs) && IsDirectory(fs, s) && i <= NUM_DIR_ENTRIES
    ensures var fs' := RemoveAllIn(fs, s, table, i, levels);
            Inv(fs') && Above(fs, fs', s) && IsDirectory(fs', s)
    decreases levels, 1, NUM_DIR_ENTRIES - i
  {
    if i < NUM_DIR_ENTRIES {
      var mid := Next(fs, s, table[i], levels);
      NextKeeps(fs, s, table[i], levels);
      RemoveAllInKeeps(mid, s, table, i + 1, levels);
      AboveTrans(fs, mid, RemoveAllIn(fs, s, table, i, levels), s);
    }
  }

  lemma {:induction false} EmptiedKeeps(fs: Fs, s: int, levels: nat)
    requires Inv(fs) && IsDirectory(fs, s)
    ensures var fs' := Emptied(fs, s, levels);
            Inv(fs') && Above(fs, fs', s) && IsDirectory(fs', s)
    decreases levels, 2, 0
  {
    RemoveAllInKeeps(fs, s, fs.tables[s], 0, levels);
  }

  lemma {:induction false} RemoveDirectoryKeeps(fs: Fs, d: int, name: string, s: int, levels: nat)
    requires Inv(fs) && IsDirectory(fs, d) && s == Lookup(fs.tables[d], name) && IsDirectory(fs, s) && levels > 0
    ensures var fs' := Dropped(Emptied(fs, s, levels - 1), d, fs.tables[d], name, s);
            Inv(fs') && Above(fs, fs', d) && IsDirectory(fs', d)
    decreases levels, 0, 0
  {
    EmptiedKeeps(fs, s, levels - 1);
    DropAfter(fs, Emptied(fs, s, levels - 1), d, name, s);
  }

  /** Dropping a directory after its entries have been tried. */
  lemma {:induction false} DropAfter(fs: Fs, mid: Fs, d: int, name: string, s: int)
    requires Inv(fs) && IsDirectory(fs, d) && s == Lookup(fs.tables[d], name) && IsSector(s)
    requires Inv(mid) && Above(fs, mid, s)
    ensures var fs' := Dropped(mid, d, fs.tables[d], name, s);
            Inv(fs') && Above(fs, fs', d) && IsDirectory(fs', d)
  {
    Found(fs, d, name);
    AboveParent(fs, mid, d, s);
    DropKeeps(mid, d, name, s);
    AboveTrans(fs, mid, Dropped(mid, d, mid.tables[d], name, s), d);
  }

  // ---- Remove by path ----

  /** The ASSERT in Deallocate: the index sectors of the file are marked. */
  ghost predicate CanFree(fs: Fs, s: int)
    requires IsSector(s)
  {
    && WellFormed(fs.headers[s])
    && forall i :: 0 <= i < IndexCount(fs.headers[s].numSectors) ==> fs.headers[s].primary[i] as int in fs.marks
  }

  /** The end of Remove: the sectors are freed, the map is written, and the table in memory, without the
      name, goes back into the file it was read for. */
  ghost function Ended(fs: Fs, w: int, table: Table, name: string, s: int, junk: nat -> Slots): (r: (Result, Fs))
    requires IsSector(w) && IsSector(s)
  {
    if !CanFree(fs, s) then (Stopped, fs)
    else (Yes, WrittenBack(Gone(fs, s), w, WithoutEntry(table, name), junk))
  }

  /** Remove as filesys.cc does it: a directory's entries are removed by longer and longer paths, and
      the table that is written back at the end was read at the beginning.  A path that strays is not
      followed. */
  ghost function RemovePath(fs: Fs, path: seq<string>, levels: nat, junk: nat -> Slots): (r: (Result, Fs))
    requires path != []
    decreases levels, 0, 0
  {
    var s := Target(fs, path);
    if !Resolve(fs, path).At? || !IsFile(fs, s) || !IsSector(Resolve(fs, path).file) then (No, fs)
    else
      var At(w, table) := Resolve(fs, path);
      if fs.headers[s].fileType == 0 then
        if fs.headers[s].numVisits != 1 then (No, Left(fs, s))
        else Ended(Left(fs, s), w, table, Last(path), s, junk)
      else if levels == 0 then (No, fs)
      else
        var (ok, mid) := EmptiedByPath(fs, path, s, levels - 1, junk);
        if !ok then (Stopped, mid) else Ended(mid, w, table, Last(path), s, junk)
  }

  /** All entries of directory s, to which the path leads. */
  ghost function EmptiedByPath(fs: Fs, path: seq<string>, s: int, levels: nat, junk: nat -> Slots): (r: (bool, Fs))
    requires path != [] && IsSector(s)
    decreases levels, 2, 0
  {
    RemovePaths(fs, path, fs.tables[s], 0, levels, junk)
  }

  /** The answer is false when the kernel was stopped on the way. */
  ghost function RemovePaths(fs: Fs, path: seq<string>, table: Table, i: nat, levels: nat, junk: nat -> Slots): (r: (bool, Fs))
    requires path != [] && i <= NUM_DIR_ENTRIES
    decreases levels, 1, NUM_DIR_ENTRIES - i
  {
    if i == NUM_DIR_ENTRIES then (true, fs)
    else if !table[i].inUse then RemovePaths(fs, path, table, i + 1, levels, junk)
    else
      var (answer, mid) := RemovePath(fs, path + [table[i].name], levels, junk);
      if answer == Stopped then (false, mid) else RemovePaths(mid, path, table, i + 1, levels, junk)
  }

  // ---- Paths stay where they lead ----

  /** The files on the way are no deeper than s, nor s itself. */
  ghost predicate Beside(fs: Fs, d: int, table: Table, names: seq<string>, s: int)
    requires IsSector(d) && IsSector(s)
    decreases |names|
  {
    && d != s && fs.depth[d] <= fs.depth[s]
    && (names != [] ==>
          var t := Lookup(table, names[0]);
          IsFile(fs, t) ==> Beside(fs, t, Fetched(fs, t, table), names[1..], s))
  }

  /** On a straight path they always are. */
  lemma {:induction false} StraightBeside(fs: Fs, d: int, names: seq<string>, s: int)
    requires Inv(fs) && IsDirectory(fs, d) && Straight(fs, d, names) && IsSector(s) && fs.depth[d] + |names| < fs.depth[s]
    ensures Beside(fs, d, fs.tables[d], names, s)
    decreases |names|
  {
    if names != [] && Lookup(fs.tables[d], names[0]) != -1 {
      Found(fs, d, names[0]);
      var t := Lookup(fs.tables[d], names[0]);
      assert TableOk(fs, t);
      StraightBeside(fs, t, names[1..], s);
    }
  }

  /** Removing below s does not change where a path beside s leads. */
  lemma {:induction false} FollowStays(fs: Fs, fs': Fs, d: int, table: Table, names: seq<string>, s: int)
    requires IsFile(fs, d) && IsSector(s) && Above(fs, fs', s)
    requires Beside(fs, d, table, names, s) && Follow(fs, d, table, names).At?
    ensures Follow(fs', d, table, names) == Follow(fs, d, table, names) && Beside(fs', d, table, names, s)
    decreases |names|
  {
    if names != [] {
      var t := Lookup(table, names[0]);
      FetchedStays(fs, fs', t, table, s);
      FollowStays(fs, fs', t, Fetched(fs, t, table), names[1..], s);
    }
  }

  lemma {:induction false} FetchedStays(fs: Fs, fs': Fs, t: int, table: Table, s: int)
    requires IsFile(fs, t) && IsSector(s) && Above(fs, fs', s)
    requires t != s && fs.depth[t] <= fs.depth[s]
    ensures IsFile(fs', t) && Fetched(fs', t, table) == Fetched(fs, t, table)
  {
    assert SameFile(fs.headers[t], fs'.headers[t]);
  }

  /** A path beside s that leads to s's entry, made longer by the name of s, is beside everything
      deeper. */
  lemma {:induction false} BesideOne(fs: Fs, d: int, table: Table, names: seq<string>, name: string, s: int, c: int)
    requires IsSector(d) && IsFile(fs, s) && IsSector(c) && fs.depth[c] == fs.depth[s] + 1
    requires Beside(fs, d, table, names, s) && Follow(fs, d, table, names).At?
    requires Lookup(Follow(fs, d, table, names).table, name) == s
    ensures Beside(fs, d, table, names + [name], c)
    decreases |names|
  {
    if names != [] {
      assert (names + [name])[1..] == names[1..] + [name];
      var t := Lookup(table, names[0]);
      BesideOne(fs, t, Fetched(fs, t, table), names[1..], name, s, c);
    } else {
      assert (names + [name])[1..] == [];
    }
  }

  lemma {:induction false} LongerPath(path: seq<string>, name: string)
    requires |path| >= 2
    ensures Inner(path + [name]) == Inner(path) + [Last(path)] && Last(path + [name]) == name
  {
  }

  // ---- Removing by path is removing on the tree ----

  lemma {:induction false} LiveCanFree(fs: Fs, s: int)
    requires Inv(fs) && s in fs.live
    ensures CanFree(fs, s)
  {
    assert FileOk(fs, s);
    forall i | 0 <= i < IndexCount(fs.headers[s].numSectors)
      ensures fs.headers[s].primary[i] as int in fs.marks
    {
      OwnedByIndex(fs, s, i);
    }
  }

  /** A directory takes its table back in place. */
  lemma {:induction false} EndedInDirectory(fs: Fs, w: int, table: Table, name: string, s: int, junk: nat -> Slots)
    requires Inv(fs) && s in fs.live && IsSector(w) && fs.headers[w].numBytes >= TABLE_SIZE
    ensures Ended(fs, w, table, name, s, junk) == (Yes, Dropped(fs, w, table, name, s))
  {
    LiveCanFree(fs, s);
  }

  /** The path leads to file s by the table of file w; when s is a directory, by files beside it. */
  ghost predicate Leads(fs: Fs, path: seq<string>, w: int, table: Table, s: int) {
    && Inv(fs) && path != [] && Resolve(fs, path) == At(w, table) && s == Lookup(table, Last(path)) && IsFile(fs, s)
    && (IsDirectory(fs, s) ==> |path| >= 2 && Beside(fs, 1, fs.tables[1], Inner(path), s))
  }

  function Answer(ok: bool): Result { if ok then Yes else No }

  /** One entry of directory s. */
  lemma {:induction false} EntryPath(fs: Fs, path: seq<string>, w: int, table: Table, s: int, name: string)
    requires Leads(fs, path, w, table, s) && IsDirectory(fs, s)
    ensures Resolve(fs, path + [name]) == At(s, fs.tables[s]) && Last(path + [name]) == name
    ensures var c := Lookup(fs.tables[s], name);
            IsFile(fs, c) ==> Leads(fs, path + [name], s, fs.tables[s], c)
  {
    LongerPath(path, name);
    FollowOne(fs, 1, fs.tables[1], Inner(path), Last(path));
    assert TableOk(fs, s);
    var c := Lookup(fs.tables[s], name);
    if c != -1 {
      Found(fs, s, name);
      BesideOne(fs, 1, fs.tables[1], Inner(path), Last(path), s, c);
    }
  }

  /** Where a path leads after something below its end was removed. */
  lemma {:induction false} LeadsStill(fs: Fs, path: seq<string>, w: int, table: Table, s: int, mid: Fs)
    requires Leads(fs, path, w, table, s) && IsDirectory(fs, s)
    requires Inv(mid) && Above(fs, mid, s) && IsDirectory(mid, s)
    ensures Leads(mid, path, w, table, s)
  {
    FollowStays(fs, mid, 1, fs.tables[1], Inner(path), s);
  }

  /** A plain file of directory w. */
  lemma {:induction false} PlainEnds(fs: Fs, w: int, table: Table, name: string, s: int, junk: nat -> Slots)
    requires Inv(fs) && IsFile(fs, s) && IsDirectory(fs, w)
    ensures Ended(Left(fs, s), w, table, name, s, junk) == (Yes, Dropped(Left(fs, s), w, table, name, s))
  {
    DirectorySectors(fs, w);
    VisitsKeep(fs, s, LessOne(fs.headers[s].numVisits));
    EndedInDirectory(Left(fs, s), w, table, name, s, junk);
  }

  /** A directory of directory w, after its entries. */
  lemma {:induction false} DirectoryEnds(fs: Fs, w: int, table: Table, name: string, s: int, levels: nat, junk: nat -> Slots)
    requires Inv(fs) && IsDirectory(fs, s) && IsDirectory(fs, w)
    ensures var mid := Emptied(fs, s, levels);
            Ended(mid, w, table, name, s, junk) == (Yes, Dropped(mid, w, table, name, s))
  {
    DirectorySectors(fs, w);
    EmptiedKeeps(fs, s, levels);
    var mid := Emptied(fs, s, levels);
    assert SameFile(fs.headers[w], mid.headers[w]);
    EndedInDirectory(mid, w, table, name, s, junk);
  }

  /** A directory's removal ends after its entries. */
  lemma {:induction false} EndsAfter(fs: Fs, path: seq<string>, w: int, table: Table, s: int, levels: nat, junk: nat -> Slots, mid: Fs)
    requires IsSector(w) && path != [] && Resolve(fs, path) == At(w, table) && s == Lookup(table, Last(path))
    requires IsFile(fs, s) && fs.headers[s].fileType != 0 && levels > 0
    requires EmptiedByPath(fs, path, s, levels - 1, junk) == (true, mid)
    ensures RemovePath(fs, path, levels, junk) == Ended(mid, w, table, Last(path), s, junk)
  {
  }

  /** Both removals of a plain file. */
  lemma {:induction false} PlainUnfolds(fs: Fs, path: seq<string>, w: int, s: int, levels: nat, junk: nat -> Slots)
    requires IsSector(w) && path != [] && Resolve(fs, path) == At(w, fs.tables[w]) && s == Lookup(fs.tables[w], Last(path))
    requires IsFile(fs, s) && fs.headers[s].fileType == 0
    requires Ended(Left(fs, s), w, fs.tables[w], Last(path), s, junk) == (Yes, Dropped(Left(fs, s), w, fs.tables[w], Last(path), s))
    ensures var (ok, fs') := RemoveIn(fs, w, Last(path), levels);
            RemovePath(fs, path, levels, junk) == (Answer(ok), fs')
  {
  }

  /** Both removals of a directory, where its entries are removed alike. */
  lemma {:induction false} DirectoryUnfolds(fs: Fs, path: seq<string>, w: int, s: int, levels: nat, junk: nat -> Slots, mid: Fs)
    requires IsSector(w) && path != [] && Resolve(fs, path) == At(w, fs.tables[w]) && s == Lookup(fs.tables[w], Last(path))
    requires IsFile(fs, s) && fs.headers[s].fileType != 0 && levels > 0
    requires mid == Emptied(fs, s, levels - 1) && EmptiedByPath(fs, path, s, levels - 1, junk) == (true, mid)
    requires Ended(mid, w, fs.tables[w], Last(path), s, junk) == (Yes, Dropped(mid, w, fs.tables[w], Last(path), s))
    ensures var (ok, fs') := RemoveIn(fs, w, Last(path), levels);
            RemovePath(fs, path, levels, junk) == (Answer(ok), fs')
  {
  }

  lemma {:induction false} PlainByPath(fs: Fs, path: seq<string>, w: int, s: int, levels: nat, junk: nat -> Slots)
    requires IsSector(w) && Leads(fs, path, w, fs.tables[w], s) && IsDirectory(fs, w) && fs.headers[s].fileType == 0
    ensures var (ok, fs') := RemoveIn(fs, w, Last(path), levels);
            RemovePath(fs, path, levels, junk) == (Answer(ok), fs')
  {
    PlainEnds(fs, w, fs.tables[w], Last(path), s, junk);
    PlainUnfolds(fs, path, w, s, levels, junk);
  }

  lemma {:induction false} DirectoryByPath(fs: Fs, path: seq<string>, w: int, s: int, levels: nat, junk: nat -> Slots)
    requires IsSector(w) && Leads(fs, path, w, fs.tables[w], s) && IsDirectory(fs, w) && IsDirectory(fs, s) && levels > 0
    ensures var (ok, fs') := RemoveIn(fs, w, Last(path), levels);
            RemovePath(fs, path, levels, junk) == (Answer(ok), fs')
    decreases levels, 0, 0
  {
    EmptiedAlike(fs, path, w, fs.tables[w], s, levels - 1, junk);
    DirectoryEnds(fs, w, fs.tables[w], Last(path), s, levels - 1, junk);
    DirectoryUnfolds(fs, path, w, s, levels, junk, Emptied(fs, s, levels - 1));
  }

  lemma {:induction false} EmptiedAlike(fs: Fs, path: seq<string>, w: int, table: Table, s: int, levels: nat, junk: nat -> Slots)
    requires Leads(fs, path, w, table, s) && IsDirectory(fs, s)
    ensures EmptiedByPath(fs, path, s, levels, junk) == (true, Emptied(fs, s, levels))
    decreases levels, 2, 0
  {
    EntriesByPath(fs, path, w, table, s, fs.tables[s], 0, levels, junk);
  }

  /** Removing by path is removing on the tree, for every path whose last table is a directory's own. */
  lemma {:induction false} PathIsTree(fs: Fs, path: seq<string>, w: int, s: int, levels: nat, junk: nat -> Slots)
    requires IsSector(w) && Leads(fs, path, w, fs.tables[w], s) && IsDirectory(fs, w)
    ensures var (ok, fs') := RemoveIn(fs, w, Last(path), levels);
            RemovePath(fs, path, levels, junk) == (Answer(ok), fs')
    decreases levels, 0, 1
  {
    if fs.headers[s].fileType == 0 {
      PlainByPath(fs, path, w, s, levels, junk);
    } else if levels > 0 {
      DirectoryByPath(fs, path, w, s, levels, junk);
    }
  }

  /** One entry of directory s, by its path. */
  lemma {:induction false} NextByPath(fs: Fs, path: seq<string>, w: int, table: Table, s: int, entry: Entry, levels: nat, junk: nat -> Slots)
    requires Leads(fs, path, w, table, s) && IsDirectory(fs, s) && entry.inUse
    ensures var (answer, mid) := RemovePath(fs, path + [entry.name], levels, junk);
            answer != Stopped && mid == Next(fs, s, entry, levels)
    decreases levels, 0, 2
  {
    EntryPath(fs, path, w, table, s, entry.name);
    var c := Lookup(fs.tables[s], entry.name);
    if IsFile(fs, c) {
      PathIsTree(fs, path + [entry.name], s, c, levels, junk);
    }
  }

  /** The entries of a directory, by paths that lead through its own. */
  lemma {:induction false} EntriesByPath(fs: Fs, path: seq<string>, w: int, table: Table, s: int, entries: Table, i: nat, levels: nat,
                                         junk: nat -> Slots)
    requires Leads(fs, path, w, table, s) && IsDirectory(fs, s) && i <= NUM_DIR_ENTRIES
    ensures RemovePaths(fs, path, entries, i, levels, junk) == (true, RemoveAllIn(fs, s, entries, i, levels))
    decreases levels, 1, NUM_DIR_ENTRIES - i
  {
    if i < NUM_DIR_ENTRIES {
      var mid := Next(fs, s, entries[i], levels);
      assert Leads(mid, path, w, table, s) && IsDirectory(mid, s) by {
        NextKeeps(fs, s, entries[i], levels);
        LeadsStill(fs, path, w, table, s, mid);
      }
      if entries[i].inUse {
        NextByPath(fs, path, w, table, s, entries[i], levels, junk);
      }
      EntriesByPath(mid, path, w, table, s, entries, i + 1, levels, junk);
      OneEntryAlike(fs, path, s, entries, i, levels, junk, mid);
    }
  }

  lemma {:induction false} OneEntryAlike(fs: Fs, path: seq<string>, s: int, entries: Table, i: nat, levels: nat, junk: nat -> Slots, mid: Fs)
    requires path != [] && IsSector(s) && i < NUM_DIR_ENTRIES && mid == Next(fs, s, entries[i], levels)
    requires entries[i].inUse ==> var r := RemovePath(fs, path + [entries[i].name], levels, junk);
                                  r.0 != Stopped && r.1 == mid
    requires RemovePaths(mid, path, entries, i + 1, levels, junk) == (true, RemoveAllIn(mid, s, entries, i + 1, levels))
    ensures RemovePaths(fs, path, entries, i, levels, junk) == (true, RemoveAllIn(fs, s, entries, i, levels))
  {
  }

  // ---- When a removal keeps the file system in order ----

  /** Remove does take this file away: a plain file that was visited once, or any directory. */
  predicate Leaves(fs: Fs, s: int)
    requires IsSector(s)
  {
    fs.headers[s].fileType == 0 ==> fs.headers[s].numVisits == 1
  }

  /** Removing a file whose table entry was read from a file w that is no directory. */
  lemma {:induction false} EndedElsewhere(fs: Fs, w: int, table: Table, name: string, s: int, junk: nat -> Slots)
    requires Inv(fs) && IsFile(fs, s) && IsFile(fs, w) && !IsDirectory(fs, w)
    ensures var (answer, fs') := Ended(fs, w, table, name, s, junk);
            answer == Yes && (Inv(fs') <==> Unlisted(fs, s) && (fs.headers[w].numSectors > 0 || w == s))
  {
    LiveCanFree(fs, s);
    var g := Gone(fs, s);
    var t: Table := WithoutEntry(table, name);
    GoneFiles(fs, s);
    GoneTree(fs, s);
    assert FileOk(fs, w);
    var r := WrittenBack(g, w, t, junk);
    if fs.headers[w].numSectors > 0 {
      WrittenInPlace(g, w, t, junk);
      ElsewhereInPlace(g, w, t, s);
    } else {
      ElsewhereGrown(fs, w, t, s, junk);
    }
  }

  /** The file w has sectors: only its own bytes change. */
  lemma {:induction false} ElsewhereInPlace(g: Fs, w: int, t: Table, s: int)
    requires FilesOk(g) && IsSector(w) && w != 0 && g.headers[w].fileType == 0 && g.headers[w].numSectors > 0
    ensures Inv(g.(headers := g.headers[w := Longer(g.headers[w])], tables := g.tables[w := t])) <==> TreeOk(g)
  {
    var r := g.(headers := g.headers[w := Longer(g.headers[w])], tables := g.tables[w := t]);
    OwnedMarked(g);
    SameFiles(g, r);
    PlainWriteTree(g, w, t);
  }

  lemma {:induction false} PlainWriteTree(g: Fs, w: int, t: Table)
    requires IsSector(w) && w != 0 && g.headers[w].fileType == 0
    ensures TreeOk(g.(headers := g.headers[w := Longer(g.headers[w])], tables := g.tables[w := t])) <==> TreeOk(g)
  {
    var r := g.(headers := g.headers[w := Longer(g.headers[w])], tables := g.tables[w := t]);
    if TreeOk(g) {
      TreeSizes(g);
      SameTree(g, r);
    }
    if TreeOk(r) {
      TreeSizes(r);
      SameTree(r, g);
    }
  }

  /** The file w has none: it is given sectors that the map does not mark. */
  lemma {:induction false} ElsewhereGrown(fs: Fs, w: int, t: Table, s: int, junk: nat -> Slots)
    requires Inv(fs) && IsFile(fs, s) && IsFile(fs, w) && fs.headers[w].fileType == 0 && fs.headers[w].numSectors == 0
    ensures Inv(WrittenBack(Gone(fs, s), w, t, junk)) <==> TreeOk(Gone(fs, s)) && w == s
  {
    var g := Gone(fs, s);
    assert FileOk(fs, w);
    NoSectors(fs.headers[w], g.index);
    LowestClearMeaning(g.marks, NUM_SECTORS);
    assert s !in g.marks;
    WrittenIntoEmpty(g, w, t, junk);
    var r := WrittenBack(g, w, t, junk);
    GoneFiles(fs, s);
    if w != s {
      assert w in r.live && !FileOk(r, w);
    } else {
      OwnedMarked(g);
      SameFiles(g, r);
      DeadWritten(g, r, w);
    }
  }

  lemma {:induction false} DeadWritten(g: Fs, r: Fs, w: int)
    requires IsSector(w) && w !in g.live && g.headers[w].fileType == 0
    requires r == g.(headers := g.headers[w := r.headers[w]], index := r.index, tables := g.tables[w := r.tables[w]])
    requires r.headers[w].fileType == 0
    ensures TreeOk(r) <==> TreeOk(g)
  {
    if TreeOk(g) {
      TreeSizes(g);
      SameTree(g, r);
    }
    if TreeOk(r) {
      TreeSizes(r);
      SameTree(r, g);
    }
  }

  /** The table of file w, which is no directory, has an entry that can be struck off without harm: the
      file it names is in no directory, and w has sectors to take the table. */
  ghost predicate Harmless(fs: Fs, w: int, s: int)
    requires IsSector(w)
  {
    Unlisted(fs, s) && (fs.headers[w].numSectors > 0 || w == s)
  }

  lemma {:induction false} SameListings(fs: Fs, fs': Fs, s: int)
    requires Inv(fs) && Inv(fs') && IsFile(fs, s) && s in fs'.live && Above(fs, fs', s)
    ensures Unlisted(fs', s) <==> Unlisted(fs, s)
  {
    if d, i :| Refers(fs, d, i, s) {
      ListedHigher(fs, d, i, s);
      assert fs'.tables[d] == fs.tables[d] && SameFile(fs.headers[d], fs'.headers[d]);
      assert Refers(fs', d, i, s);
    }
    if d, i :| Refers(fs', d, i, s) {
      ListedHigher(fs', d, i, s);
      assert fs'.tables[d] == fs.tables[d] && SameFile(fs.headers[d], fs'.headers[d]);
      assert Refers(fs, d, i, s);
    }
  }

  lemma {:induction false} BesideEnds(fs: Fs, d: int, table: Table, names: seq<string>, s: int)
    requires IsSector(d) && IsSector(s) && Beside(fs, d, table, names, s) && Follow(fs, d, table, names).At?
    ensures var w := Follow(fs, d, table, names).file; IsSector(w) && w != s && fs.depth[w] <= fs.depth[s]
    decreases |names|
  {
    if names != [] {
      var t := Lookup(table, names[0]);
      BesideEnds(fs, t, Fetched(fs, t, table), names[1..], s);
    }
  }

  lemma {:induction false} PlainElsewhere(fs: Fs, path: seq<string>, w: int, table: Table, s: int, levels: nat, junk: nat -> Slots)
    requires Leads(fs, path, w, table, s) && IsFile(fs, w) && !IsDirectory(fs, w) && fs.headers[s].fileType == 0
    ensures var (answer, fs') := RemovePath(fs, path, levels, junk);
            && answer == Answer(Leaves(fs, s))
            && (Inv(fs') <==> (Leaves(fs, s) ==> Harmless(fs, w, s)))
  {
    VisitsKeep(fs, s, LessOne(fs.headers[s].numVisits));
    var mid := Left(fs, s);
    EndedElsewhere(mid, w, table, Last(path), s, junk);
    assert forall d, i :: Refers(mid, d, i, s) <==> Refers(fs, d, i, s);
  }

  /** The removal of a directory to which a path leads. */
  lemma {:induction false} RemovalEnds(fs: Fs, path: seq<string>, w: int, table: Table, s: int, levels: nat, junk: nat -> Slots)
    requires Leads(fs, path, w, table, s) && IsDirectory(fs, s) && IsSector(w) && levels > 0
    ensures RemovePath(fs, path, levels, junk) == Ended(Emptied(fs, s, levels - 1), w, table, Last(path), s, junk)
  {
    assert EmptiedByPath(fs, path, s, levels - 1, junk) == (true, Emptied(fs, s, levels - 1)) by {
      EmptiedAlike(fs, path, w, table, s, levels - 1, junk);
    }
    EndsAfter(fs, path, w, table, s, levels, junk, Emptied(fs, s, levels - 1));
  }

  lemma {:induction false} DirectoryElsewhere(fs: Fs, path: seq<string>, w: int, table: Table, s: int, levels: nat, junk: nat -> Slots)
    requires Leads(fs, path, w, table, s) && IsFile(fs, w) && !IsDirectory(fs, w) && IsDirectory(fs, s) && levels > 0
    ensures var (answer, fs') := RemovePath(fs, path, levels, junk);
            answer == Yes && (Inv(fs') <==> Harmless(fs, w, s))
  {
    var (answer, fs') := RemovePath(fs, path, levels, junk);
    RemovalEnds(fs, path, w, table, s, levels, junk);
    EmptiedElsewhere(fs, path, w, table, s, levels - 1, junk, answer, fs');
  }

  lemma {:induction false} EmptiedElsewhere(fs: Fs, path: seq<string>, w: int, table: Table, s: int, levels: nat, junk: nat -> Slots,
                                            answer: Result, fs': Fs)
    requires Leads(fs, path, w, table, s) && IsFile(fs, w) && !IsDirectory(fs, w) && IsDirectory(fs, s)
    requires (answer, fs') == Ended(Emptied(fs, s, levels), w, table, Last(path), s, junk)
    ensures answer == Yes && (Inv(fs') <==> Harmless(fs, w, s))
  {
    var mid := Emptied(fs, s, levels);
    EmptiedKeeps(fs, s, levels);
    SameListings(fs, mid, s);
    BesideEnds(fs, 1, fs.tables[1], Inner(path), s);
    assert w in mid.live && SameFile(fs.headers[w], mid.headers[w]);
    EndedElsewhere(mid, w, table, Last(path), s, junk);
  }

  /** Remove by path, where the files on the way lie beside a directory that is to go.  It takes the file
      away when it should; and the file system stays in order exactly when the last table was a
      directory's own, or nothing went, or striking the entry off did no harm. */
  lemma {:induction false} RemoveKeeps(fs: Fs, path: seq<string>, w: int, table: Table, s: int, levels: nat, junk: nat -> Slots)
    requires Leads(fs, path, w, table, s) && levels > 0
    ensures IsFile(fs, w)
    ensures var (answer, fs') := RemovePath(fs, path, levels, junk);
            && answer == Answer(Leaves(fs, s))
            && (Inv(fs') <==> IsDirectory(fs, w) || !Leaves(fs, s) || Harmless(fs, w, s))
  {
    FollowEnds(fs, 1, fs.tables[1], Inner(path));
    if IsDirectory(fs, w) {
      PathIsTree(fs, path, w, s, levels, junk);
      RemoveInKeeps(fs, w, Last(path), levels);
    } else if fs.headers[s].fileType == 0 {
      PlainElsewhere(fs, path, w, table, s, levels, junk);
    } else {
      DirectoryElsewhere(fs, path, w, table, s, levels, junk);
    }
  }

  /** On a straight path nothing can go wrong. */
  lemma {:induction false} StraightRemoval(fs: Fs, path: seq<string>, levels: nat, junk: nat -> Slots)
    requires Inv(fs) && path != [] && Straight(fs, 1, Inner(path)) && levels > 0
    requires |path| >= 2 || !IsDirectory(fs, Target(fs, path))
    ensures !Strays(fs, path) && Inv(RemovePath(fs, path, levels, junk).1)
  {
    StraightEnds(fs, 1, Inner(path));
    var s := Target(fs, path);
    if s != -1 {
      var w := Resolve(fs, path).file;
      Found(fs, w, Last(path));
      if IsDirectory(fs, s) {
        StraightBeside(fs, 1, Inner(path), s);
      }
      RemoveKeeps(fs, path, w, fs.tables[w], s, levels, junk);
    }
  }

  // ---- How deep a removal goes ----

  /** No live directory is deeper than n. */
  ghost predicate NoDeeper(fs: Fs, n: nat) {
    forall s :: IsDirectory(fs, s) ==> fs.depth[s] <= n
  }

  /** The bound on the recursion covers every directory there is. */
  ghost predicate Covers(fs: Fs, levels: nat) {
    forall s :: IsDirectory(fs, s) ==> fs.depth[s] < levels
  }

  lemma {:induction false} LevelsEnough(fs: Fs, d: int, name: string, levels: nat, more: nat)
    requires Inv(fs) && IsDirectory(fs, d) && NoDeeper(fs, fs.depth[d] + levels) && levels <= more
    ensures RemoveIn(fs, d, name, more) == RemoveIn(fs, d, name, levels)
    decreases levels, 0, 0
  {
    var s := Lookup(fs.tables[d], name);
    if IsFile(fs, s) && fs.headers[s].fileType != 0 {
      Found(fs, d, name);
      assert IsDirectory(fs, s) && levels > 0;
      EmptiedEnough(fs, s, levels - 1, more - 1);
    }
  }

  lemma {:induction false} EmptiedEnough(fs: Fs, s: int, levels: nat, more: nat)
    requires Inv(fs) && IsDirectory(fs, s) && NoDeeper(fs, fs.depth[s] + levels) && levels <= more
    ensures Emptied(fs, s, more) == Emptied(fs, s, levels)
    decreases levels, 2, 0
  {
    AllEnough(fs, s, fs.tables[s], 0, levels, more);
  }

  lemma {:induction false} AllEnough(fs: Fs, s: int, table: Table, i: nat, levels: nat, more: nat)
    requires Inv(fs) && IsDirectory(fs, s) && i <= NUM_DIR_ENTRIES && NoDeeper(fs, fs.depth[s] + levels) && levels <= more
    ensures RemoveAllIn(fs, s, table, i, more) == RemoveAllIn(fs, s, table, i, levels)
    decreases levels, 1, NUM_DIR_ENTRIES - i
  {
    if i < NUM_DIR_ENTRIES {
      var mid := Next(fs, s, table[i], levels);
      NextEnough(fs, s, table[i], levels, more);
      AllEnough(mid, s, table, i + 1, levels, more);
    }
  }

  lemma {:induction false} NextEnough(fs: Fs, s: int, entry: Entry, levels: nat, more: nat)
    requires Inv(fs) && IsDirectory(fs, s) && NoDeeper(fs, fs.depth[s] + levels) && levels <= more
    ensures var mid := Next(fs, s, entry, levels);
            mid == Next(fs, s, entry, more) && Inv(mid) && IsDirectory(mid, s) && mid.depth == fs.depth && NoDeeper(mid, fs.depth[s] + levels)
    decreases levels, 0, 1
  {
    NextKeeps(fs, s, entry, levels);
    var mid := Next(fs, s, entry, levels);
    if entry.inUse {
      LevelsEnough(fs, s, entry.name, levels, more);
    }
    forall t | IsDirectory(mid, t)
      ensures fs.depth[t] <= fs.depth[s] + levels
    {
      assert SameFile(fs.headers[t], mid.headers[t]) && IsDirectory(fs, t);
    }
  }

  // ---- Paths of one component ----

  /** With a path of one component, the paths of a directory's entries lead to the root directory. */
  lemma {:induction false} ChildrenInRoot(fs: Fs, name: string, table: Table, i: nat, levels: nat, junk: nat -> Slots)
    requires Inv(fs) && i <= NUM_DIR_ENTRIES
    ensures RemovePaths(fs, [name], table, i, levels, junk) == (true, RemoveAllIn(fs, 1, table, i, levels))
    decreases NUM_DIR_ENTRIES - i
  {
    if i < NUM_DIR_ENTRIES {
      NextKeeps(fs, 1, table[i], levels);
      if table[i].inUse {
        ChildInRoot(fs, name, table[i], levels, junk);
      }
      ChildrenInRoot(Next(fs, 1, table[i], levels), name, table, i + 1, levels, junk);
    }
  }

  lemma {:induction false} ChildInRoot(fs: Fs, name: string, entry: Entry, levels: nat, junk: nat -> Slots)
    requires Inv(fs) && entry.inUse
    ensures var (answer, mid) := RemovePath(fs, [name] + [entry.name], levels, junk);
            answer != Stopped && mid == Next(fs, 1, entry, levels)
  {
    var path := [name] + [entry.name];
    assert Inner(path) == [] && Last(path) == entry.name;
    var c := Lookup(fs.tables[1], entry.name);
    if c != -1 {
      Found(fs, 1, entry.name);
      PathIsTree(fs, path, 1, c, levels, junk);
    }
  }

  /** What removing a directory by such a path comes to. */
  lemma {:induction false} BareRemoval(fs: Fs, name: string, s: int, levels: nat, junk: nat -> Slots)
    requires Inv(fs) && levels > 0 && s == Lookup(fs.tables[1], name) && IsDirectory(fs, s)
    ensures RemovePath(fs, [name], levels, junk) == Ended(RemoveAllIn(fs, 1, fs.tables[s], 0, levels - 1), 1, fs.tables[1], name, s, junk)
  {
    ChildrenInRoot(fs, name, fs.tables[s], 0, levels - 1, junk);
    assert Inner([name]) == [] && Last([name]) == name;
    assert Target(fs, [name]) == s;
  }

  /** A path whose removal is described: it does not stray, and a directory at its end lies beside the
      files on the way. */
  ghost predicate Proper(fs: Fs, path: seq<string>) {
    && path != [] && !Strays(fs, path)
    && (IsDirectory(fs, Target(fs, path)) && |path| >= 2 ==> Beside(fs, 1, fs.tables[1], Inner(path), Target(fs, path)))
  }

  lemma {:induction false} UnboundedByPath(fs: Fs, path: seq<string>, w: int, table: Table, s: int, levels: nat, more: nat, junk: nat -> Slots)
    requires Leads(fs, path, w, table, s) && IsDirectory(fs, s) && Covers(fs, levels) && levels <= more
    ensures RemovePath(fs, path, more, junk) == RemovePath(fs, path, levels, junk)
  {
    assert IsSector(w) by { FollowEnds(fs, 1, fs.tables[1], Inner(path)); }
    RemovalEnds(fs, path, w, table, s, levels, junk);
    RemovalEnds(fs, path, w, table, s, more, junk);
    EmptiedEnough(fs, s, levels - 1, more - 1);
  }

  lemma {:induction false} UnboundedBare(fs: Fs, name: string, s: int, levels: nat, more: nat, junk: nat -> Slots)
    requires Inv(fs) && s == Lookup(fs.tables[1], name) && IsDirectory(fs, s) && Covers(fs, levels) && levels <= more
    ensures RemovePath(fs, [name], more, junk) == RemovePath(fs, [name], levels, junk)
  {
    BareRemoval(fs, name, s, levels, junk);
    BareRemoval(fs, name, s, more, junk);
    AllEnough(fs, 1, fs.tables[s], 0, levels - 1, more - 1);
  }

  /** A removal with a bound that covers the tree is the removal without one. */
  lemma {:induction false} RemoveUnbounded(fs: Fs, path: seq<string>, levels: nat, more: nat, junk: nat -> Slots)
    requires Inv(fs) && Proper(fs, path) && Covers(fs, levels) && levels <= more
    ensures RemovePath(fs, path, more, junk) == RemovePath(fs, path, levels, junk)
  {
    var s := Target(fs, path);
    if IsDirectory(fs, s) {
      if |path| >= 2 {
        var At(w, table) := Resolve(fs, path);
        UnboundedByPath(fs, path, w, table, s, levels, more, junk);
      } else {
        assert path == [path[0]];
        UnboundedBare(fs, path[0], s, levels, more, junk);
      }
    }
  }

  /** The root directory has an entry of this name that can be removed: a file visited once, or a
      directory. */
  predicate Goes(fs: Fs, name: string) {
    var s := Lookup(fs.tables[1], name);
    IsFile(fs, s) && Leaves(fs, s)
  }

  /** A removal that fails changes no table and no other name's prospects; one that succeeds frees the
      file. */
  lemma {:induction false} Tried(fs: Fs, x: string, c: string, levels: nat)
    requires Inv(fs) && levels > 0
    ensures var fs' := RemoveIn(fs, 1, x, levels).1;
            && (!Goes(fs, x) ==> fs'.tables == fs.tables && fs'.live == fs.live && (c != x ==> (Goes(fs', c) <==> Goes(fs, c))))
            && (Goes(fs, x) ==> Lookup(fs.tables[1], x) in fs.live && Lookup(fs.tables[1], x) !in fs'.live)
  {
    var t := Lookup(fs.tables[1], x);
    if IsFile(fs, t) {
      Found(fs, 1, x);
      var u := Lookup(fs.tables[1], c);
      if c != x && u != -1 {
        Found(fs, 1, c);
      }
    }
  }

  lemma {:induction false} NoneGoes(fs: Fs, table: Table, i: nat, levels: nat)
    requires Inv(fs) && i <= NUM_DIR_ENTRIES && NamesUnique(table) && levels > 0
    requires forall j :: i <= j < NUM_DIR_ENTRIES && table[j].inUse ==> !Goes(fs, table[j].name)
    ensures var mid := RemoveAllIn(fs, 1, table, i, levels);
            mid.tables == fs.tables && mid.live == fs.live
    decreases NUM_DIR_ENTRIES - i
  {
    if i < NUM_DIR_ENTRIES {
      var next := Next(fs, 1, table[i], levels);
      NextKeeps(fs, 1, table[i], levels);
      if table[i].inUse {
        forall j | i <= j < NUM_DIR_ENTRIES && table[j].inUse
          ensures next.tables == fs.tables && next.live == fs.live
          ensures i < j ==> !Goes(next, table[j].name)
        {
          Tried(fs, table[i].name, table[j].name, levels);
        }
      }
      NoneGoes(next, table, i + 1, levels);
    }
  }

  lemma {:induction false} SomeGoes(fs: Fs, table: Table, i: nat, levels: nat, k: nat) returns (c: string)
    requires Inv(fs) && i <= k < NUM_DIR_ENTRIES && NamesUnique(table) && table[k].inUse && Goes(fs, table[k].name) && levels > 0
    ensures exists j :: Names(table, j, c)
    ensures Lookup(fs.tables[1], c) in fs.live && Lookup(fs.tables[1], c) !in RemoveAllIn(fs, 1, table, i, levels).live
    decreases NUM_DIR_ENTRIES - i
  {
    var next := Next(fs, 1, table[i], levels);
    NextKeeps(fs, 1, table[i], levels);
    if table[i].inUse {
      Tried(fs, table[i].name, table[k].name, levels);
    }
    RemoveAllInKeeps(next, 1, table, i + 1, levels);
    if table[i].inUse && Goes(fs, table[i].name) {
      c := table[i].name;
      assert Names(table, i, c);
    } else {
      c := SomeGoes(next, table, i + 1, levels, k);
    }
  }

  /** Removing one file of a directory leaves the others of that directory. */
  lemma {:induction false} SiblingStays(fs: Fs, d: int, x: string, name: string, levels: nat)
    requires Inv(fs) && IsDirectory(fs, d) && x != name && Lookup(fs.tables[d], name) != -1
    ensures var fs' := RemoveIn(fs, d, x, levels).1;
            var s := Lookup(fs.tables[d], name);
            && Lookup(fs'.tables[d], name) == s && IsFile(fs, s) && s in fs'.live && SameFile(fs.headers[s], fs'.headers[s])
  {
    Found(fs, d, name);
    var t := Lookup(fs.tables[d], x);
    assert TableOk(fs, d);
    RemoveThenFind(fs.tables[d], x, name);
    if t != -1 {
      Found(fs, d, x);
      if IsDirectory(fs, t) && levels > 0 {
        EmptiedKeeps(fs, t, levels - 1);
        assert SameFile(fs.headers[Lookup(fs.tables[d], name)], Emptied(fs, t, levels - 1).headers[Lookup(fs.tables[d], name)]);
      }
    }
  }

  /** A directory that is removed has its index sectors unmarked. */
  lemma {:induction false} DirectoryFreed(fs: Fs, d: int, name: string, levels: nat)
    requires Inv(fs) && IsDirectory(fs, d) && IsDirectory(fs, Lookup(fs.tables[d], name)) && levels > 0
    ensures var s := Lookup(fs.tables[d], name);
            |fs.headers[s].primary| == NUM_DIRECT && fs.headers[s].primary[0] as int !in RemoveIn(fs, d, name, levels).1.marks
  {
    var s := Lookup(fs.tables[d], name);
    var mid := Emptied(fs, s, levels - 1);
    DirectorySectors(fs, s);
    EmptiedKeeps(fs, s, levels - 1);
    assert SameFile(fs.headers[s], mid.headers[s]);
    OwnedByIndex(mid, s, 0);
  }

  /** An entry of the directory s that has the name of s itself takes s away. */
  lemma {:induction false} SelfGoes(fs: Fs, table: Table, i: nat, k: nat, s: int, levels: nat)
    requires Inv(fs) && i <= k < NUM_DIR_ENTRIES && NamesUnique(table) && table[k].inUse && levels > 0
    requires s == Lookup(fs.tables[1], table[k].name) && IsDirectory(fs, s)
    ensures var mid := RemoveAllIn(fs, 1, table, i, levels);
            !CanFree(mid, s)
    decreases NUM_DIR_ENTRIES - i
  {
    var next := Next(fs, 1, table[i], levels);
    NextKeeps(fs, 1, table[i], levels);
    RemoveAllInKeeps(next, 1, table, i + 1, levels);
    if i == k {
      DirectoryFreed(fs, 1, table[k].name, levels);
      DirectorySectors(fs, s);
      var mid := RemoveAllIn(fs, 1, table, i, levels);
      assert SameFile(fs.headers[s], next.headers[s]) && SameFile(next.headers[s], mid.headers[s]);
    } else {
      if table[i].inUse {
        SiblingStays(fs, 1, table[i].name, table[k].name, levels);
      }
      SelfGoes(next, table, i + 1, k, s, levels);
    }
  }

  lemma {:induction false} NothingGoes(fs: Fs, name: string, s: int, levels: nat, junk: nat -> Slots)
    requires Inv(fs) && levels > 0 && s == Lookup(fs.tables[1], name) && IsDirectory(fs, s) && NamesUnique(fs.tables[s])
    requires forall j :: 0 <= j < NUM_DIR_ENTRIES && fs.tables[s][j].inUse ==> !Goes(fs, fs.tables[s][j].name)
    ensures var (answer, fs') := Ended(RemoveAllIn(fs, 1, fs.tables[s], 0, levels), 1, fs.tables[1], name, s, junk);
            answer == Yes && Inv(fs')
  {
    var mid := RemoveAllIn(fs, 1, fs.tables[s], 0, levels);
    RemoveAllInKeeps(fs, 1, fs.tables[s], 0, levels);
    NoneGoes(fs, fs.tables[s], 0, levels);
    DirectorySectors(mid, 1);
    EndedInDirectory(mid, 1, fs.tables[1], name, s, junk);
    DropKeeps(mid, 1, name, s);
  }

  /** Writing back a root table that lists a file that is gone. */
  lemma {:induction false} DropStale(mid: Fs, table: Table, name: string, s: int, c: string, children: Table)
    requires IsSector(s) && NamesUnique(table)
    requires IndexOf(children, name) == -1 && exists j :: Names(children, j, c)
    requires Lookup(table, c) != -1 && Lookup(table, c) !in mid.live
    ensures !Inv(Dropped(mid, 1, table, name, s))
  {
    RemoveThenFind(table, name, c);
    if Inv(Dropped(mid, 1, table, name, s)) {
      Found(Dropped(mid, 1, table, name, s), 1, c);
    }
  }

  lemma {:induction false} SomethingGoes(fs: Fs, name: string, s: int, levels: nat, junk: nat -> Slots, k: nat)
    requires Inv(fs) && levels > 0 && s == Lookup(fs.tables[1], name) && IsDirectory(fs, s) && IndexOf(fs.tables[s], name) == -1
    requires k < NUM_DIR_ENTRIES && fs.tables[s][k].inUse && Goes(fs, fs.tables[s][k].name)
    ensures var (answer, fs') := Ended(RemoveAllIn(fs, 1, fs.tables[s], 0, levels), 1, fs.tables[1], name, s, junk);
            answer == Yes && !Inv(fs')
  {
    assert TableOk(fs, s) && TableOk(fs, 1);
    var mid := RemoveAllIn(fs, 1, fs.tables[s], 0, levels);
    RemoveAllInKeeps(fs, 1, fs.tables[s], 0, levels);
    OthersStay(fs, fs.tables[s], 0, name, levels);
    var c := SomeGoes(fs, fs.tables[s], 0, levels, k);
    DirectorySectors(mid, 1);
    EndedInDirectory(mid, 1, fs.tables[1], name, s, junk);
    DropStale(mid, fs.tables[1], name, s, c, fs.tables[s]);
  }

  /** A name that is not among those tried stays. */
  lemma {:induction false} OthersStay(fs: Fs, table: Table, i: nat, name: string, levels: nat)
    requires Inv(fs) && i <= NUM_DIR_ENTRIES && IndexOf(table, name) == -1 && Lookup(fs.tables[1], name) != -1
    ensures Lookup(fs.tables[1], name) in RemoveAllIn(fs, 1, table, i, levels).live
    decreases NUM_DIR_ENTRIES - i
  {
    if i < NUM_DIR_ENTRIES {
      var next := Next(fs, 1, table[i], levels);
      NextKeeps(fs, 1, table[i], levels);
      if table[i].inUse {
        assert !Names(table, i, name);
        SiblingStays(fs, 1, table[i].name, name, levels);
      }
      OthersStay(next, table, i + 1, name, levels);
    } else {
      Found(fs, 1, name);
    }
  }

  lemma {:induction false} BareEnds(fs: Fs, name: string, s: int, levels: nat, junk: nat -> Slots)
    requires Inv(fs) && levels > 0 && s == Lookup(fs.tables[1], name) && IsDirectory(fs, s)
    ensures var (answer, fs') := Ended(RemoveAllIn(fs, 1, fs.tables[s], 0, levels), 1, fs.tables[1], name, s, junk);
            && (answer == Stopped <==> IndexOf(fs.tables[s], name) != -1)
            && (answer != Stopped ==>
                  && answer == Yes
                  && (Inv(fs') <==> forall j :: 0 <= j < NUM_DIR_ENTRIES && fs.tables[s][j].inUse ==> !Goes(fs, fs.tables[s][j].name)))
  {
    assert TableOk(fs, s);
    if IndexOf(fs.tables[s], name) != -1 {
      SelfGoes(fs, fs.tables[s], 0, IndexOf(fs.tables[s], name), s, levels);
    } else if k :| 0 <= k < NUM_DIR_ENTRIES && fs.tables[s][k].inUse && Goes(fs, fs.tables[s][k].name) {
      SomethingGoes(fs, name, s, levels, junk, k);
    } else {
      NothingGoes(fs, name, s, levels, junk);
    }
  }

  /** A path of one component that names a directory: its entries' paths lead to the root directory, so
      files there with the same names are removed instead, and the root table written back at the end
      still lists them.  The kernel is stopped exactly when the directory has an entry of its own name;
      otherwise the file system stays in order exactly when none of them goes. */
  lemma {:induction false} OneComponent(fs: Fs, name: string, levels: nat, junk: nat -> Slots)
    requires Inv(fs) && Covers(fs, levels) && IsDirectory(fs, Lookup(fs.tables[1], name))
    ensures var children := fs.tables[Lookup(fs.tables[1], name)];
            var (answer, fs') := RemovePath(fs, [name], levels, junk);
            && (answer == Stopped <==> IndexOf(children, name) != -1)
            && (answer != Stopped ==>
                  && answer == Yes
                  && (Inv(fs') <==> forall j :: 0 <= j < NUM_DIR_ENTRIES && children[j].inUse ==> !Goes(fs, children[j].name)))
  {
    var s := Lookup(fs.tables[1], name);
    assert levels >= 2 by {
      Found(fs, 1, name);
      assert fs.depth[s] < levels;
    }
    BareRemoval(fs, name, s, levels, junk);
    BareEnds(fs, name, s, levels - 1, junk);
  }
}
