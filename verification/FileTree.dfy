/** The file system as its directories show it, on values: which files exist, where their sectors are,
    what the directory tables say, and where paths lead.  The free map, the tables and the headers
    appear as what their files and sectors hold, not as bytes. */
module FileTrees {
  import opened Arith
  import opened BitMaps
  import opened Codec
  import opened Disks
  import opened FileIndex
  import opened FileHeaders
  import opened FileBytes
  import opened Directories

  const NUM_DIR_ENTRIES: nat := 10
  const ENTRY_SIZE: nat := 12
  const TABLE_SIZE: nat := 120

  type Table = t: seq<Entry> | |t| == NUM_DIR_ENTRIES witness seq(NUM_DIR_ENTRIES, i => Entry(false, 0, ""))

  function EmptyTable(): Table { seq(NUM_DIR_ENTRIES, i => Entry(false, 0, "")) }

  function BlankHeader(): Header { Header(0, 0, 0, 0, seq(NUM_DIRECT, i => 0), 0, 0, 0) }

  // One of each for every sector.
  type Headers = h: seq<Header> | |h| == NUM_SECTORS witness seq<Header>(NUM_SECTORS, i => BlankHeader())
  type Tables = t: seq<Table> | |t| == NUM_SECTORS witness seq<Table>(NUM_SECTORS, i => EmptyTable())
  type Depths = d: seq<nat> | |d| == NUM_SECTORS witness seq<nat>(NUM_SECTORS, i => 0)
  type Sectors = x: set<int> | forall s :: s in x ==> IsSector(s) witness {}

  /** marks is the free map on disk; index is the disk read as ints, as far as index sectors go;
      headers[s] is the file header in sector s, and tables[s] what the first 120 bytes of that file
      say as a directory table, whether or not it is one; live are the header sectors of the files
      created and not removed; depth[s] is the number of directories above the file.  blend(a, b, n) is
      entry a with its first n bytes replaced by those of b. */
  datatype Fs = Fs(marks: set<int>, index: IntPlatter, headers: Headers, tables: Tables,
                   live: Sectors, depth: Depths, blend: (Entry, Entry, nat) -> Entry)

  /** A file that a path may lead to: the free map's own file, in sector 0, is none. */
  predicate IsFile(fs: Fs, s: int) { s in fs.live && s != 0 }

  predicate IsDirectory(fs: Fs, s: int)
  {
    IsFile(fs, s) && fs.headers[s].fileType == 1
  }

  // ---- The invariant ----

  ghost function SetOf(s: seq<int>): set<int> {
    if s == [] then {} else SetOf(s[..|s| - 1]) + {s[|s| - 1]}
  }

  lemma {:induction false} SetOfIsElements(s: seq<int>)
    ensures SetOf(s) == Elements(s)
  {
    if s != [] {
      SetOfIsElements(s[..|s| - 1]);
      assert s == s[..|s| - 1] + [s[|s| - 1]];
    }
  }

  ghost function OwnedBy(fs: Fs, s: int): set<int>
    requires IsSector(s) && WellFormed(fs.headers[s])
  {
    SetOf(Owned(fs.headers[s], fs.index))
  }

  lemma {:induction false} OwnedByIndex(fs: Fs, s: int, i: nat)
    requires IsSector(s) && WellFormed(fs.headers[s]) && i < IndexCount(fs.headers[s].numSectors)
    ensures fs.headers[s].primary[i] as int in OwnedBy(fs, s)
  {
    SetOfIsElements(Owned(fs.headers[s], fs.index));
    IndexPosition(fs.headers[s].primary, fs.index, 0, fs.headers[s].numSectors, i);
  }

  /** A live file is usable, everything it owns is marked, and it owns no file's header sector. */
  ghost predicate FileOk(fs: Fs, s: int)
    requires IsSector(s)
  {
    && Sound(fs.headers[s], fs.index)
    && s in fs.marks && OwnedBy(fs, s) <= fs.marks && OwnedBy(fs, s) !! fs.live
  }

  /** No sector belongs to two live files. */
  ghost predicate FilesOk(fs: Fs)
  {
    && (forall s {:trigger FileOk(fs, s)} :: s in fs.live ==> FileOk(fs, s))
    && (forall s, t {:trigger OwnedBy(fs, s), OwnedBy(fs, t)} ::
          s in fs.live && t in fs.live && s != t && WellFormed(fs.headers[s]) && WellFormed(fs.headers[t]) ==>
            OwnedBy(fs, s) !! OwnedBy(fs, t))
  }

  /** An entry in use names a live file one level down. */
  ghost predicate EntryOk(fs: Fs, d: int, i: int)
    requires IsSector(d) && 0 <= i < NUM_DIR_ENTRIES
  {
    var e := fs.tables[d][i];
    e.inUse ==> IsFile(fs, e.sector) && e.sector != 1 && fs.depth[e.sector] == fs.depth[d] + 1
  }

  ghost predicate TableOk(fs: Fs, d: int)
    requires IsSector(d)
  {
    && fs.headers[d].numBytes >= TABLE_SIZE && NamesUnique(fs.tables[d])
    && forall i {:trigger EntryOk(fs, d, i)} :: 0 <= i < NUM_DIR_ENTRIES ==> EntryOk(fs, d, i)
  }

  /** An entry of a live directory that refers to sector s. */
  ghost predicate Refers(fs: Fs, d: int, i: int, s: int)
  {
    IsDirectory(fs, d) && 0 <= i < NUM_DIR_ENTRIES && fs.tables[d][i].inUse && fs.tables[d][i].sector == s
  }

  /** No live directory lists the file, and it is not the root directory. */
  ghost predicate Unlisted(fs: Fs, s: int)
  {
    s != 1 && forall d, i :: !Refers(fs, d, i, s)
  }

  /** Every directory holds a whole table, whose names are unique and whose entries are live, and no
      file has two names. */
  ghost predicate TreeOk(fs: Fs)
  {
    && 0 in fs.live && IsDirectory(fs, 1)
    && (forall s {:trigger fs.headers[s].fileType} :: s in fs.live ==> fs.headers[s].fileType == 0 || fs.headers[s].fileType == 1)
    && (forall d {:trigger TableOk(fs, d)} :: IsDirectory(fs, d) ==> TableOk(fs, d))
    && (forall d, i, e, j, s :: Refers(fs, d, i, s) && Refers(fs, e, j, s) ==> d == e && i == j)
  }

  ghost predicate Inv(fs: Fs) { FilesOk(fs) && TreeOk(fs) }

  // ---- Paths ----

  /** What is in memory after the first 120 bytes of a file are read over a table: an entry that the
      file covers, one it covers in part, and one it does not reach. */
  function Fetched(fs: Fs, s: int, old_: Table): (t: Table)
    requires IsSector(s)
    ensures fs.headers[s].numBytes >= TABLE_SIZE ==> t == fs.tables[s]
    ensures fs.headers[s].numBytes <= 0 ==> t == old_
    ensures forall i {:trigger t[i]} :: 0 <= i < NUM_DIR_ENTRIES ==>
              (ENTRY_SIZE * (i + 1) <= fs.headers[s].numBytes ==> t[i] == fs.tables[s][i])
              && (fs.headers[s].numBytes <= ENTRY_SIZE * i ==> t[i] == old_[i])
              && (0 < fs.headers[s].numBytes - ENTRY_SIZE * i < ENTRY_SIZE ==>
                    t[i] == fs.blend(old_[i], fs.tables[s][i], fs.headers[s].numBytes - ENTRY_SIZE * i))
  {
    var n, file := fs.headers[s].numBytes, fs.tables[s];
    seq(NUM_DIR_ENTRIES, i requires 0 <= i < NUM_DIR_ENTRIES =>
      if ENTRY_SIZE * (i + 1) <= n then file[i]
      else if ENTRY_SIZE * i < n then fs.blend(old_[i], file[i], n - ENTRY_SIZE * i)
      else old_[i])
  }

  /** Where the inner names of a path lead: nowhere, because a name is missing; astray, because a plain
      file's bytes were taken for an entry that names no file; or to a file, which need not be a
      directory, with the table that is in memory then. */
  datatype Way = Nowhere | Astray | At(file: int, table: Table)

  /** getFileName goes on from the file it found under a name whatever its type, and reads its bytes
      over the table of the file before. */
  function Follow(fs: Fs, d: int, table: Table, names: seq<string>): (r: Way)
    decreases |names|
  {
    if names == [] then At(d, table)
    else
      var s := Lookup(table, names[0]);
      if s == -1 then Nowhere
      else if !IsFile(fs, s) then Astray
      else Follow(fs, s, Fetched(fs, s, table), names[1..])
  }

  /** The first component of a path is skipped, unless it is the only one. */
  function Inner(path: seq<string>): seq<string>
    requires path != []
  {
    if |path| == 1 then [] else path[1..|path| - 1]
  }

  function Last(path: seq<string>): string
    requires path != []
  {
    path[|path| - 1]
  }

  /** getFileName: the file whose table is in memory for the last name of a path. */
  function Resolve(fs: Fs, path: seq<string>): Way
    requires path != []
  {
    Follow(fs, 1, fs.tables[1], Inner(path))
  }

  /** The file a path leads to, or -1. */
  function Target(fs: Fs, path: seq<string>): int
    requires path != []
  {
    match Resolve(fs, path)
    case At(_, table) => Lookup(table, Last(path))
    case _ => -1
  }

  /** The bytes of some plain file lead the path to a sector that is no file's header. */
  predicate Strays(fs: Fs, path: seq<string>)
    requires path != []
  {
    Resolve(fs, path).Astray? || (Target(fs, path) != -1 && !IsFile(fs, Target(fs, path)))
  }

  /** Every file on the way is a directory. */
  predicate Straight(fs: Fs, d: int, names: seq<string>)
    requires IsSector(d)
    decreases |names|
  {
    names != [] ==>
      var s := Lookup(fs.tables[d], names[0]);
      IsFile(fs, s) ==> IsDirectory(fs, s) && Straight(fs, s, names[1..])
  }

  /** The file under a name of a live directory is live, one level down, and no system file. */
  lemma {:induction false} Found(fs: Fs, d: int, name: string)
    requires TreeOk(fs) && IsDirectory(fs, d) && Lookup(fs.tables[d], name) != -1
    ensures var s, i := Lookup(fs.tables[d], name), IndexOf(fs.tables[d], name);
            && IsFile(fs, s) && s != 1 && fs.depth[s] == fs.depth[d] + 1 && s != d && Refers(fs, d, i, s)
  {
    assert TableOk(fs, d);
    assert EntryOk(fs, d, IndexOf(fs.tables[d], name));
  }

  /** Wherever a path leads, it is to a live file; and when that is a directory, to its own table. */
  lemma {:induction false} FollowEnds(fs: Fs, d: int, table: Table, names: seq<string>)
    requires Inv(fs) && IsFile(fs, d) && (IsDirectory(fs, d) ==> table == fs.tables[d]) && Follow(fs, d, table, names).At?
    ensures var e := Follow(fs, d, table, names);
            IsFile(fs, e.file) && (IsDirectory(fs, e.file) ==> e.table == fs.tables[e.file])
    decreases |names|
  {
    if names != [] {
      var s := Lookup(table, names[0]);
      if IsDirectory(fs, s) {
        assert TableOk(fs, s);
      }
      FollowEnds(fs, s, Fetched(fs, s, table), names[1..]);
    }
  }

  /** A path that meets directories only does not stray, and ends in a directory. */
  lemma {:induction false} StraightEnds(fs: Fs, d: int, names: seq<string>)
    requires Inv(fs) && IsDirectory(fs, d) && Straight(fs, d, names)
    ensures !Follow(fs, d, fs.tables[d], names).Astray?
    ensures var e := Follow(fs, d, fs.tables[d], names);
            e.At? ==> IsDirectory(fs, e.file) && e.table == fs.tables[e.file] && fs.depth[e.file] == fs.depth[d] + |names|
    decreases |names|
  {
    if names != [] && Lookup(fs.tables[d], names[0]) != -1 {
      Found(fs, d, names[0]);
      var s := Lookup(fs.tables[d], names[0]);
      assert TableOk(fs, s);
      StraightEnds(fs, s, names[1..]);
    }
  }

  lemma {:induction false} FollowOne(fs: Fs, d: int, table: Table, names: seq<string>, name: string)
    requires Follow(fs, d, table, names).At?
    ensures var e := Follow(fs, d, table, names);
            var s := Lookup(e.table, name);
            Follow(fs, d, table, names + [name])
            == if s == -1 then Nowhere else if !IsFile(fs, s) then Astray else At(s, Fetched(fs, s, e.table))
    decreases |names|
  {
    if names != [] {
      assert (names + [name])[1..] == names[1..] + [name];
      var s := Lookup(table, names[0]);
      FollowOne(fs, s, Fetched(fs, s, table), names[1..], name);
    } else {
      assert (names + [name])[1..] == [];
    }
  }

  // ---- Writing a table back ----

  /** The table goes back into the file it was read for: in place when the file has sectors; a file
      without any is extended, on the map as it is on disk, which is not written. */
  ghost function WrittenBack(fs: Fs, w: int, table: Table, junk: nat -> Slots): Fs
    requires IsSector(w)
  {
    var h := fs.headers[w];
    if h.numBytes >= TABLE_SIZE then fs.(tables := fs.tables[w := table])
    else if |h.primary| != NUM_DIRECT || !Extendable(h.numSectors, h.numBytes, TABLE_SIZE) then fs  // no header at all
    else
      var (outcome, g, x) := ExtendResult(h, Image(fs.marks, h.primary, fs.index), TABLE_SIZE, junk);
      if outcome != Allocated then fs.(index := x.disk)
      else fs.(headers := fs.headers[w := g], index := x.disk, tables := fs.tables[w := table])
  }

  /** A header that says at least this much. */
  function Longer(h: Header): Header { if h.numBytes >= TABLE_SIZE then h else h.(numBytes := TABLE_SIZE) }

  lemma TableSectors()
    ensures SectorCount(TABLE_SIZE) == 1 && IndexCount(1) == 1 && IndexCount(0) == 0
  {
    assert IndexCount(0) == 0;
  }

  lemma {:induction false} WrittenInPlace(fs: Fs, w: int, table: Table, junk: nat -> Slots)
    requires IsSector(w) && Sound(fs.headers[w], fs.index) && fs.headers[w].numSectors > 0
    ensures WrittenBack(fs, w, table, junk)
            == fs.(headers := fs.headers[w := Longer(fs.headers[w])], tables := fs.tables[w := table])
  {
    TableSectors();
    var h := fs.headers[w];
    if h.numBytes >= TABLE_SIZE {
      assert fs.headers[w := h] == fs.headers;
    } else {
      ExtendUnfolds(h, Image(fs.marks, h.primary, fs.index), TABLE_SIZE, SectorCount(TABLE_SIZE - h.numBytes), junk);
    }
  }

  /** An empty file takes the lowest clear sector for its index. */
  lemma {:induction false} WrittenIntoEmpty(fs: Fs, w: int, table: Table, junk: nat -> Slots)
    requires IsSector(w) && Sound(fs.headers[w], fs.index) && fs.headers[w].numSectors == 0
    requires LowestClear(fs.marks, NUM_SECTORS) != -1
    ensures var r := WrittenBack(fs, w, table, junk);
            var i := LowestClear(fs.marks, NUM_SECTORS);
            && r == fs.(headers := fs.headers[w := r.headers[w]], index := r.index, tables := fs.tables[w := table])
            && IsSector(i) && i !in fs.marks
            && WellFormed(r.headers[w]) && r.headers[w].fileType == fs.headers[w].fileType && i in OwnedBy(r, w)
            && r.headers[w].createTime == fs.headers[w].createTime
            && (forall t {:trigger r.index[t]} :: t in fs.marks && IsSector(t) ==> r.index[t] == fs.index[t])
  {
    TableSectors();
    var h := fs.headers[w];
    var x := Image(fs.marks, h.primary, fs.index);
    ExtendUnfolds(h, x, TABLE_SIZE, 1, junk);
    FindTakesOne(fs.marks, NUM_SECTORS);
    ExtendEmpty(x, junk);
    var r := WrittenBack(fs, w, table, junk);
    OwnedByIndex(r, w, 0);
  }

  lemma {:induction false} ExtendEmpty(x: Image, junk: nat -> Slots)
    requires |x.primary| == NUM_DIRECT && LowestClear(x.marks, NUM_SECTORS) != -1
    ensures IndexCount(1) == 1
    ensures var (outcome, x') := Extension(x, 0, 1, junk);
            && outcome == Allocated && x'.primary[0] == LowestClear(x.marks, NUM_SECTORS)
            && (forall t {:trigger x'.disk[t]} :: t in x.marks && IsSector(t) ==> x'.disk[t] == x.disk[t])
  {
    TableSectors();
    FindTakesOne(x.marks, NUM_SECTORS);
    AddBlocksFrame(x, 0, 1, junk);
    AddBlocksAborts(x, 0, 1, junk);
    FirstBlock(x, 0, 1, junk);
    var y := AddBlock(x, 0, 1, junk(0));
    assert AddBlocks(y, 1, 0, junk) == (true, y);
  }

  // ---- What the invariant depends on ----

  /** Headers that describe the same sectors. */
  predicate SameExtents(h: Header, g: Header) {
    h.primary == g.primary && h.numSectors == g.numSectors && h.fileType == g.fileType
  }

  /** A live file keeps its sectors when marked sectors keep their contents. */
  lemma {:induction false} IndexKept(fs: Fs, s: int, index: IntPlatter)
    requires s in fs.live && FileOk(fs, s)
    requires forall t {:trigger index[t]} :: t in fs.marks && IsSector(t) ==> index[t] == fs.index[t]
    ensures Sound(fs.headers[s], index) && Owned(fs.headers[s], index) == Owned(fs.headers[s], fs.index)
  {
    var h := fs.headers[s];
    forall i | 0 <= i < IndexCount(h.numSectors) && IsSector(h.primary[i])
      ensures fs.index[h.primary[i]] == index[h.primary[i]]
    {
      OwnedByIndex(fs, s, i);
    }
    SameIndexSameFile(h, fs.index, index);
  }

  lemma LiveMarked(fs: Fs)
    requires FilesOk(fs)
    ensures fs.live <= fs.marks
  {
    forall s | s in fs.live
      ensures s in fs.marks
    {
      assert FileOk(fs, s);
    }
  }

  /** A tree depends on the tables of its directories and on which files are live. */
  lemma {:induction false} SameTree(fs: Fs, fs': Fs)
    requires TreeOk(fs) && fs'.live == fs.live && fs'.depth == fs.depth
    requires forall s :: IsSector(s) ==> fs'.headers[s].fileType == fs.headers[s].fileType
    requires forall d :: IsDirectory(fs, d) ==> fs'.tables[d] == fs.tables[d] && fs'.headers[d].numBytes >= TABLE_SIZE
    ensures TreeOk(fs')
  {
    assert forall d :: IsDirectory(fs', d) <==> IsDirectory(fs, d);
    forall d | IsDirectory(fs', d)
      ensures TableOk(fs', d)
    {
      assert TableOk(fs, d);
      forall i | 0 <= i < NUM_DIR_ENTRIES
        ensures EntryOk(fs', d, i)
      {
        assert EntryOk(fs, d, i);
      }
    }
    assert forall d, i, s :: Refers(fs', d, i, s) ==> Refers(fs, d, i, s);
  }

  /** Files that keep their extents are as well as before, on a map that still marks them. */
  lemma {:induction false} SameFiles(fs: Fs, fs': Fs)
    requires FilesOk(fs) && fs'.live <= fs.live
    requires forall s :: s in fs'.live ==> SameExtents(fs.headers[s], fs'.headers[s])
    requires forall s :: s in fs'.live ==> fs'.headers[s].numBytes == fs.headers[s].numBytes
                                           || 0 <= fs'.headers[s].numBytes <= fs'.headers[s].numSectors * 128
    requires forall s :: s in fs'.live && WellFormed(fs.headers[s]) ==> OwnedBy(fs, s) + {s} <= fs'.marks
    requires forall t {:trigger fs'.index[t]} :: t in fs.marks && IsSector(t) ==> fs'.index[t] == fs.index[t]
    ensures FilesOk(fs')
  {
    forall s | s in fs'.live
      ensures FileOk(fs, s) && FileOk(fs', s) && OwnedBy(fs', s) == OwnedBy(fs, s)
    {
      assert FileOk(fs, s);
      IndexKept(fs, s, fs'.index);
    }
  }

  /** Writing sectors that are not marked leaves everything in order. */
  lemma {:induction false} IndexWritten(fs: Fs, index: IntPlatter)
    requires Inv(fs) && forall t {:trigger index[t]} :: t in fs.marks && IsSector(t) ==> index[t] == fs.index[t]
    ensures Inv(fs.(index := index))
  {
    var fs' := fs.(index := index);
    OwnedMarked(fs);
    SameFiles(fs, fs');
    TreeSizes(fs);
    SameTree(fs, fs');
  }

  lemma {:induction false} OwnedMarked(fs: Fs)
    requires FilesOk(fs)
    ensures forall s :: s in fs.live ==> WellFormed(fs.headers[s]) && OwnedBy(fs, s) + {s} <= fs.marks
  {
    forall s | s in fs.live
      ensures WellFormed(fs.headers[s]) && OwnedBy(fs, s) + {s} <= fs.marks
    {
      assert FileOk(fs, s);
    }
  }

  lemma {:induction false} TreeSizes(fs: Fs)
    requires TreeOk(fs)
    ensures forall d :: IsDirectory(fs, d) ==> fs.headers[d].numBytes >= TABLE_SIZE
  {
    forall d | IsDirectory(fs, d)
      ensures fs.headers[d].numBytes >= TABLE_SIZE
    {
      assert TableOk(fs, d);
    }
  }

  /** Whatever is written in place into a plain file, the file system stays in order. */
  lemma {:induction false} PlainWrite(fs: Fs, w: int, table: Table)
    requires Inv(fs) && IsFile(fs, w) && !IsDirectory(fs, w) && fs.headers[w].numSectors > 0
    ensures Inv(fs.(headers := fs.headers[w := Longer(fs.headers[w])], tables := fs.tables[w := table]))
  {
    var fs' := fs.(headers := fs.headers[w := Longer(fs.headers[w])], tables := fs.tables[w := table]);
    OwnedMarked(fs);
    SameFiles(fs, fs');
    TreeSizes(fs);
    SameTree(fs, fs');
  }

  /** A directory has a sector for its table. */
  lemma {:induction false} DirectorySectors(fs: Fs, d: int)
    requires Inv(fs) && IsDirectory(fs, d)
    ensures fs.headers[d].numBytes >= TABLE_SIZE && fs.headers[d].numSectors > 0 && Sound(fs.headers[d], fs.index)
  {
    assert FileOk(fs, d) && TableOk(fs, d);
  }
}
