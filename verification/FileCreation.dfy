/** FileSystem::Create on the values of `FileTrees`. */
module FileCreation {
  import opened Arith
  import opened BitMaps
  import opened Codec
  import opened Disks
  import opened FileIndex
  import opened FileHeaders
  import opened FileBytes
  import opened Directories
  import opened FileTrees

  datatype Result = Yes | No | Stopped  // Stopped: an ASSERT has ended the kernel

  /** Create for the file w whose table is in memory.  blank is the uninitialised header object, with
      the times of the clock; contents is what the new file's bytes say as a table, which for a plain
      file is whatever its sectors held before.  Until the end the map on disk is the old one. */
  ghost function Create(fs: Fs, w: int, table: Table, name: string, size: nat, kind: int32, blank: Header, contents: Table,
                        junk: nat -> Slots): (Result, Fs)
    requires IsSector(w) && |blank.primary| == NUM_DIRECT
    requires size < 0x8000_0000 && IndexCount(SectorCount(size)) <= NUM_DIRECT
  {
    var sector := LowestClear(fs.marks, NUM_SECTORS);
    if !CanAdd(table, name) || sector == -1 then (No, fs)
    else
      FindTakesOne(fs.marks, NUM_SECTORS);
      var (outcome, x) := AllocateResult(Image(fs.marks + {sector}, blank.primary, fs.index), size, junk);
      if outcome == NoSpace then (No, fs)
      else if outcome == Aborted then (Stopped, fs.(index := x.disk))  // index sectors written, map not
      else
        var h := NewHeader(blank, x.primary, size, kind);
        var born := Born(fs, w, sector, h, x.disk, contents);
        if kind != 1 then (Yes, Entered(born, w, WithEntry(table, name, sector), sector, x.marks, junk))
        else if size > 0 || IsSector(h.createTime) then
          (Yes, Entered(Tabled(born, sector, junk), w, WithEntry(table, name, sector), sector, x.marks, junk))
        else (Stopped, fs.(index := Tabled(born, sector, junk).index))
  }

  function NewHeader(blank: Header, primary: seq<int32>, size: nat, kind: int32): Header
    requires size < 0x8000_0000
  {
    SectorCountLeast(size, size);
    blank.(primary := primary, numBytes := size, numSectors := SectorCount(size), fileType := kind)
  }

  /** The new file is there, with its header in its sector, but in no directory. */
  function Born(fs: Fs, w: int, sector: int, h: Header, index: IntPlatter, contents: Table): (r: Fs)
    requires IsSector(w) && IsSector(sector)
  {
    fs.(index := index, headers := fs.headers[sector := h], tables := fs.tables[sector := contents],
        live := fs.live + {sector}, depth := fs.depth[sector := fs.depth[w] + 1])
  }

  /** The empty table goes into a new directory.  One without sectors is extended, and takes its own
      header sector, which the map on disk does not mark, for its index: the header then lies where the
      index was, and the first of its ints, the creation time, passes for the number of the sector that
      is to take the table.  The device stops the kernel unless that is a sector. */
  ghost function Tabled(born: Fs, sector: int, junk: nat -> Slots): (r: Fs)
    requires IsSector(sector)
  {
    var r := WrittenBack(born, sector, EmptyTable(), junk);
    if born.headers[sector].numSectors > 0 || |r.headers[sector].primary| != NUM_DIRECT then r
    else r.(index := r.index[sector := ToInts(r.headers[sector])])
  }

  /** The table with the new entry goes into w, and then the map is written.  A w without sectors is
      extended on the map on disk, and takes the new header's sector for its index. */
  ghost function Entered(born: Fs, w: int, table: Table, sector: int, marks: set<int>, junk: nat -> Slots): (r: Fs)
    requires IsSector(w) && IsSector(sector)
  {
    var r := WrittenBack(born, w, table, junk);
    if born.headers[w].numSectors > 0 then r.(marks := marks)
    else r.(marks := marks, headers := r.headers[sector := FromInts(r.index[sector])])
  }

  // ---- The new file ----

  /** What allocation hands over when there is room: a usable header in a free sector, whose sectors
      were free, and an index that is the old one wherever it was marked. */
  ghost predicate GoodNews(fs: Fs, sector: int, h: Header, marks: set<int>, index: IntPlatter) {
    && IsSector(sector) && sector !in fs.marks && Sound(h, index)
    && (forall t {:trigger index[t]} :: t in fs.marks && IsSector(t) ==> index[t] == fs.index[t])
    && SetOf(Owned(h, index)) !! fs.marks + {sector} && marks == fs.marks + {sector} + SetOf(Owned(h, index))
  }

  lemma {:induction false} BornOldFile(fs: Fs, w: int, sector: int, h: Header, marks: set<int>, index: IntPlatter, contents: Table, s: int)
    requires FilesOk(fs) && IsSector(w) && GoodNews(fs, sector, h, marks, index) && s in fs.live
    ensures var fs' := Born(fs, w, sector, h, index, contents).(marks := marks);
            s != sector && FileOk(fs, s) && FileOk(fs', s) && OwnedBy(fs', s) == OwnedBy(fs, s)
  {
    assert FileOk(fs, s);
    IndexKept(fs, s, index);
  }

  lemma {:induction false} BornFiles(fs: Fs, w: int, sector: int, h: Header, marks: set<int>, index: IntPlatter, contents: Table)
    requires FilesOk(fs) && IsSector(w) && GoodNews(fs, sector, h, marks, index)
    ensures FilesOk(Born(fs, w, sector, h, index, contents).(marks := marks))
  {
    var fs' := Born(fs, w, sector, h, index, contents).(marks := marks);
    LiveMarked(fs);
    assert FileOk(fs', sector);
    forall s | s in fs'.live
      ensures FileOk(fs', s)
      ensures s != sector ==> OwnedBy(fs', s) <= fs.marks
    {
      if s != sector {
        BornOldFile(fs, w, sector, h, marks, index, contents, s);
      }
    }
    forall s, t | s in fs'.live && t in fs'.live && s != t
      ensures OwnedBy(fs', s) !! OwnedBy(fs', t)
    {
      if s != sector && t != sector {
        BornOldFile(fs, w, sector, h, marks, index, contents, s);
        BornOldFile(fs, w, sector, h, marks, index, contents, t);
      }
    }
  }

  lemma {:induction false} BornTree(fs: Fs, w: int, sector: int, h: Header, marks: set<int>, index: IntPlatter, contents: Table)
    requires Inv(fs) && IsSector(w) && IsSector(sector) && sector !in fs.live
    requires h.fileType == 0 || (h.fileType == 1 && h.numBytes >= TABLE_SIZE && contents == EmptyTable())
    ensures var fs' := Born(fs, w, sector, h, index, contents).(marks := marks);
            TreeOk(fs') && Unlisted(fs', sector)
  {
    var fs' := Born(fs, w, sector, h, index, contents).(marks := marks);
    forall e, i, s | Refers(fs', e, i, s)
      ensures Refers(fs, e, i, s) && s in fs.live
    {
      assert e != sector;
      assert TableOk(fs, e) && EntryOk(fs, e, i);
    }
    forall e | IsDirectory(fs', e)
      ensures TableOk(fs', e)
    {
      if e != sector {
        assert TableOk(fs, e);
        forall i | 0 <= i < NUM_DIR_ENTRIES
          ensures EntryOk(fs', e, i)
        {
          assert EntryOk(fs, e, i);
        }
      }
    }
  }

  /** Entering an unlisted file one level down in a directory. */
  lemma {:induction false} EntryAdded(fs: Fs, d: int, name: string, s: int)
    requires Inv(fs) && IsDirectory(fs, d) && CanAdd(fs.tables[d], name)
    requires IsFile(fs, s) && Unlisted(fs, s) && fs.depth[s] == fs.depth[d] + 1
    ensures Inv(fs.(tables := fs.tables[d := WithEntry(fs.tables[d], name, s)]))
  {
    OwnedMarked(fs);
    SameFiles(fs, fs.(tables := fs.tables[d := WithEntry(fs.tables[d], name, s)]));
    EntryAddedTree(fs, d, name, s);
  }

  lemma {:induction false} EntryAddedTree(fs: Fs, d: int, name: string, s: int)
    requires TreeOk(fs) && IsDirectory(fs, d) && CanAdd(fs.tables[d], name)
    requires IsFile(fs, s) && Unlisted(fs, s) && fs.depth[s] == fs.depth[d] + 1
    ensures TreeOk(fs.(tables := fs.tables[d := WithEntry(fs.tables[d], name, s)]))
  {
    var fs', f := fs.(tables := fs.tables[d := WithEntry(fs.tables[d], name, s)]), FreeSlot(fs.tables[d], 0);
    forall e | IsDirectory(fs', e)
      ensures TableOk(fs', e)
    {
      EntryAddedTable(fs, d, name, s, e);
    }
    forall e, i, t | Refers(fs', e, i, t)
      ensures if e == d && i == f then t == s else Refers(fs, e, i, t)
    {
    }
  }

  lemma {:induction false} EntryAddedTable(fs: Fs, d: int, name: string, s: int, e: int)
    requires TreeOk(fs) && IsDirectory(fs, d) && CanAdd(fs.tables[d], name) && IsDirectory(fs, e)
    requires IsFile(fs, s) && s != 1 && fs.depth[s] == fs.depth[d] + 1
    ensures TableOk(fs.(tables := fs.tables[d := WithEntry(fs.tables[d], name, s)]), e)
  {
    var fs' := fs.(tables := fs.tables[d := WithEntry(fs.tables[d], name, s)]);
    assert TableOk(fs, e) && TableOk(fs, d);
    AddThenFind(fs.tables[d], name, s, name);
    forall i | 0 <= i < NUM_DIR_ENTRIES
      ensures EntryOk(fs', e, i)
    {
      assert EntryOk(fs, e, i);
    }
  }

  /** What allocation gives Create. */
  lemma {:induction false} AllocatedNews(fs: Fs, sector: int, size: nat, kind: int32, blank: Header, junk: nat -> Slots)
    requires IsSector(sector) && sector !in fs.marks && |blank.primary| == NUM_DIRECT
    requires size < 0x8000_0000 && IndexCount(SectorCount(size)) <= NUM_DIRECT
    ensures var need := SectorCount(size) + IndexCount(SectorCount(size));
            var clear := ClearCount(fs.marks + {sector}, NUM_SECTORS);
            var (outcome, x) := AllocateResult(Image(fs.marks + {sector}, blank.primary, fs.index), size, junk);
            var h := NewHeader(blank, x.primary, size, kind);
            && (need <= clear ==> outcome == Allocated && GoodNews(fs, sector, h, x.marks, x.disk))
            && (need <= clear ==> ClearCount(x.marks, NUM_SECTORS) == clear - need)
            && (need > clear && outcome == Allocated ==> !Sound(h, x.disk))
            && (outcome == NoSpace <==> clear < SectorCount(size))
            && (outcome == Aborted <==> 0 < SectorCount(size) <= clear <= 33 * (IndexCount(SectorCount(size)) - 1))
            && (forall t {:trigger x.disk[t]} :: t in fs.marks && IsSector(t) ==> x.disk[t] == fs.index[t])
  {
    var image := Image(fs.marks + {sector}, blank.primary, fs.index);
    var (outcome, x) := AllocateResult(image, size, junk);
    var h := NewHeader(blank, x.primary, size, kind);
    AllocateMeaning(image, size, junk);
    AllocationSound(h, image, size, junk);
    OwnedLength(x.primary, x.disk, 0, SectorCount(size));
    SetOfIsElements(OwnedFrom(x.primary, x.disk, 0, SectorCount(size)));
  }

  // ---- Create as a whole ----

  lemma {:induction false} NoSectors(h: Header, v: IntPlatter)
    requires |h.primary| == NUM_DIRECT && h.numSectors == h.numBytes == 0
    ensures Sound(h, v) && Owned(h, v) == []
  {
    assert IndexCount(0) == 0;
  }

  /** Entering a new file in the table of an empty file: that file owns the new header's sector. */
  lemma {:induction false} EnteredInEmpty(born: Fs, w: int, table: Table, sector: int, marks: set<int>, junk: nat -> Slots)
    requires w in born.live && sector in born.live && w != sector
    requires Sound(born.headers[w], born.index) && born.headers[w].numSectors == 0
    requires sector == LowestClear(born.marks, NUM_SECTORS)
    ensures !Inv(Entered(born, w, table, sector, marks, junk))
  {
    var r, e := WrittenBack(born, w, table, junk), Entered(born, w, table, sector, marks, junk);
    WrittenIntoEmpty(born, w, table, junk);
    assert e.headers[w] == r.headers[w] && sector in OwnedBy(e, w) && sector in e.live;
    assert !FileOk(e, w);
  }

  /** A new directory without sectors owns its own header sector. */
  lemma {:induction false} TabledEmpty(born: Fs, sector: int, junk: nat -> Slots)
    requires IsSector(sector) && sector == LowestClear(born.marks, NUM_SECTORS)
    requires Sound(born.headers[sector], born.index) && born.headers[sector].numSectors == 0
    ensures var r := Tabled(born, sector, junk);
            && r == born.(headers := born.headers[sector := r.headers[sector]], index := r.index,
                          tables := born.tables[sector := EmptyTable()])
            && WellFormed(r.headers[sector]) && sector in OwnedBy(r, sector)
            && (forall t {:trigger r.index[t]} :: t in born.marks && IsSector(t) ==> r.index[t] == born.index[t])
  {
    WrittenIntoEmpty(born, sector, EmptyTable(), junk);
    var r := Tabled(born, sector, junk);
    IndexFirst(r.headers[sector], r.index);
    var q := WrittenBack(born, sector, EmptyTable(), junk);
    EmptyIndex(born, sector, junk);
  }

  lemma {:induction false} IndexFirst(h: Header, v: IntPlatter)
    requires WellFormed(h) && h.numSectors > 0
    ensures h.primary[0] as int in SetOf(Owned(h, v))
  {
    IndexPosition(h.primary, v, 0, h.numSectors, 0);
    SetOfIsElements(Owned(h, v));
  }

  lemma {:induction false} EmptyIndex(born: Fs, sector: int, junk: nat -> Slots)
    requires IsSector(sector) && sector == LowestClear(born.marks, NUM_SECTORS)
    requires Sound(born.headers[sector], born.index) && born.headers[sector].numSectors == 0
    ensures var g := WrittenBack(born, sector, EmptyTable(), junk).headers[sector];
            WellFormed(g) && g.numSectors == 1 && g.primary[0] == sector
  {
    TableSectors();
    var h := born.headers[sector];
    ExtendUnfolds(h, Image(born.marks, h.primary, born.index), TABLE_SIZE, 1, junk);
    ExtendEmpty(Image(born.marks, h.primary, born.index), junk);
  }

  /** Entering a new file in a table that has its place on disk. */
  lemma {:induction false} EnteredInPlace(fs: Fs, w: int, table: Table, name: string, sector: int, h: Header, marks: set<int>,
                                          index: IntPlatter, contents: Table, junk: nat -> Slots)
    requires Inv(fs) && IsFile(fs, w) && fs.headers[w].numSectors > 0 && (IsDirectory(fs, w) ==> table == fs.tables[w])
    requires CanAdd(table, name) && GoodNews(fs, sector, h, marks, index) && sector > 1
    requires h.fileType == 0 || (h.fileType == 1 && h.numBytes >= TABLE_SIZE && contents == EmptyTable())
    ensures Inv(Entered(Born(fs, w, sector, h, index, contents), w, WithEntry(table, name, sector), sector, marks, junk))
  {
    var born := Born(fs, w, sector, h, index, contents);
    var b := born.(marks := marks);
    LiveMarked(fs);
    BornFiles(fs, w, sector, h, marks, index, contents);
    BornTree(fs, w, sector, h, marks, index, contents);
    assert FileOk(b, w);
    WrittenInPlace(born, w, WithEntry(table, name, sector), junk);
    if IsDirectory(fs, w) {
      DirectorySectors(fs, w);
      assert b.headers[w := b.headers[w]] == b.headers;
      EntryAdded(b, w, name, sector);
    } else {
      PlainWrite(b, w, WithEntry(table, name, sector));
    }
  }

  /** Create answers yes with this much: the table in memory is that of the file w, which has sectors. */
  ghost predicate Yields(fs: Fs, w: int, size: nat, kind: int32)
    requires IsSector(w)
  {
    && 1 + SectorCount(size) + IndexCount(SectorCount(size)) <= ClearCount(fs.marks, NUM_SECTORS)
    && (kind == 1 ==> size > 0)
    && fs.headers[w].numSectors > 0
  }

  lemma {:induction false} SmallDirectory(h: Header, v: IntPlatter, size: nat)
    requires |h.primary| == NUM_DIRECT && 0 < size && h.numBytes == size && h.numSectors == SectorCount(size)
    requires IndexCount(h.numSectors) <= NUM_DIRECT
    ensures h.numSectors > 0 && (Sound(Longer(h), v) <==> Sound(h, v))
    ensures WellFormed(h) && WellFormed(Longer(h)) && Owned(Longer(h), v) == Owned(h, v)
  {
    SectorCountLeast(size, 0);
    SectorCountLeast(size, SectorCount(size));
  }

  /** The new directory with its table. */
  lemma {:induction false} TabledInPlace(fs: Fs, w: int, sector: int, h: Header, index: IntPlatter, contents: Table, junk: nat -> Slots)
    requires IsSector(w) && IsSector(sector) && h.numSectors > 0
    requires WellFormed(h) && 0 <= h.numBytes <= 128 * h.numSectors
    ensures Tabled(Born(fs, w, sector, h, index, contents), sector, junk) == Born(fs, w, sector, Longer(h), index, EmptyTable())
  {
    var born := Born(fs, w, sector, h, index, contents);
    TableSectors();
    ExtendUnfoldsShort(h, Image(born.marks, h.primary, index), junk);
    var r := Tabled(born, sector, junk);
    assert r.headers == fs.headers[sector := Longer(h)];
    assert r.tables == fs.tables[sector := EmptyTable()];
  }

  lemma {:induction false} ExtendUnfoldsShort(h: Header, x: Image, junk: nat -> Slots)
    requires WellFormed(h) && h.numSectors > 0 && 0 <= h.numBytes && |x.primary| == NUM_DIRECT
    ensures h.numBytes < TABLE_SIZE ==>
              && Extendable(h.numSectors, h.numBytes, TABLE_SIZE)
              && ExtendResult(h, x, TABLE_SIZE, junk) == (Allocated, Longer(h), x)
  {
    TableSectors();
    if h.numBytes < TABLE_SIZE {
      ExtendUnfolds(h, x, TABLE_SIZE, SectorCount(TABLE_SIZE - h.numBytes), junk);
    }
  }

  /** What Create works with once the allocation has succeeded. */
  ghost predicate Underway(fs: Fs, w: int, table: Table, name: string, sector: int, h: Header, index: IntPlatter) {
    && Inv(fs) && IsFile(fs, w) && (IsDirectory(fs, w) ==> table == fs.tables[w]) && CanAdd(table, name)
    && IsSector(sector) && sector == LowestClear(fs.marks, NUM_SECTORS) && sector > 1 && sector !in fs.live && sector !in fs.marks
    && WellFormed(h) && (h.fileType == 0 || h.fileType == 1)
    && (exists size: nat :: h.numBytes == size && h.numSectors == SectorCount(size))
    && (forall t {:trigger index[t]} :: t in fs.marks && IsSector(t) ==> index[t] == fs.index[t])
  }

  lemma {:induction false} NextSector(fs: Fs)
    requires Inv(fs) && LowestClear(fs.marks, NUM_SECTORS) != -1
    ensures var s := LowestClear(fs.marks, NUM_SECTORS); IsSector(s) && s !in fs.marks && s !in fs.live && s > 1
  {
    LowestClearMeaning(fs.marks, NUM_SECTORS);
    LiveMarked(fs);
  }

  /** Whatever went wrong with the new file is still wrong once it has been entered. */
  lemma {:induction false} EnteredElsewhere(born: Fs, w: int, table: Table, sector: int, marks: set<int>, junk: nat -> Slots)
    requires IsSector(w) && IsSector(sector) && w != sector
    requires Sound(born.headers[w], born.index) && born.headers[w].numSectors > 0
    ensures var r := Entered(born, w, table, sector, marks, junk);
            r.live == born.live && r.headers[sector] == born.headers[sector] && r.index == born.index
            && r.tables[w] == table && r.marks == marks
  {
    WrittenInPlace(born, w, table, junk);
  }

  /** A new file that is not usable, or owns a header sector. */
  lemma {:induction false} EnteredBroken(fs: Fs, born: Fs, w: int, table: Table, sector: int, marks: set<int>, junk: nat -> Slots)
    requires Inv(fs) && IsFile(fs, w) && fs.headers[w].numSectors > 0 && IsSector(sector) && w != sector
    requires born.headers[w] == fs.headers[w] && sector in born.live
    requires forall t {:trigger born.index[t]} :: t in fs.marks && IsSector(t) ==> born.index[t] == fs.index[t]
    requires Sound(born.headers[sector], born.index) ==> !(OwnedBy(born, sector) !! born.live)
    ensures !Inv(Entered(born, w, table, sector, marks, junk))
  {
    assert FileOk(fs, w);
    IndexKept(fs, w, born.index);
    EnteredElsewhere(born, w, table, sector, marks, junk);
    assert !FileOk(Entered(born, w, table, sector, marks, junk), sector);
  }

  /** The plain case: no table of its own. */
  lemma {:induction false} CreatePlain(fs: Fs, w: int, table: Table, name: string, sector: int, h: Header, marks: set<int>,
                                       index: IntPlatter, contents: Table, junk: nat -> Slots)
    requires Underway(fs, w, table, name, sector, h, index) && h.fileType == 0
    requires GoodNews(fs, sector, h, marks, index) || !Sound(h, index)
    ensures var fs' := Entered(Born(fs, w, sector, h, index, contents), w, WithEntry(table, name, sector), sector, marks, junk);
            Inv(fs') <==> Sound(h, index) && fs.headers[w].numSectors > 0
  {
    var born := Born(fs, w, sector, h, index, contents);
    assert FileOk(fs, w);
    if fs.headers[w].numSectors == 0 {
      NoSectors(fs.headers[w], index);
      EnteredInEmpty(born, w, WithEntry(table, name, sector), sector, marks, junk);
    } else if Sound(h, index) {
      EnteredInPlace(fs, w, table, name, sector, h, marks, index, contents, junk);
    } else {
      EnteredBroken(fs, born, w, WithEntry(table, name, sector), sector, marks, junk);
    }
  }

  /** A directory with room for its table. */
  lemma {:induction false} CreateDirectory(fs: Fs, w: int, table: Table, name: string, sector: int, h: Header, marks: set<int>,
                                           index: IntPlatter, contents: Table, junk: nat -> Slots)
    requires Underway(fs, w, table, name, sector, h, index) && h.fileType == 1 && h.numBytes > 0
    requires GoodNews(fs, sector, h, marks, index) || !Sound(h, index)
    ensures var fs' := Entered(Tabled(Born(fs, w, sector, h, index, contents), sector, junk), w, WithEntry(table, name, sector), sector, marks, junk);
            Inv(fs') <==> Sound(h, index) && fs.headers[w].numSectors > 0
  {
    var size: nat :| h.numBytes == size && h.numSectors == SectorCount(size);
    SmallDirectory(h, index, size);
    SectorCountLeast(size, SectorCount(size));
    TabledInPlace(fs, w, sector, h, index, contents, junk);
    var born := Born(fs, w, sector, Longer(h), index, EmptyTable());
    assert FileOk(fs, w);
    if fs.headers[w].numSectors == 0 {
      NoSectors(fs.headers[w], index);
      EnteredInEmpty(born, w, WithEntry(table, name, sector), sector, marks, junk);
    } else if Sound(h, index) {
      EnteredInPlace(fs, w, table, name, sector, Longer(h), marks, index, EmptyTable(), junk);
    } else {
      EnteredBroken(fs, born, w, WithEntry(table, name, sector), sector, marks, junk);
    }
  }

  /** A directory of no bytes. */
  lemma {:induction false} CreateEmptyDirectory(fs: Fs, w: int, table: Table, name: string, sector: int, h: Header, marks: set<int>,
                                                index: IntPlatter, contents: Table, junk: nat -> Slots)
    requires Underway(fs, w, table, name, sector, h, index) && h.fileType == 1 && h.numBytes == 0
    ensures var born := Tabled(Born(fs, w, sector, h, index, contents), sector, junk);
            && !Inv(Entered(born, w, WithEntry(table, name, sector), sector, marks, junk))
            && Inv(fs.(index := born.index))
            && (forall t {:trigger born.index[t]} :: t in fs.marks && IsSector(t) ==> born.index[t] == fs.index[t])
  {
    var size: nat :| h.numBytes == size && h.numSectors == SectorCount(size);
    assert h.numSectors == 0;
    NoSectors(h, index);
    TabledEmpty(Born(fs, w, sector, h, index, contents), sector, junk);
    var born := Tabled(Born(fs, w, sector, h, index, contents), sector, junk);
    IndexWritten(fs, born.index);
    assert FileOk(fs, w);
    if fs.headers[w].numSectors == 0 {
      NoSectors(fs.headers[w], born.index);
      EnteredInEmpty(born, w, WithEntry(table, name, sector), sector, marks, junk);
    } else {
      assert sector in OwnedBy(born, sector) && sector in born.live;
      EnteredBroken(fs, born, w, WithEntry(table, name, sector), sector, marks, junk);
    }
  }

  /** The name is there already, the table is full, or the header or the data have no room. */
  ghost predicate Denied(fs: Fs, table: Table, name: string, size: nat) {
    || (exists i :: Names(table, i, name))
    || (forall i :: 0 <= i < NUM_DIR_ENTRIES ==> table[i].inUse)
    || ClearCount(fs.marks, NUM_SECTORS) < 1 + SectorCount(size)
  }

  /** An ASSERT ends the kernel: there is no sector for the last index sector, though there are enough for
      the data; or a directory of no bytes is made at a time that is no sector's number. */
  ghost predicate Fatal(fs: Fs, size: nat, kind: int32, blank: Header) {
    || (size > 0 && ClearCount(fs.marks, NUM_SECTORS) - 1 <= 33 * (IndexCount(SectorCount(size)) - 1))
    || (kind == 1 && size == 0 && !IsSector(blank.createTime))
  }

  lemma {:induction false} CreateAnswers(fs: Fs, w: int, table: Table, name: string, size: nat, kind: int32, blank: Header, contents: Table,
                                         junk: nat -> Slots)
    requires Inv(fs) && IsSector(w) && |blank.primary| == NUM_DIRECT
    requires size < 0x8000_0000 && IndexCount(SectorCount(size)) <= NUM_DIRECT
    ensures var answer := Create(fs, w, table, name, size, kind, blank, contents, junk).0;
            && (answer == No <==> Denied(fs, table, name, size))
            && (answer == Stopped <==> !Denied(fs, table, name, size) && Fatal(fs, size, kind, blank))
  {
    var sector := LowestClear(fs.marks, NUM_SECTORS);
    assert CanAdd(table, name) <==> !(exists i :: Names(table, i, name)) && !(forall i :: 0 <= i < NUM_DIR_ENTRIES ==> table[i].inUse);
    FindTakesOne(fs.marks, NUM_SECTORS);
    SectorCountLeast(size, 0);
    if CanAdd(table, name) && sector != -1 {
      NextSector(fs);
      AllocatedNews(fs, sector, size, kind, blank, junk);
    }
  }

  /** Create.  It answers no exactly when it should, and changes nothing then.  When an ASSERT stops it,
      only sectors that nobody owns have been written.  What it answers yes to leaves the file system
      in order exactly when there was room for the header, the data and the index together, a directory
      was to have at least one byte, and the table in memory was read from a file that has sectors. */
  lemma {:induction false} CreateKeeps(fs: Fs, w: int, table: Table, name: string, size: nat, kind: int32, blank: Header, contents: Table,
                                       junk: nat -> Slots)
    requires Inv(fs) && IsFile(fs, w) && (IsDirectory(fs, w) ==> table == fs.tables[w])
    requires |blank.primary| == NUM_DIRECT && (kind == 0 || kind == 1)
    requires size < 0x8000_0000 && IndexCount(SectorCount(size)) <= NUM_DIRECT
    ensures var (answer, fs') := Create(fs, w, table, name, size, kind, blank, contents, junk);
            && (answer == No <==> Denied(fs, table, name, size))
            && (answer == Stopped <==> !Denied(fs, table, name, size) && Fatal(fs, size, kind, blank))
            && (answer == No ==> fs' == fs)
            && (answer == Stopped ==> Inv(fs') && fs' == fs.(index := fs'.index))
            && (answer == Stopped ==> forall t {:trigger fs'.index[t]} :: t in fs.marks && IsSector(t) ==> fs'.index[t] == fs.index[t])
            && (answer == Yes ==> (Inv(fs') <==> Yields(fs, w, size, kind)))
            && (Yields(fs, w, size, kind) && CanAdd(table, name) ==> answer == Yes)
  {
    CreateAnswers(fs, w, table, name, size, kind, blank, contents, junk);
    var sector := LowestClear(fs.marks, NUM_SECTORS);
    FindTakesOne(fs.marks, NUM_SECTORS);
    if CanAdd(table, name) && sector != -1 {
      NextSector(fs);
      AllocatedNews(fs, sector, size, kind, blank, junk);
      var (outcome, x) := AllocateResult(Image(fs.marks + {sector}, blank.primary, fs.index), size, junk);
      var h := NewHeader(blank, x.primary, size, kind);
      if outcome == Aborted {
        IndexWritten(fs, x.disk);
      } else if outcome == Allocated {
        assert Underway(fs, w, table, name, sector, h, x.disk);
        if kind == 0 {
          CreatePlain(fs, w, table, name, sector, h, x.marks, x.disk, contents, junk);
        } else if size > 0 {
          CreateDirectory(fs, w, table, name, sector, h, x.marks, x.disk, contents, junk);
        } else {
          CreateEmptyDirectory(fs, w, table, name, sector, h, x.marks, x.disk, contents, junk);
        }
      }
    }
  }

  /** The file system with the new file s in it, entered in the table of file w. */
  ghost predicate Made(fs: Fs, w: int, table: Table, s: int, h: Header, contents: Table, fs': Fs)
    requires IsSector(w)
  {
    && IsSector(s) && s !in fs.marks && s != w
    && fs'.live == fs.live + {s} && fs'.depth == fs.depth[s := fs.depth[w] + 1] && fs'.blend == fs.blend
    && fs'.tables == fs.tables[s := contents][w := table]
    && fs'.headers == fs.headers[s := h][w := Longer(fs.headers[w])]
    && (forall t {:trigger fs'.index[t]} :: t in fs.marks && IsSector(t) ==> fs'.index[t] == fs.index[t])
    && WellFormed(h) && OwnedBy(fs', s) !! fs.marks + {s} && fs'.marks == fs.marks + {s} + OwnedBy(fs', s)
  }

  /** Where a new file is found, and what it leaves alone. */
  lemma {:induction false} CreatedThere(fs: Fs, w: int, table: Table, name: string, size: nat, kind: int32, blank: Header, contents: Table,
                                        junk: nat -> Slots)
    requires Inv(fs) && IsFile(fs, w) && (IsDirectory(fs, w) ==> table == fs.tables[w]) && CanAdd(table, name)
    requires |blank.primary| == NUM_DIRECT && (kind == 0 || kind == 1)
    requires size < 0x8000_0000 && IndexCount(SectorCount(size)) <= NUM_DIRECT && Yields(fs, w, size, kind)
    ensures var (answer, fs') := Create(fs, w, table, name, size, kind, blank, contents, junk);
            var s := LowestClear(fs.marks, NUM_SECTORS);
            && answer == Yes && Inv(fs') && IsSector(s) && s !in fs.live && s > 1
            && Made(fs, w, WithEntry(table, name, s), s, fs'.headers[s], if kind == 1 then EmptyTable() else contents, fs')
            && SameTimes(fs'.headers[s], blank) && fs'.headers[s].fileType == kind
            && fs'.headers[s].numBytes == (if kind == 1 && size < TABLE_SIZE then TABLE_SIZE else size)
            && fs'.headers[s].numSectors == SectorCount(size)
            && ClearCount(fs'.marks, NUM_SECTORS)
               == ClearCount(fs.marks, NUM_SECTORS) - 1 - SectorCount(size) - IndexCount(SectorCount(size))
  {
    var (answer, fs') := Create(fs, w, table, name, size, kind, blank, contents, junk);
    assert answer == Yes && Inv(fs') by { CreateKeeps(fs, w, table, name, size, kind, blank, contents, junk); }
    var sector := LowestClear(fs.marks, NUM_SECTORS);
    FindTakesOne(fs.marks, NUM_SECTORS);
    assert IsSector(sector) && sector !in fs.marks && sector !in fs.live && sector > 1 by { NextSector(fs); }
    var (outcome, x) := AllocateResult(Image(fs.marks + {sector}, blank.primary, fs.index), size, junk);
    var h := NewHeader(blank, x.primary, size, kind);
    AllocatedNews(fs, sector, size, kind, blank, junk);
    if kind == 0 {
      EnteredThere(fs, w, WithEntry(table, name, sector), sector, h, x.marks, x.disk, contents, junk);
    } else {
      SmallDirectory(h, x.disk, size);
      TabledInPlace(fs, w, sector, h, x.disk, contents, junk);
      EnteredThere(fs, w, WithEntry(table, name, sector), sector, Longer(h), x.marks, x.disk, EmptyTable(), junk);
    }
  }

  /** Headers with the same visit count and times. */
  predicate SameTimes(h: Header, g: Header) {
    h.numVisits == g.numVisits && h.createTime == g.createTime && h.lastVisitTime == g.lastVisitTime && h.lastWriteTime == g.lastWriteTime
  }

  lemma {:induction false} EnteredThere(fs: Fs, w: int, table: Table, sector: int, h: Header, marks: set<int>, index: IntPlatter,
                                        contents: Table, junk: nat -> Slots)
    requires Inv(fs) && IsFile(fs, w) && fs.headers[w].numSectors > 0 && GoodNews(fs, sector, h, marks, index)
    ensures Made(fs, w, table, sector, h, contents, Entered(Born(fs, w, sector, h, index, contents), w, table, sector, marks, junk))
  {
    LiveMarked(fs);
    var born := Born(fs, w, sector, h, index, contents);
    assert FileOk(fs, w);
    IndexKept(fs, w, index);
    WrittenInPlace(born, w, table, junk);
    var r := Entered(born, w, table, sector, marks, junk);
    assert r.headers == fs.headers[sector := h][w := Longer(fs.headers[w])];
  }
}
