/** States that the file system reaches from a format and in which an operation breaks it. */
module FileFaults {
  import opened Arith
  import opened BitMaps
  import opened Codec
  import opened Disks
  import opened FileIndex
  import opened FileHeaders
  import opened Directories
  import opened FileTrees
  import opened FileCreation
  import opened FileRemoval
  import opened FileClearing
  import opened FileSystems

  /** A table with at most one entry in use takes another name. */
  lemma {:induction false} SecondName(a: string, s: int, b: string)
    requires a != b
    ensures CanAdd(EmptyTable(), a) && CanAdd(WithEntry(EmptyTable(), a, s), b)
    ensures NamesUnique(EmptyTable()) && NamesUnique(WithEntry(EmptyTable(), a, s))
    ensures Lookup(WithEntry(EmptyTable(), a, s), a) == s
  {
    var e: Table := EmptyTable();
    assert !e[0].inUse;
    AddThenFind(e, a, s, a);
    AddThenFind(e, a, s, b);
    var t, f := WithEntry(e, a, s), FreeSlot(e, 0);
    assert !t[if f == 0 then 1 else 0].inUse;
    forall j
      ensures !Names(t, j, b)
    {
    }
  }

  /** The new file with its name and what was there before. */
  ghost predicate Added(fs: Fs, d: int, name: string, kind: int32, visits: int32, s: int, fs': Fs)
    requires IsSector(d)
  {
    && Inv(fs') && IsSector(s) && s !in fs.live && s > 1 && fs'.live == fs.live + {s} && d in fs.live
    && CanAdd(fs.tables[d], name) && fs'.tables[d] == WithEntry(fs.tables[d], name, s)
    && (forall t {:trigger fs'.tables[t]} :: t in fs.live && t != d ==> fs'.tables[t] == fs.tables[t])
    && (forall t {:trigger fs'.headers[t]} :: t in fs.live ==> fs'.headers[t] == fs.headers[t])
    && fs'.depth == fs.depth[s := fs.depth[d] + 1]
    && (kind == 1 ==> fs'.tables[s] == EmptyTable()) && (kind == 0 ==> fs'.headers[s].numBytes == fs'.headers[s].numSectors == 0)
    && fs'.headers[s].fileType == kind && fs'.headers[s].numVisits == visits
    && ClearCount(fs'.marks, NUM_SECTORS) >= ClearCount(fs.marks, NUM_SECTORS) - 3
  }

  lemma {:induction false} RunOne(fs: Fs, op: Op, e: Fs)
    requires Allowed(fs, op) && e == Done(fs, op)
    ensures Runs(fs, [op], e)
  {
    assert [op][1..] == [];
  }

  /** One run after another. */
  lemma {:induction false} RunsOn(fs: Fs, ops: seq<Op>, mid: Fs, more: seq<Op>, e: Fs)
    requires Runs(fs, ops, mid) && Runs(mid, more, e)
    ensures Runs(fs, ops + more, e)
    decreases |ops|
  {
    if ops == [] {
      assert ops + more == more;
    } else {
      RunsOn(Done(fs, ops[0]), ops[1..], mid, more, e);
      Regrouped(ops, more);
      FirstOp(fs, ops[0], ops[1..] + more, e);
    }
  }

  lemma {:induction false} Regrouped(ops: seq<Op>, more: seq<Op>)
    requires ops != []
    ensures [ops[0]] + (ops[1..] + more) == ops + more
  {
  }

  lemma {:induction false} FirstOp(fs: Fs, op: Op, rest: seq<Op>, e: Fs)
    requires Allowed(fs, op) && Runs(Done(fs, op), rest, e)
    ensures Runs(fs, [op] + rest, e)
  {
    assert ([op] + rest)[1..] == rest;
  }

  /** The operation that makes a plain file of no bytes, or a directory. */
  function Making(path: seq<string>, kind: int32, blank: Header, contents: Table, junk: nat -> Slots): Op {
    MakeFile(path, if kind == 1 then TABLE_SIZE else 0, kind, blank, contents, junk)
  }

  lemma {:induction false} Make(fs: Fs, path: seq<string>, d: int, kind: int32, blank: Header, contents: Table, junk: nat -> Slots)
      returns (s: int, fs': Fs)
    requires Inv(fs) && path != [] && IsDirectory(fs, d) && Resolve(fs, path) == At(d, fs.tables[d]) && CanAdd(fs.tables[d], Last(path))
    requires |blank.primary| == NUM_DIRECT && (kind == 0 || kind == 1) && ClearCount(fs.marks, NUM_SECTORS) >= 3
    ensures Runs(fs, [Making(path, kind, blank, contents, junk)], fs')
    ensures Added(fs, d, Last(path), kind, blank.numVisits, s, fs')
  {
    TableSectors();
    var size := if kind == 1 then TABLE_SIZE else 0;
    DirectorySectors(fs, d);
    CreatedThere(fs, d, fs.tables[d], Last(path), size, kind, blank, contents, junk);
    s := LowestClear(fs.marks, NUM_SECTORS);
    fs' := Create(fs, d, fs.tables[d], Last(path), size, kind, blank, contents, junk).1;
    RunOne(fs, Making(path, kind, blank, contents, junk), fs');
  }

  /** Opening a file of the root directory. */
  lemma {:induction false} OpenInRoot(fs: Fs, name: string, s: int) returns (e: Fs)
    requires Inv(fs) && s == Lookup(fs.tables[1], name) && s != -1
    ensures Runs(fs, [OpenFile(["root", name])], e) && Inv(e) && IsFile(fs, s)
    ensures e == Visits(fs, s, MoreOne(fs.headers[s].numVisits))
  {
    Found(fs, 1, name);
    RootPath(fs, "root", name);
    e := Opened(fs, ["root", name]);
    OpenKeeps(fs, ["root", name]);
    RunOne(fs, OpenFile(["root", name]), e);
  }

  lemma RootPath(fs: Fs, skip: string, name: string)
    ensures Resolve(fs, [skip, name]) == At(1, fs.tables[1]) && Last([skip, name]) == name
  {
    assert Inner([skip, name]) == [];
  }

  // ---- A path through a plain file ----

  /** A plain file of no bytes among the inner names of a path leaves the table of its directory in
      memory: the file found there is listed by that directory, and goes. */
  lemma {:induction false} ThroughEmptyFile(fs: Fs, skip: string, f: string, x: string, levels: nat, junk: nat -> Slots)
    requires Inv(fs) && levels > 0
    requires var w, s := Lookup(fs.tables[1], f), Lookup(fs.tables[1], x);
             && w != -1 && IsFile(fs, w) && fs.headers[w].fileType == 0 && fs.headers[w].numBytes == 0
             && s != -1 && IsFile(fs, s) && fs.headers[s].fileType == 0 && fs.headers[s].numVisits == 1
    ensures var path := [skip, f, x];
            && !Strays(fs, path) && Target(fs, path) == Lookup(fs.tables[1], x)
            && RemovePath(fs, path, levels, junk).0 == Yes && !Inv(RemovePath(fs, path, levels, junk).1)
  {
    var path := [skip, f, x];
    var w, s := Lookup(fs.tables[1], f), Lookup(fs.tables[1], x);
    assert Inner(path) == [f] && Last(path) == x;
    assert [f][1..] == [];
    assert Follow(fs, w, fs.tables[1], []) == At(w, fs.tables[1]);
    assert Resolve(fs, path) == At(w, fs.tables[1]);
    Found(fs, 1, x);
    RemoveKeeps(fs, path, w, fs.tables[1], s, levels, junk);
  }

  /** After a format, the creation of f and x, both of no bytes, and one Open of x, the removal of
      "root/f/x" takes x away and leaves its entry in the root directory. */
  lemma {:induction false} PathThroughFileBreaks(raw: Raw, blank: Header, contents: Table, junk: nat -> Slots, levels: nat)
      returns (ops: seq<Op>, e: Fs)
    requires Whole(raw) && |blank.primary| == NUM_DIRECT && blank.numVisits == 0 && levels > 0
    ensures Runs(Formatted(raw), ops, e) && Inv(e)
    ensures !Strays(e, ["root", "f", "x"]) && !Inv(RemovePath(e, ["root", "f", "x"], levels, junk).1)
  {
    FormatInv(raw);
    var fs0 := Formatted(raw);
    SecondName("f", 2, "x");
    RootPath(fs0, "root", "f");
    var f, fs1 := Make(fs0, ["root", "f"], 1, 0, blank, contents, junk);
    SecondName("f", f, "x");
    RootPath(fs1, "root", "x");
    var x, fs2 := Make(fs1, ["root", "x"], 1, 0, blank, contents, junk);
    AddThenFind(fs1.tables[1], "x", x, "x");
    AddThenFind(fs1.tables[1], "x", x, "f");
    e := OpenInRoot(fs2, "x", x);
    ThroughEmptyFile(e, "root", "f", "x", levels, junk);
    var first, second := Making(["root", "f"], 0, blank, contents, junk), Making(["root", "x"], 0, blank, contents, junk);
    RunsOn(fs0, [first], fs1, [second], fs2);
    RunsOn(fs0, [first] + [second], fs2, [OpenFile(["root", "x"])], e);
    ops := [first] + [second] + [OpenFile(["root", "x"])];
  }

  /** Creating a file by such a path makes the empty file own the new file's header sector. */
  lemma {:induction false} CreateThroughFileBreaks(raw: Raw, blank: Header, contents: Table, junk: nat -> Slots) returns (ops: seq<Op>, e: Fs)
    requires Whole(raw) && |blank.primary| == NUM_DIRECT
    ensures Runs(Formatted(raw), ops, e) && Inv(e) && SectorCount(0) == IndexCount(0) == 0
    ensures var way := Resolve(e, ["root", "f", "y"]);
            && way.At? && IsSector(way.file)
            && Create(e, way.file, way.table, "y", 0, 0, blank, contents, junk).0 == Yes
            && !Inv(Create(e, way.file, way.table, "y", 0, 0, blank, contents, junk).1)
  {
    FormatInv(raw);
    var fs0 := Formatted(raw);
    SecondName("f", 2, "y");
    RootPath(fs0, "root", "f");
    var f;
    f, e := Make(fs0, ["root", "f"], 1, 0, blank, contents, junk);
    SecondName("f", f, "y");
    ops := [Making(["root", "f"], 0, blank, contents, junk)];
    CreateThroughEmptyFile(e, f, blank, contents, junk);
  }

  lemma {:induction false} CreateThroughEmptyFile(fs: Fs, f: int, blank: Header, contents: Table, junk: nat -> Slots)
    requires Inv(fs) && f == Lookup(fs.tables[1], "f") && IsFile(fs, f) && fs.headers[f].fileType == 0 && fs.headers[f].numBytes == 0
    requires |blank.primary| == NUM_DIRECT && CanAdd(fs.tables[1], "y") && ClearCount(fs.marks, NUM_SECTORS) > 0
    requires fs.headers[f].numSectors == 0
    ensures Resolve(fs, ["root", "f", "y"]) == At(f, fs.tables[1]) && SectorCount(0) == IndexCount(0) == 0
    ensures var (answer, fs') := Create(fs, f, fs.tables[1], "y", 0, 0, blank, contents, junk);
            answer == Yes && !Inv(fs')
  {
    assert Inner(["root", "f", "y"]) == ["f"] && ["f"][1..] == [];
    assert Follow(fs, f, fs.tables[1], []) == At(f, fs.tables[1]);
    EnteredYes(fs, f, fs.tables[1], "y", blank, contents, junk);
    CreateKeeps(fs, f, fs.tables[1], "y", 0, 0, blank, contents, junk);
  }

  /** A plain file of no bytes is refused for want of a name, an entry or a header sector only. */
  lemma {:induction false} EnteredYes(fs: Fs, w: int, table: Table, name: string, blank: Header, contents: Table, junk: nat -> Slots)
    requires IsSector(w) && |blank.primary| == NUM_DIRECT && CanAdd(table, name) && ClearCount(fs.marks, NUM_SECTORS) > 0
    ensures SectorCount(0) == IndexCount(0) == 0 && Create(fs, w, table, name, 0, 0, blank, contents, junk).0 == Yes
  {
    TableSectors();
    FindTakesOne(fs.marks, NUM_SECTORS);
  }

  // ---- A directory by its bare name ----

  /** Directory a with a file c in it, and another file c, visited once, in the root directory. */
  ghost predicate TwoNamed(fs: Fs) {
    var a, c := Lookup(fs.tables[1], "a"), Lookup(fs.tables[1], "c");
    && IsDirectory(fs, a) && (exists j :: Names(fs.tables[a], j, "c")) && IndexOf(fs.tables[a], "a") == -1
    && IsFile(fs, c) && Leaves(fs, c)
  }

  /** Removing directory a by its bare name removes the root's c and leaves its entry behind. */
  lemma {:induction false} TwoNamedBreaks(fs: Fs, levels: nat, junk: nat -> Slots)
    requires Inv(fs) && TwoNamed(fs) && Covers(fs, levels)
    ensures RemovePath(fs, ["a"], levels, junk).0 == Yes && !Inv(RemovePath(fs, ["a"], levels, junk).1)
  {
    var a := Lookup(fs.tables[1], "a");
    var j :| Names(fs.tables[a], j, "c");
    assert Goes(fs, fs.tables[a][j].name);
    OneComponent(fs, "a", levels, junk);
  }

  /** A file in directory a. */
  lemma {:induction false} InDirectory(fs: Fs, a: int, name: string)
    requires Inv(fs) && Lookup(fs.tables[1], "a") == a && IsDirectory(fs, a)
    ensures Resolve(fs, ["root", "a", name]) == At(a, fs.tables[a]) && Last(["root", "a", name]) == name
  {
    assert Inner(["root", "a", name]) == ["a"] && ["a"][1..] == [];
    assert TableOk(fs, a);
    assert Follow(fs, a, fs.tables[a], []) == At(a, fs.tables[a]);
  }

  /** Directory a and file c in the root directory, and nothing else. */
  ghost predicate JustTwo(fs: Fs, a: int, c: int) {
    && Lookup(fs.tables[1], "a") == a && IsDirectory(fs, a) && fs.tables[a] == EmptyTable() && c != a && c != 1 && a != 1
    && Lookup(fs.tables[1], "c") == c && IsFile(fs, c) && fs.headers[c].fileType == 0 && fs.headers[c].numVisits == 0
    && fs.live == {0, 1, a, c} && fs.depth[1] == 0 && fs.depth[a] == 1
  }

  lemma {:induction false} JustTwoNow(fs0: Fs, a: int, fs1: Fs, c: int, fs2: Fs)
    requires fs0.tables[1] == EmptyTable() && fs0.live == {0, 1} && fs0.depth[1] == 0
    requires Added(fs0, 1, "a", 1, 0, a, fs1) && Added(fs1, 1, "c", 0, 0, c, fs2)
    ensures JustTwo(fs2, a, c)
  {
    SecondName("a", a, "c");
    AddThenFind(fs1.tables[1], "c", c, "a");
    AddThenFind(fs1.tables[1], "c", c, "c");
  }

  /** Making both. */
  lemma {:induction false} TwoInRoot(fs0: Fs, blank: Header, contents: Table, junk: nat -> Slots) returns (ops: seq<Op>, a: int, c: int, fs2: Fs)
    requires Inv(fs0) && fs0.tables[1] == EmptyTable() && ClearCount(fs0.marks, NUM_SECTORS) == 1018 && |blank.primary| == NUM_DIRECT
    requires fs0.live == {0, 1} && fs0.depth[1] == 0 && blank.numVisits == 0
    ensures Runs(fs0, ops, fs2) && Inv(fs2) && ClearCount(fs2.marks, NUM_SECTORS) >= 1012 && JustTwo(fs2, a, c)
  {
    SecondName("a", 2, "c");
    RootPath(fs0, "root", "a");
    var fs1;
    a, fs1 := Make(fs0, ["root", "a"], 1, 1, blank, contents, junk);
    SecondName("a", a, "c");
    RootPath(fs1, "root", "c");
    c, fs2 := Make(fs1, ["root", "c"], 1, 0, blank, contents, junk);
    JustTwoNow(fs0, a, fs1, c, fs2);
    var first, second := Making(["root", "a"], 1, blank, contents, junk), Making(["root", "c"], 0, blank, contents, junk);
    RunsOn(fs0, [first], fs1, [second], fs2);
    ops := [first] + [second];
  }

  lemma {:induction false} TwoNamedNow(fs2: Fs, a: int, c: int, b: int, fs3: Fs)
    requires Inv(fs2) && JustTwo(fs2, a, c) && Added(fs2, a, "c", 0, 0, b, fs3)
    ensures var e := Visits(fs3, c, 1); TwoNamed(e) && Covers(e, 2)
    ensures Lookup(fs3.tables[1], "c") == c && fs3.headers[c].numVisits == 0
  {
    var e := Visits(fs3, c, 1);
    SecondName("c", b, "a");
    assert fs3.tables[1] == fs2.tables[1] && fs3.headers[c] == fs2.headers[c] && fs3.headers[a] == fs2.headers[a];
    assert Names(e.tables[a], IndexOf(e.tables[a], "c"), "c");
  }

  /** The same with a file c in a, and the root's c opened once. */
  lemma {:induction false} TwoNamedMade(fs2: Fs, a: int, c: int, blank: Header, contents: Table, junk: nat -> Slots) returns (ops: seq<Op>, e: Fs)
    requires Inv(fs2) && ClearCount(fs2.marks, NUM_SECTORS) >= 1012 && |blank.primary| == NUM_DIRECT && blank.numVisits == 0
    requires JustTwo(fs2, a, c)
    ensures Runs(fs2, ops, e) && Inv(e) && TwoNamed(e) && Covers(e, 2)
  {
    InDirectory(fs2, a, "c");
    SecondName("c", 2, "a");
    var b, fs3 := Make(fs2, ["root", "a", "c"], a, 0, blank, contents, junk);
    TwoNamedNow(fs2, a, c, b, fs3);
    e := OpenInRoot(fs3, "c", c);
    var third := Making(["root", "a", "c"], 0, blank, contents, junk);
    RunsOn(fs2, [third], fs3, [OpenFile(["root", "c"])], e);
    ops := [third] + [OpenFile(["root", "c"])];
  }

  /** After a format, the creation of directory a, of c and of a/c, and one Open of c, the removal of "a"
      takes the root's c away and leaves its entry behind. */
  lemma {:induction false} BareNameBreaks(raw: Raw, blank: Header, contents: Table, junk: nat -> Slots) returns (ops: seq<Op>, e: Fs)
    requires Whole(raw) && |blank.primary| == NUM_DIRECT && blank.numVisits == 0
    ensures Runs(Formatted(raw), ops, e) && Inv(e) && Covers(e, 2)
    ensures RemovePath(e, ["a"], 2, junk).0 == Yes && !Inv(RemovePath(e, ["a"], 2, junk).1)
  {
    FormatInv(raw);
    var before, a, c, fs2 := TwoInRoot(Formatted(raw), blank, contents, junk);
    var after;
    after, e := TwoNamedMade(fs2, a, c, blank, contents, junk);
    TwoNamedBreaks(e, 2, junk);
    RunsOn(Formatted(raw), before, fs2, after, e);
    ops := before + after;
  }

  // ---- A file that outlives its directory ----

  /** Directory a with file c in it, and nothing else. */
  ghost predicate OneInside(fs: Fs, a: int, c: int) {
    && IsDirectory(fs, a) && a != 1 && Lookup(fs.tables[1], "a") == a
    && IsFile(fs, c) && c != a && c != 1 && Lookup(fs.tables[a], "c") == c && fs.headers[c].fileType == 0 && fs.headers[c].numVisits == 0
    && fs.live == {0, 1, a, c} && fs.depth[1] == 0 && fs.depth[a] == 1
  }

  lemma {:induction false} OneInsideNow(fs0: Fs, a: int, fs1: Fs, c: int, fs2: Fs)
    requires fs0.tables[1] == EmptyTable() && fs0.live == {0, 1} && fs0.depth[1] == 0
    requires Added(fs0, 1, "a", 1, 0, a, fs1) && Added(fs1, a, "c", 0, 0, c, fs2)
    ensures OneInside(fs2, a, c)
  {
    SecondName("a", a, "c");
    SecondName("c", c, "a");
    assert fs2.tables[1] == fs1.tables[1] && fs2.headers[a] == fs1.headers[a];
  }

  /** Removing directory a leaves c where it is, with its sectors and in no directory. */
  lemma {:induction false} InsideStays(fs: Fs, a: int, c: int, junk: nat -> Slots)
    requires Inv(fs) && OneInside(fs, a, c)
    ensures var (answer, fs') := RemovePath(fs, ["root", "a"], 2, junk);
            answer == Yes && Inv(fs') && a !in fs'.live && c in fs'.live && c in fs'.marks && Unlisted(fs', c)
  {
    var path := ["root", "a"];
    RootPath(fs, "root", "a");
    Found(fs, 1, "a");
    assert Inner(path) == [];
    assert Leads(fs, path, 1, fs.tables[1], a);
    assert Covers(fs, 2);
    SubtreeMeaning(fs, a, 2);
    var files := Subtree(fs, a, 2);
    Found(fs, a, "c");
    assert c in files;
    RemoveKeeps(fs, path, 1, fs.tables[1], a, 2, junk);
    LeftBehind(fs, path, 1, a, files, 2, junk, c);
    LeftBehind(fs, path, 1, a, files, 2, junk, a);
  }

  /** After a format and the creation of directory a and of a/c, which is never opened, the removal of
      "root/a" succeeds and c is lost: it is live, and its header sector marked, in no directory. */
  lemma {:induction false} OrphanStays(raw: Raw, blank: Header, contents: Table, junk: nat -> Slots) returns (ops: seq<Op>, e: Fs, c: int)
    requires Whole(raw) && |blank.primary| == NUM_DIRECT && blank.numVisits == 0
    ensures Runs(Formatted(raw), ops, e) && Inv(e)
    ensures var (answer, fs') := RemovePath(e, ["root", "a"], 2, junk);
            answer == Yes && Inv(fs') && c in fs'.live && c in fs'.marks && Unlisted(fs', c)
  {
    FormatInv(raw);
    var fs0 := Formatted(raw);
    SecondName("a", 2, "c");
    SecondName("c", 2, "a");
    RootPath(fs0, "root", "a");
    var a, fs1 := Make(fs0, ["root", "a"], 1, 1, blank, contents, junk);
    AddThenFind(fs0.tables[1], "a", a, "a");
    InDirectory(fs1, a, "c");
    c, e := Make(fs1, ["root", "a", "c"], a, 0, blank, contents, junk);
    OneInsideNow(fs0, a, fs1, c, e);
    InsideStays(e, a, c, junk);
    var first, second := Making(["root", "a"], 1, blank, contents, junk), Making(["root", "a", "c"], 0, blank, contents, junk);
    RunsOn(fs0, [first], fs1, [second], e);
    ops := [first] + [second];
  }

  // ---- A directory of no bytes ----

  /** Creating a directory of no bytes, wherever there is a header sector and an entry for it: the kernel
      is stopped, unless the clock passes for a sector number, and then the new directory's index sector
      is its own header. */
  lemma {:induction false} EmptyDirectoryBreaks(fs: Fs, w: int, table: Table, name: string, blank: Header, contents: Table, junk: nat -> Slots)
    requires Inv(fs) && IsFile(fs, w) && (IsDirectory(fs, w) ==> table == fs.tables[w])
    requires |blank.primary| == NUM_DIRECT && CanAdd(table, name) && ClearCount(fs.marks, NUM_SECTORS) > 0
    ensures SectorCount(0) == IndexCount(0) == 0
    ensures var (answer, fs') := Create(fs, w, table, name, 0, 1, blank, contents, junk);
            if IsSector(blank.createTime) then answer == Yes && !Inv(fs') else answer == Stopped
  {
    TableSectors();
    FindTakesOne(fs.marks, NUM_SECTORS);
    CreateKeeps(fs, w, table, name, 0, 1, blank, contents, junk);
  }
}
