/** What FileSystem::Remove takes away and what it leaves: the files below a directory, their sectors and
    their visit counts. */
module FileClearing {
  import opened Arith
  import opened BitMaps
  import opened Codec
  import opened Disks
  import opened FileIndex
  import opened FileHeaders
  import opened Directories
  import opened FileTrees
  import opened FileCreation
  import opened FileRemoval

  // ---- The files below a file ----

  /** File s and the files below it, down to n levels. */
  ghost function Subtree(fs: Fs, s: int, n: nat): set<int>
    decreases n, 0, 0
  {
    if n == 0 || !IsDirectory(fs, s) then {s} else {s} + Forest(fs, s, fs.tables[s], 0, n - 1)
  }

  /** The subtrees of the files that directory d lists under the names of a table from entry i on. */
  ghost function Forest(fs: Fs, d: int, table: Table, i: nat, n: nat): set<int>
    requires IsSector(d) && i <= NUM_DIR_ENTRIES
    decreases n, 1, NUM_DIR_ENTRIES - i
  {
    if i == NUM_DIR_ENTRIES then {} else Branch(fs, d, table[i], n) + Forest(fs, d, table, i + 1, n)
  }

  ghost function Branch(fs: Fs, d: int, entry: Entry, n: nat): set<int>
    requires IsSector(d)
    decreases n, 0, 1
  {
    var c := Lookup(fs.tables[d], entry.name);
    if entry.inUse && IsFile(fs, c) then Subtree(fs, c, n) else {}
  }

  /** A directory in the set lists the file. */
  ghost predicate ListedIn(fs: Fs, files: set<int>, t: int) {
    exists d, i :: d in files && Refers(fs, d, i, t)
  }

  /** The set has the files that its directories list. */
  ghost predicate Closed(fs: Fs, files: set<int>) {
    forall d, i, t :: d in files && Refers(fs, d, i, t) ==> t in files
  }

  /** File s, and what directories list below it: nothing else, and all of it. */
  ghost predicate IsSubtree(fs: Fs, s: int, files: set<int>) {
    && s in files && Closed(fs, files)
    && forall t {:trigger t in files} :: t in files ==> IsFile(fs, t) && (t != s ==> ListedIn(fs, files, t))
  }

  /** The files are live and deeper than d. */
  ghost predicate Deeper(fs: Fs, d: int, files: set<int>)
    requires IsSector(d)
  {
    forall t {:trigger t in files} :: t in files ==> IsFile(fs, t) && fs.depth[t] > fs.depth[d]
  }

  /** One of the names of a table from entry i on stands for this file in directory d. */
  ghost predicate NamedBy(fs: Fs, d: int, table: Table, i: nat, t: int)
    requires IsSector(d)
  {
    exists j :: i <= j < NUM_DIR_ENTRIES && table[j].inUse && Lookup(fs.tables[d], table[j].name) == t
  }

  ghost predicate IsForest(fs: Fs, d: int, table: Table, i: nat, files: set<int>)
    requires IsSector(d)
  {
    && Deeper(fs, d, files) && Closed(fs, files)
    && (forall t {:trigger t in files} :: t in files ==> NamedBy(fs, d, table, i, t) || ListedIn(fs, files, t))
    && (forall t {:trigger NamedBy(fs, d, table, i, t)} :: NamedBy(fs, d, table, i, t) && t != -1 ==> t in files)
  }

  /** The levels reach below every directory. */
  ghost predicate Reaches(fs: Fs, d: int, n: nat)
    requires IsSector(d)
  {
    NoDeeper(fs, fs.depth[d] + n)
  }

  lemma {:induction false} EntryLookup(table: Table, j: nat)
    requires NamesUnique(table) && j < NUM_DIR_ENTRIES && table[j].inUse
    ensures Lookup(table, table[j].name) == table[j].sector
  {
    assert Names(table, j, table[j].name);
    var i := IndexOf(table, table[j].name);
    assert Names(table, i, table[j].name);
  }

  /** A directory's own table names what the directory lists. */
  lemma {:induction false} OwnNames(fs: Fs, d: int, t: int)
    requires Inv(fs) && IsDirectory(fs, d) && t != -1
    ensures NamedBy(fs, d, fs.tables[d], 0, t) <==> exists i :: Refers(fs, d, i, t)
  {
    assert TableOk(fs, d);
    forall j | 0 <= j < NUM_DIR_ENTRIES && fs.tables[d][j].inUse
      ensures Lookup(fs.tables[d], fs.tables[d][j].name) == fs.tables[d][j].sector
    {
      EntryLookup(fs.tables[d], j);
    }
    if j :| 0 <= j < NUM_DIR_ENTRIES && fs.tables[d][j].inUse && Lookup(fs.tables[d], fs.tables[d][j].name) == t {
      assert Refers(fs, d, j, t);
    }
    if i :| Refers(fs, d, i, t) {
      assert NamedBy(fs, d, fs.tables[d], 0, t);
    }
  }

  lemma {:induction false} SubtreeMeaning(fs: Fs, s: int, n: nat)
    requires Inv(fs) && IsFile(fs, s) && (IsDirectory(fs, s) ==> n > 0 && Reaches(fs, s, n - 1))
    ensures IsSubtree(fs, s, Subtree(fs, s, n))
    ensures forall t {:trigger t in Subtree(fs, s, n)} :: t in Subtree(fs, s, n) && t != s ==> fs.depth[t] > fs.depth[s]
    decreases n, 0, 0
  {
    if IsDirectory(fs, s) {
      ForestMeaning(fs, s, fs.tables[s], 0, n - 1);
      SubtreeOfForest(fs, s, Forest(fs, s, fs.tables[s], 0, n - 1));
    } else {
      assert forall i, t :: !Refers(fs, s, i, t);
    }
  }

  lemma {:induction false} SubtreeOfForest(fs: Fs, s: int, files: set<int>)
    requires Inv(fs) && IsDirectory(fs, s) && IsForest(fs, s, fs.tables[s], 0, files)
    ensures IsSubtree(fs, s, {s} + files)
  {
    forall t | t in files
      ensures ListedIn(fs, {s} + files, t)
    {
      if ListedIn(fs, files, t) {
        var d, i :| d in files && Refers(fs, d, i, t);
        assert d in {s} + files && Refers(fs, d, i, t);
      } else {
        OwnNames(fs, s, t);
        var i :| Refers(fs, s, i, t);
        assert s in {s} + files && Refers(fs, s, i, t);
      }
    }
    forall d, i, t | d in {s} + files && Refers(fs, d, i, t)
      ensures t in {s} + files
    {
      if d == s {
        ListedHigher(fs, d, i, t);
        OwnNames(fs, s, t);
      }
    }
  }

  lemma {:induction false} BranchMeaning(fs: Fs, d: int, entry: Entry, n: nat)
    requires Inv(fs) && IsDirectory(fs, d) && Reaches(fs, d, n)
    ensures var c := Lookup(fs.tables[d], entry.name);
            if entry.inUse && c != -1 then IsFile(fs, c) && IsSubtree(fs, c, Branch(fs, d, entry, n)) else Branch(fs, d, entry, n) == {}
    ensures Deeper(fs, d, Branch(fs, d, entry, n))
    decreases n, 0, 1
  {
    var c := Lookup(fs.tables[d], entry.name);
    if entry.inUse && c != -1 {
      Found(fs, d, entry.name);
      SubtreeMeaning(fs, c, n);
    }
  }

  lemma {:induction false} ForestMeaning(fs: Fs, d: int, table: Table, i: nat, n: nat)
    requires Inv(fs) && IsDirectory(fs, d) && Reaches(fs, d, n) && i <= NUM_DIR_ENTRIES
    ensures IsForest(fs, d, table, i, Forest(fs, d, table, i, n))
    decreases n, 1, NUM_DIR_ENTRIES - i
  {
    if i < NUM_DIR_ENTRIES {
      BranchMeaning(fs, d, table[i], n);
      ForestMeaning(fs, d, table, i + 1, n);
      OneMoreBranch(fs, d, table, i, Branch(fs, d, table[i], n), Forest(fs, d, table, i + 1, n));
    }
  }

  lemma {:induction false} OneMoreBranch(fs: Fs, d: int, table: Table, i: nat, branch: set<int>, rest: set<int>)
    requires Inv(fs) && IsDirectory(fs, d) && i < NUM_DIR_ENTRIES && IsForest(fs, d, table, i + 1, rest) && Deeper(fs, d, branch)
    requires var c := Lookup(fs.tables[d], table[i].name);
             if table[i].inUse && c != -1 then IsSubtree(fs, c, branch) else branch == {}
    ensures IsForest(fs, d, table, i, branch + rest)
  {
    var c, all := Lookup(fs.tables[d], table[i].name), branch + rest;
    forall t | t in all
      ensures NamedBy(fs, d, table, i, t) || ListedIn(fs, all, t)
    {
      if t in branch {
        if t != c {
          var e, k :| e in branch && Refers(fs, e, k, t);
          assert e in all && Refers(fs, e, k, t);
        }
      } else if ListedIn(fs, rest, t) {
        var e, k :| e in rest && Refers(fs, e, k, t);
        assert e in all && Refers(fs, e, k, t);
      } else {
        assert NamedBy(fs, d, table, i + 1, t);
      }
    }
    forall t | NamedBy(fs, d, table, i, t) && t != -1
      ensures t in all
    {
      var j :| i <= j < NUM_DIR_ENTRIES && table[j].inUse && Lookup(fs.tables[d], table[j].name) == t;
      assert j > i ==> NamedBy(fs, d, table, i + 1, t);
    }
  }

  /** There is one such set. */
  lemma {:induction false} SubtreeIn(fs: Fs, s: int, files: set<int>, others: set<int>, t: int)
    requires Inv(fs) && IsSubtree(fs, s, files) && IsSubtree(fs, s, others) && t in files
    ensures t in others
    decreases fs.depth[t]
  {
    if t != s {
      var d, i :| d in files && Refers(fs, d, i, t);
      ListedHigher(fs, d, i, t);
      SubtreeIn(fs, s, files, others, d);
    }
  }

  lemma {:induction false} SubtreeUnique(fs: Fs, s: int, files: set<int>, others: set<int>)
    requires Inv(fs) && IsSubtree(fs, s, files) && IsSubtree(fs, s, others)
    ensures files == others
  {
    forall t
      ensures t in files <==> t in others
    {
      if t in files {
        SubtreeIn(fs, s, files, others, t);
      }
      if t in others {
        SubtreeIn(fs, s, others, files, t);
      }
    }
  }

  // ---- Subtrees lie apart ----

  /** A file below one of the names is not below another file of the same directory. */
  lemma {:induction false} NotBelowBoth(fs: Fs, d: int, c: int, branch: set<int>, table: Table, i: nat, rest: set<int>, t: int)
    requires Inv(fs) && IsDirectory(fs, d) && i <= NUM_DIR_ENTRIES
    requires IsSubtree(fs, c, branch) && (exists k :: Refers(fs, d, k, c)) && IsForest(fs, d, table, i, rest) && !NamedBy(fs, d, table, i, c)
    requires t in branch
    ensures t !in rest
    decreases fs.depth[t]
  {
    var k :| Refers(fs, d, k, c);
    ListedHigher(fs, d, k, c);
    if t == c {
      assert d !in rest;
    } else {
      var e, j :| e in branch && Refers(fs, e, j, t);
      ListedHigher(fs, e, j, t);
      SubtreeBelow(fs, c, branch, e);
      NotNamed(fs, d, table, i, t, e, j);
      NotBelowBoth(fs, d, c, branch, table, i, rest, e);
    }
  }

  lemma {:induction false} NotNamed(fs: Fs, d: int, table: Table, i: nat, t: int, e: int, j: int)
    requires Inv(fs) && IsDirectory(fs, d) && Refers(fs, e, j, t) && e != d && t != -1
    ensures !NamedBy(fs, d, table, i, t)
  {
    if NamedBy(fs, d, table, i, t) {
      Named(fs, d, table, i, t);
    }
  }

  lemma {:induction false} Named(fs: Fs, d: int, table: Table, i: nat, t: int)
    requires Inv(fs) && IsDirectory(fs, d) && NamedBy(fs, d, table, i, t) && t != -1
    ensures exists k :: Refers(fs, d, k, t)
  {
    var j :| i <= j < NUM_DIR_ENTRIES && table[j].inUse && Lookup(fs.tables[d], table[j].name) == t;
    Found(fs, d, table[j].name);
  }

  lemma {:induction false} SubtreeBelow(fs: Fs, c: int, files: set<int>, t: int)
    requires Inv(fs) && IsSubtree(fs, c, files) && t in files
    ensures fs.depth[c] <= fs.depth[t]
    decreases fs.depth[t]
  {
    if t != c {
      var d, i :| d in files && Refers(fs, d, i, t);
      ListedHigher(fs, d, i, t);
      SubtreeBelow(fs, c, files, d);
    }
  }

  /** Names that differ stand for files that differ. */
  lemma {:induction false} OtherNames(fs: Fs, d: int, table: Table, i: nat)
    requires Inv(fs) && IsDirectory(fs, d) && NamesUnique(table) && i < NUM_DIR_ENTRIES && table[i].inUse
    requires Lookup(fs.tables[d], table[i].name) != -1
    ensures !NamedBy(fs, d, table, i + 1, Lookup(fs.tables[d], table[i].name))
  {
    var c := Lookup(fs.tables[d], table[i].name);
    Found(fs, d, table[i].name);
    if j :| i + 1 <= j < NUM_DIR_ENTRIES && table[j].inUse && Lookup(fs.tables[d], table[j].name) == c {
      Found(fs, d, table[j].name);
    }
  }

  lemma {:induction false} BranchApart(fs: Fs, d: int, table: Table, i: nat, n: nat)
    requires Inv(fs) && IsDirectory(fs, d) && NamesUnique(table) && i < NUM_DIR_ENTRIES && Reaches(fs, d, n)
    ensures Branch(fs, d, table[i], n) !! Forest(fs, d, table, i + 1, n)
  {
    BranchMeaning(fs, d, table[i], n);
    var c, branch, rest := Lookup(fs.tables[d], table[i].name), Branch(fs, d, table[i], n), Forest(fs, d, table, i + 1, n);
    if table[i].inUse && c != -1 {
      ForestMeaning(fs, d, table, i + 1, n);
      OtherNames(fs, d, table, i);
      Found(fs, d, table[i].name);
      forall t | t in branch
        ensures t !in rest
      {
        NotBelowBoth(fs, d, c, branch, table, i + 1, rest, t);
      }
    }
  }

  // ---- What is taken away ----

  /** Among these files, this one goes. */
  ghost predicate Goer(fs: Fs, files: set<int>, t: int) { t in files && t in fs.live && Leaves(fs, t) }

  /** The sector is the header of a file that goes, or belongs to it. */
  ghost predicate GivenUp(fs: Fs, files: set<int>, x: int) {
    exists t :: Goer(fs, files, t) && (x == t || x in Freed(fs, t))
  }

  /** A header with one visit less, on 32 bits. */
  ghost predicate OneVisitLess(h: Header, g: Header) {
    g == h.(numVisits := g.numVisits) && (g.numVisits + 1 - h.numVisits) % 0x1_0000_0000 == 0
  }

  /** Removal has been tried on each of these files once: the directories among them and the plain files
      visited once are gone, and the map marks exactly what it marked without their sectors; plain
      files have one visit less; and no other header, nor any index sector, has changed. */
  ghost predicate Cleared(fs: Fs, fs': Fs, files: set<int>) {
    && fs'.index == fs.index && fs'.depth == fs.depth && fs'.blend == fs.blend && fs'.live <= fs.live
    && (forall t {:trigger t in fs'.live} {:trigger Goer(fs, files, t)} :: t in fs'.live <==> t in fs.live && !Goer(fs, files, t))
    && (forall x {:trigger x in fs'.marks} {:trigger GivenUp(fs, files, x)} :: x in fs'.marks <==> x in fs.marks && !GivenUp(fs, files, x))
    && (forall t {:trigger fs'.headers[t]} :: IsSector(t) ==>
          if t in files && t in fs.live && fs.headers[t].fileType == 0 then OneVisitLess(fs.headers[t], fs'.headers[t])
          else fs'.headers[t] == fs.headers[t])
  }

  /** Tables change only in these files and in d. */
  ghost predicate TablesKept(fs: Fs, fs': Fs, d: int, files: set<int>) {
    forall e {:trigger fs'.tables[e]} :: IsSector(e) && e != d && e !in files ==> fs'.tables[e] == fs.tables[e]
  }

  lemma {:induction false} ClearedOn(fs: Fs, mid: Fs, fs': Fs, a: set<int>, b: set<int>)
    requires Cleared(fs, mid, a) && Cleared(mid, fs', b) && a !! b
    ensures Cleared(fs, fs', a + b)
  {
    forall t
      ensures Goer(fs, a + b, t) <==> Goer(fs, a, t) || Goer(mid, b, t)
      ensures Goer(mid, b, t) ==> Freed(mid, t) == Freed(fs, t)
    {
      if t in fs.live && t in b {
        assert mid.headers[t] == fs.headers[t];
      }
    }
    forall x
      ensures GivenUp(fs, a + b, x) <==> GivenUp(fs, a, x) || GivenUp(mid, b, x)
    {
      if t :| Goer(fs, a + b, t) && (x == t || x in Freed(fs, t)) {
        assert Goer(fs, a, t) || Goer(mid, b, t);
      }
      if t :| Goer(fs, a, t) && (x == t || x in Freed(fs, t)) {
        assert Goer(fs, a + b, t);
      }
      if t :| Goer(mid, b, t) && (x == t || x in Freed(mid, t)) {
        assert Goer(fs, a + b, t);
      }
    }
  }

  lemma {:induction false} NoneCleared(fs: Fs)
    ensures Cleared(fs, fs, {})
  {
  }

  // ---- Subtrees elsewhere stay as they are ----

  lemma {:induction false} SameSubtree(fs: Fs, mid: Fs, s: int, n: nat, d: int, a: set<int>)
    requires Cleared(fs, mid, a) && TablesKept(fs, mid, d, a) && IsFile(fs, s)
    requires Subtree(fs, s, n) !! a && d !in Subtree(fs, s, n)
    ensures IsFile(mid, s) && Subtree(mid, s, n) == Subtree(fs, s, n)
    decreases n, 0, 0
  {
    assert s in Subtree(fs, s, n) && mid.headers[s] == fs.headers[s];
    if n > 0 && IsDirectory(fs, s) {
      assert mid.tables[s] == fs.tables[s];
      SameForest(fs, mid, s, fs.tables[s], 0, n - 1, d, a);
    }
  }

  lemma {:induction false} SameForest(fs: Fs, mid: Fs, e: int, table: Table, i: nat, n: nat, d: int, a: set<int>)
    requires Cleared(fs, mid, a) && TablesKept(fs, mid, d, a) && IsSector(e) && i <= NUM_DIR_ENTRIES
    requires forall j :: i <= j < NUM_DIR_ENTRIES && table[j].inUse ==> Lookup(mid.tables[e], table[j].name) == Lookup(fs.tables[e], table[j].name)
    requires Forest(fs, e, table, i, n) !! a && d !in Forest(fs, e, table, i, n)
    ensures Forest(mid, e, table, i, n) == Forest(fs, e, table, i, n)
    decreases n, 1, NUM_DIR_ENTRIES - i
  {
    if i < NUM_DIR_ENTRIES {
      var c := Lookup(fs.tables[e], table[i].name);
      if table[i].inUse && IsFile(fs, c) {
        SameSubtree(fs, mid, c, n, d, a);
      }
      assert Branch(mid, e, table[i], n) == Branch(fs, e, table[i], n);
      SameForest(fs, mid, e, table, i + 1, n, d, a);
    }
  }

  // ---- Removal clears subtrees ----

  /** A refused removal. */
  lemma {:induction false} LeftClears(fs: Fs, s: int)
    requires IsFile(fs, s) && fs.headers[s].fileType == 0 && fs.headers[s].numVisits != 1
    ensures Cleared(fs, Left(fs, s), {s})
  {
    assert forall t :: !Goer(fs, {s}, t);
  }

  /** A plain file goes. */
  lemma {:induction false} PlainClears(fs: Fs, s: int)
    requires IsFile(fs, s) && fs.headers[s].fileType == 0 && fs.headers[s].numVisits == 1
    ensures Cleared(fs, Gone(Left(fs, s), s), {s})
  {
    OnlyGoer(fs, s);
    var h, g := fs.headers[s], Left(fs, s).headers[s];
    assert Freed(Left(fs, s), s) == Freed(fs, s);
  }

  /** A directory goes by itself. */
  lemma {:induction false} GoneClears(fs: Fs, s: int)
    requires IsFile(fs, s) && fs.headers[s].fileType != 0
    ensures Cleared(fs, Gone(fs, s), {s})
  {
    OnlyGoer(fs, s);
  }

  lemma {:induction false} OnlyGoer(fs: Fs, s: int)
    requires s in fs.live && Leaves(fs, s)
    ensures forall t :: Goer(fs, {s}, t) <==> t == s
    ensures forall x :: GivenUp(fs, {s}, x) <==> x == s || x in Freed(fs, s)
  {
    forall x
      ensures GivenUp(fs, {s}, x) <==> x == s || x in Freed(fs, s)
    {
      assert Goer(fs, {s}, s);
    }
  }

  /** Tables do not matter to what is cleared. */
  lemma {:induction false} ClearedTables(fs: Fs, mid: Fs, files: set<int>, tables: Tables)
    requires Cleared(fs, mid, files)
    ensures Cleared(fs, mid.(tables := tables), files)
  {
  }

  lemma {:induction false} RemoveInClears(fs: Fs, d: int, name: string, levels: nat)
    requires Inv(fs) && IsDirectory(fs, d) && Reaches(fs, d, levels) && Lookup(fs.tables[d], name) != -1
    ensures var s, (ok, fs') := Lookup(fs.tables[d], name), RemoveIn(fs, d, name, levels);
            && IsFile(fs, s) && ok == Leaves(fs, s)
            && Cleared(fs, fs', Subtree(fs, s, levels)) && TablesKept(fs, fs', d, Subtree(fs, s, levels))
            && fs'.tables[d] == if ok then WithoutEntry(fs.tables[d], name) else fs.tables[d]
    decreases levels, 0, 1
  {
    var s := Lookup(fs.tables[d], name);
    Found(fs, d, name);
    if fs.headers[s].fileType == 0 {
      if fs.headers[s].numVisits != 1 {
        LeftClears(fs, s);
      } else {
        PlainClears(fs, s);
        ClearedTables(fs, Gone(Left(fs, s), s), {s}, fs.tables[d := WithoutEntry(fs.tables[d], name)]);
      }
    } else {
      assert IsDirectory(fs, s) && levels > 0;
      DirectoryClears(fs, s, levels - 1);
      var mid := Gone(Emptied(fs, s, levels - 1), s);
      EmptiedKeeps(fs, s, levels - 1);
      AboveParent(fs, Emptied(fs, s, levels - 1), d, s);
      ClearedTables(fs, mid, Subtree(fs, s, levels), mid.tables[d := WithoutEntry(fs.tables[d], name)]);
    }
  }

  /** A directory goes after its entries. */
  lemma {:induction false} DirectoryClears(fs: Fs, s: int, levels: nat)
    requires Inv(fs) && IsDirectory(fs, s) && Reaches(fs, s, levels)
    ensures var mid := Gone(Emptied(fs, s, levels), s);
            Cleared(fs, mid, Subtree(fs, s, levels + 1)) && TablesKept(fs, mid, s, Subtree(fs, s, levels + 1))
    decreases levels, 3, 0
  {
    var files, mid := Forest(fs, s, fs.tables[s], 0, levels), Emptied(fs, s, levels);
    assert TableOk(fs, s);
    AllClears(fs, s, fs.tables[s], 0, levels);
    ForestMeaning(fs, s, fs.tables[s], 0, levels);
    assert s !in files;
    EmptiedKeeps(fs, s, levels);
    GoneClears(mid, s);
    ClearedOn(fs, mid, Gone(mid, s), files, {s});
    assert files + {s} == Subtree(fs, s, levels + 1);
  }

  lemma {:induction false} NextClears(fs: Fs, d: int, entry: Entry, levels: nat)
    requires Inv(fs) && IsDirectory(fs, d) && Reaches(fs, d, levels)
    ensures var mid, files := Next(fs, d, entry, levels), Branch(fs, d, entry, levels);
            && Cleared(fs, mid, files) && TablesKept(fs, mid, d, files)
            && (mid.tables[d] == fs.tables[d] || (entry.inUse && mid.tables[d] == WithoutEntry(fs.tables[d], entry.name)))
    decreases levels, 0, 2
  {
    var c := Lookup(fs.tables[d], entry.name);
    if entry.inUse && c != -1 {
      RemoveInClears(fs, d, entry.name, levels);
    } else {
      NoneCleared(fs);
    }
  }

  lemma {:induction false} AllClears(fs: Fs, d: int, table: Table, i: nat, levels: nat)
    requires Inv(fs) && IsDirectory(fs, d) && Reaches(fs, d, levels) && NamesUnique(table) && i <= NUM_DIR_ENTRIES
    ensures var fs', files := RemoveAllIn(fs, d, table, i, levels), Forest(fs, d, table, i, levels);
            Cleared(fs, fs', files) && TablesKept(fs, fs', d, files)
    decreases levels, 1, NUM_DIR_ENTRIES - i
  {
    if i == NUM_DIR_ENTRIES {
      NoneCleared(fs);
    } else {
      var mid, a := Next(fs, d, table[i], levels), Branch(fs, d, table[i], levels);
      NextClears(fs, d, table[i], levels);
      NextKeeps(fs, d, table[i], levels);
      RestStays(fs, mid, d, table, i, levels);
      AllClears(mid, d, table, i + 1, levels);
      ClearedOn(fs, mid, RemoveAllIn(fs, d, table, i, levels), a, Forest(fs, d, table, i + 1, levels));
    }
  }

  /** After one entry, the others are as before. */
  lemma {:induction false} RestStays(fs: Fs, mid: Fs, d: int, table: Table, i: nat, n: nat)
    requires Inv(fs) && IsDirectory(fs, d) && Reaches(fs, d, n) && NamesUnique(table) && i < NUM_DIR_ENTRIES
    requires Cleared(fs, mid, Branch(fs, d, table[i], n)) && TablesKept(fs, mid, d, Branch(fs, d, table[i], n))
    requires mid.tables[d] == fs.tables[d] || (table[i].inUse && mid.tables[d] == WithoutEntry(fs.tables[d], table[i].name))
    ensures Reaches(mid, d, n) && Branch(fs, d, table[i], n) !! Forest(fs, d, table, i + 1, n)
    ensures Forest(mid, d, table, i + 1, n) == Forest(fs, d, table, i + 1, n)
  {
    assert TableOk(fs, d);
    forall j | i + 1 <= j < NUM_DIR_ENTRIES && table[j].inUse
      ensures Lookup(mid.tables[d], table[j].name) == Lookup(fs.tables[d], table[j].name)
    {
      RemoveThenFind(fs.tables[d], table[i].name, table[j].name);
    }
    BranchApart(fs, d, table, i, n);
    ForestMeaning(fs, d, table, i + 1, n);
    SameForest(fs, mid, d, table, i + 1, n, d, Branch(fs, d, table[i], n));
    forall t | IsDirectory(mid, t)
      ensures mid.depth[t] <= mid.depth[d] + n
    {
      assert IsDirectory(fs, t);
    }
  }

  // ---- Remove by path ----

  lemma {:induction false} WrittenBackKeeps(fs: Fs, w: int, table: Table, junk: nat -> Slots)
    requires IsSector(w)
    ensures var fs' := WrittenBack(fs, w, table, junk);
            && fs'.live == fs.live && fs'.marks == fs.marks && fs'.depth == fs.depth
            && (forall e {:trigger fs'.tables[e]} {:trigger fs'.headers[e]} :: IsSector(e) && e != w ==>
                  fs'.tables[e] == fs.tables[e] && fs'.headers[e] == fs.headers[e])
  {
  }

  lemma {:induction false} PlainByPathClears(fs: Fs, path: seq<string>, w: int, table: Table, s: int, levels: nat, junk: nat -> Slots)
      returns (mid: Fs)
    requires Leads(fs, path, w, table, s) && IsFile(fs, w) && fs.headers[s].fileType == 0
    ensures Cleared(fs, mid, {s}) && mid.tables == fs.tables
    ensures RemovePath(fs, path, levels, junk)
            == if Leaves(fs, s) then (Yes, WrittenBack(mid, w, WithoutEntry(table, Last(path)), junk)) else (No, mid)
  {
    if fs.headers[s].numVisits != 1 {
      LeftClears(fs, s);
      mid := Left(fs, s);
    } else {
      PlainClears(fs, s);
      VisitsKeep(fs, s, LessOne(fs.headers[s].numVisits));
      LiveCanFree(Left(fs, s), s);
      mid := Gone(Left(fs, s), s);
    }
  }

  lemma {:induction false} DirectoryByPathClears(fs: Fs, path: seq<string>, w: int, table: Table, s: int, levels: nat, junk: nat -> Slots)
      returns (mid: Fs)
    requires Leads(fs, path, w, table, s) && IsFile(fs, w) && IsDirectory(fs, s) && levels > 0 && Reaches(fs, s, levels - 1)
    ensures Cleared(fs, mid, Subtree(fs, s, levels)) && TablesKept(fs, mid, s, Subtree(fs, s, levels))
    ensures RemovePath(fs, path, levels, junk) == (Yes, WrittenBack(mid, w, WithoutEntry(table, Last(path)), junk))
  {
    var r := RemovePath(fs, path, levels, junk);
    assert r == Ended(Emptied(fs, s, levels - 1), w, table, Last(path), s, junk) by {
      RemovalEnds(fs, path, w, table, s, levels, junk);
    }
    mid := EmptiedClears(fs, w, table, Last(path), s, levels - 1, junk, r);
  }

  lemma {:induction false} EmptiedClears(fs: Fs, w: int, table: Table, name: string, s: int, levels: nat, junk: nat -> Slots, r: (Result, Fs))
      returns (mid: Fs)
    requires Inv(fs) && IsSector(w) && IsDirectory(fs, s) && Reaches(fs, s, levels)
    requires r == Ended(Emptied(fs, s, levels), w, table, name, s, junk)
    ensures Cleared(fs, mid, Subtree(fs, s, levels + 1)) && TablesKept(fs, mid, s, Subtree(fs, s, levels + 1))
    ensures r == (Yes, WrittenBack(mid, w, WithoutEntry(table, name), junk))
  {
    var tried := Emptied(fs, s, levels);
    assert CanFree(tried, s) by {
      EmptiedKeeps(fs, s, levels);
      LiveCanFree(tried, s);
    }
    DirectoryClears(fs, s, levels);
    mid := Gone(tried, s);
    EndedGone(tried, w, table, name, s, junk, mid);
  }

  lemma {:induction false} EndedGone(fs: Fs, w: int, table: Table, name: string, s: int, junk: nat -> Slots, mid: Fs)
    requires IsSector(w) && IsSector(s) && CanFree(fs, s) && mid == Gone(fs, s)
    ensures Ended(fs, w, table, name, s, junk) == (Yes, WrittenBack(mid, w, WithoutEntry(table, name), junk))
  {
  }

  /** Remove by path, for every path that RemoveKeeps speaks of: removal is tried on the file and all files
      below it, and no other file or table is touched but the one that takes the last table.  What a
      removal frees is exactly what the files that went owned. */
  lemma {:induction false} RemoveClears(fs: Fs, path: seq<string>, w: int, table: Table, s: int, files: set<int>, levels: nat,
                                        junk: nat -> Slots) returns (mid: Fs)
    requires Leads(fs, path, w, table, s) && Covers(fs, levels) && IsSubtree(fs, s, files)
    ensures IsFile(fs, w) && Cleared(fs, mid, files) && TablesKept(fs, mid, s, files)
    ensures var (answer, fs') := RemovePath(fs, path, levels, junk);
            && (answer, fs') == (if Leaves(fs, s) then (Yes, WrittenBack(mid, w, WithoutEntry(table, Last(path)), junk)) else (No, mid))
            && fs'.live == mid.live && fs'.marks == mid.marks
  {
    FollowEnds(fs, 1, fs.tables[1], Inner(path));
    assert fs.depth[1] < levels;
    SubtreeMeaning(fs, s, levels);
    SubtreeUnique(fs, s, files, Subtree(fs, s, levels));
    if fs.headers[s].fileType == 0 {
      mid := PlainByPathClears(fs, path, w, table, s, levels, junk);
    } else {
      mid := DirectoryByPathClears(fs, path, w, table, s, levels, junk);
    }
    WrittenBackKeeps(mid, w, WithoutEntry(table, Last(path)), junk);
  }

  // ---- Remove by a bare name ----

  lemma {:induction false} ForestIn(fs: Fs, d: int, table: Table, i: nat, files: set<int>, others: set<int>, t: int)
    requires Inv(fs) && IsSector(d) && IsForest(fs, d, table, i, files) && IsForest(fs, d, table, i, others) && t in files
    ensures t in others
    decreases fs.depth[t]
  {
    if ListedIn(fs, files, t) {
      var e, k :| e in files && Refers(fs, e, k, t);
      ListedHigher(fs, e, k, t);
      ForestIn(fs, d, table, i, files, others, e);
    }
  }

  lemma {:induction false} ForestUnique(fs: Fs, d: int, table: Table, i: nat, files: set<int>, others: set<int>)
    requires Inv(fs) && IsSector(d) && IsForest(fs, d, table, i, files) && IsForest(fs, d, table, i, others)
    ensures files == others
  {
    forall t
      ensures t in files <==> t in others
    {
      if t in files {
        ForestIn(fs, d, table, i, files, others, t);
      }
      if t in others {
        ForestIn(fs, d, table, i, others, files, t);
      }
    }
  }

  lemma {:induction false} NotAmong(fs: Fs, name: string, s: int, children: Table, files: set<int>)
    requires Inv(fs) && s == Lookup(fs.tables[1], name) && s != -1 && IndexOf(children, name) == -1
    requires IsForest(fs, 1, children, 0, files)
    ensures s !in files
  {
    Found(fs, 1, name);
    forall j | 0 <= j < NUM_DIR_ENTRIES && children[j].inUse
      ensures Lookup(fs.tables[1], children[j].name) != s
    {
      assert !Names(children, j, name);
      if Lookup(fs.tables[1], children[j].name) != -1 {
        Found(fs, 1, children[j].name);
      }
    }
    assert !NamedBy(fs, 1, children, 0, s);
    assert 1 !in files;
  }

  /** Remove of a directory by its bare name: removal is tried on the files that the root directory has
      under the names of the directory's entries, and all below them; then the directory goes, and the
      root directory gets back the table it had, without the name. */
  lemma {:induction false} BareClears(fs: Fs, name: string, s: int, files: set<int>, levels: nat, junk: nat -> Slots) returns (mid: Fs)
    requires Inv(fs) && Covers(fs, levels) && s == Lookup(fs.tables[1], name) && IsDirectory(fs, s)
    requires IsForest(fs, 1, fs.tables[s], 0, files)
    ensures if IndexOf(fs.tables[s], name) != -1 then
              Cleared(fs, mid, files) && RemovePath(fs, [name], levels, junk) == (Stopped, mid)
            else
              && s !in files && Cleared(fs, mid, files + {s})
              && RemovePath(fs, [name], levels, junk) == (Yes, WrittenBack(mid, 1, WithoutEntry(fs.tables[1], name), junk))
  {
    assert fs.depth[1] < levels && TableOk(fs, s);
    BareRemoval(fs, name, s, levels, junk);
    OneComponent(fs, name, levels, junk);
    ForestMeaning(fs, 1, fs.tables[s], 0, levels - 1);
    ForestUnique(fs, 1, fs.tables[s], 0, files, Forest(fs, 1, fs.tables[s], 0, levels - 1));
    AllClears(fs, 1, fs.tables[s], 0, levels - 1);
    var tried := RemoveAllIn(fs, 1, fs.tables[s], 0, levels - 1);
    if IndexOf(fs.tables[s], name) != -1 {
      mid := tried;
    } else {
      NotAmong(fs, name, s, fs.tables[s], files);
      assert IsFile(tried, s) && tried.headers[s] == fs.headers[s];
      GoneClears(tried, s);
      ClearedOn(fs, tried, Gone(tried, s), files, {s});
      mid := Gone(tried, s);
    }
  }

  // ---- What a removal leaves behind ----

  lemma {:induction false} AboveSubtree(fs: Fs, w: int, k: int, s: int, files: set<int>)
    requires Inv(fs) && Refers(fs, w, k, s) && IsSubtree(fs, s, files)
    ensures w !in files
  {
    ListedHigher(fs, w, k, s);
    if w in files {
      SubtreeBelow(fs, s, files, w);
    }
  }

  /** A directory goes with all below it but the plain files that were not visited just once.  Those stay,
      with their sectors, and are in no directory any more. */
  lemma {:induction false} LeftBehind(fs: Fs, path: seq<string>, w: int, s: int, files: set<int>, levels: nat, junk: nat -> Slots, t: int)
    requires IsSector(w) && Leads(fs, path, w, fs.tables[w], s) && IsDirectory(fs, w) && IsDirectory(fs, s)
    requires Covers(fs, levels) && IsSubtree(fs, s, files) && t in files
    ensures var fs' := RemovePath(fs, path, levels, junk).1;
            (t in fs'.live <==> !Leaves(fs, t)) && (t in fs'.live ==> Unlisted(fs', t) && t in fs'.marks && Freed(fs, t) <= fs'.marks)
  {
    Found(fs, w, Last(path));
    var mid := RemoveClears(fs, path, w, fs.tables[w], s, files, levels, junk);
    AboveSubtree(fs, w, IndexOf(fs.tables[w], Last(path)), s, files);
    Behind(fs, mid, w, WithoutEntry(fs.tables[w], Last(path)), s, files, junk, t);
  }

  lemma {:induction false} Behind(fs: Fs, mid: Fs, w: int, table: Table, s: int, files: set<int>, junk: nat -> Slots, t: int)
    requires Inv(fs) && IsDirectory(fs, w) && IsSubtree(fs, s, files) && Cleared(fs, mid, files) && TablesKept(fs, mid, s, files)
    requires forall i :: 0 <= i < NUM_DIR_ENTRIES ==> table[i] == fs.tables[w][i] || !table[i].inUse
    requires IsDirectory(fs, s) && t in files && w !in files
    ensures var fs' := WrittenBack(mid, w, table, junk);
            (t in fs'.live <==> !Leaves(fs, t)) && (t in fs'.live ==> Unlisted(fs', t) && t in fs'.marks && Freed(fs, t) <= fs'.marks)
  {
    WrittenBackKeeps(mid, w, table, junk);
    if !Leaves(fs, t) {
      var e, k :| e in files && Refers(fs, e, k, t);
      ListedHigher(fs, e, k, t);
      assert Goer(fs, files, e);
      assert TableOk(fs, e) && EntryOk(fs, e, k);
      StillUnlisted(fs, mid, w, table, s, files, junk, e, k, t);
      StillMarked(fs, mid, files, t);
    }
  }

  lemma {:induction false} StillMarked(fs: Fs, mid: Fs, files: set<int>, t: int)
    requires FilesOk(fs) && Cleared(fs, mid, files) && t in fs.live && !Goer(fs, files, t)
    ensures t in mid.marks && Freed(fs, t) <= mid.marks
  {
    assert FileOk(fs, t);
    forall x | x == t || x in Freed(fs, t)
      ensures x in mid.marks
    {
      forall g | Goer(fs, files, g)
        ensures x != g && x !in Freed(fs, g)
      {
        assert FileOk(fs, g) && OwnedBy(fs, g) !! OwnedBy(fs, t);
      }
      assert x in fs.marks && !GivenUp(fs, files, x);
    }
  }

  lemma {:induction false} StillUnlisted(fs: Fs, mid: Fs, w: int, table: Table, s: int, files: set<int>, junk: nat -> Slots, e: int, k: int, t: int)
    requires Inv(fs) && IsDirectory(fs, w) && IsSubtree(fs, s, files) && Cleared(fs, mid, files) && TablesKept(fs, mid, s, files)
    requires forall i :: 0 <= i < NUM_DIR_ENTRIES ==> table[i] == fs.tables[w][i] || !table[i].inUse
    requires e in files && Refers(fs, e, k, t) && !IsFile(mid, e) && t in files && t != 1 && w !in files
    ensures Unlisted(WrittenBack(mid, w, table, junk), t)
  {
    var fs' := WrittenBack(mid, w, table, junk);
    WrittenBackKeeps(mid, w, table, junk);
    forall d, i
      ensures !Refers(fs', d, i, t)
    {
      if Refers(fs', d, i, t) {
        assert mid.headers[d] == fs.headers[d];
        assert Refers(fs, d, i, t);
      }
    }
  }
}
