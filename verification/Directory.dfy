/** filesys/directory.cc: a fixed-size table of named entries. */
module Directories {

  datatype Entry = Entry(inUse: bool, sector: int, name: string)

  /** Entry i is in use under this name. */
  predicate Names(table: seq<Entry>, i: int, name: string) {
    0 <= i < |table| && table[i].inUse && table[i].name == name
  }

  /** The first entry in use under a name, or -1. */
  function IndexOf(table: seq<Entry>, name: string): (i: int)
    ensures -1 <= i < |table|
    ensures i == -1 <==> forall j :: !Names(table, j, name)
    ensures i != -1 ==> Names(table, i, name) && forall j :: 0 <= j < i ==> !Names(table, j, name)
  {
    IndexFrom(table, name, 0)
  }

  function IndexFrom(table: seq<Entry>, name: string, k: nat): (i: int)
    requires k <= |table| && forall j :: 0 <= j < k ==> !Names(table, j, name)
    ensures -1 <= i < |table|
    ensures i == -1 <==> forall j :: !Names(table, j, name)
    ensures i != -1 ==> Names(table, i, name) && forall j :: 0 <= j < i ==> !Names(table, j, name)
    decreases |table| - k
  {
    if k == |table| then -1 else if Names(table, k, name) then k else IndexFrom(table, name, k + 1)
  }

  /** The sector found under a name, or -1. */
  function Lookup(table: seq<Entry>, name: string): int {
    if IndexOf(table, name) == -1 then -1 else table[IndexOf(table, name)].sector
  }

  /** The first entry not in use, or -1. */
  function FreeSlot(table: seq<Entry>, k: nat): (i: int)
    requires k <= |table| && forall j :: 0 <= j < k ==> table[j].inUse
    ensures -1 <= i < |table|
    ensures i == -1 <==> forall j :: 0 <= j < |table| ==> table[j].inUse
    ensures i != -1 ==> !table[i].inUse && forall j :: 0 <= j < i ==> table[j].inUse
    decreases |table| - k
  {
    if k == |table| then -1 else if !table[k].inUse then k else FreeSlot(table, k + 1)
  }

  predicate CanAdd(table: seq<Entry>, name: string) { IndexOf(table, name) == -1 && FreeSlot(table, 0) != -1 }

  function WithEntry(table: seq<Entry>, name: string, sector: int): (t: seq<Entry>)
    requires CanAdd(table, name)
    ensures |t| == |table|
  {
    table[FreeSlot(table, 0) := Entry(true, sector, name)]
  }

  function WithoutEntry(table: seq<Entry>, name: string): (t: seq<Entry>)
    ensures |t| == |table|
  {
    var i := IndexOf(table, name);
    if i == -1 then table else table[i := table[i].(inUse := false, name := "")]
  }

  predicate NamesUnique(table: seq<Entry>) {
    forall i, j :: 0 <= i < j < |table| && table[i].inUse && table[j].inUse ==> table[i].name != table[j].name
  }

  /** Adding keeps names unique and is undone by removing. */
  lemma AddThenFind(table: seq<Entry>, name: string, sector: int, other: string)
    requires CanAdd(table, name) && NamesUnique(table)
    ensures NamesUnique(WithEntry(table, name, sector))
    ensures Lookup(WithEntry(table, name, sector), other) == if other == name then sector else Lookup(table, other)
  {
    var t, f := WithEntry(table, name, sector), FreeSlot(table, 0);
    forall j | 0 <= j < |table| && table[j].inUse
      ensures table[j].name != name
    {
      assert !Names(table, j, name);
    }
    assert forall j :: Names(t, j, other) <==> if j == f then other == name else Names(table, j, other);
    var i, k := IndexOf(t, other), IndexOf(table, other);
    if other == name {
      assert Names(t, f, name) && Names(t, i, name);
      assert i != f ==> Names(table, i, name);
    } else if k == -1 {
      assert forall j :: !Names(t, j, other);
    } else {
      assert Names(t, k, other) && Names(table, i, other);
    }
  }

  lemma RemoveThenFind(table: seq<Entry>, name: string, other: string)
    requires NamesUnique(table)
    ensures NamesUnique(WithoutEntry(table, name))
    ensures Lookup(WithoutEntry(table, name), other) == if other == name then -1 else Lookup(table, other)
  {
    var t, r := WithoutEntry(table, name), IndexOf(table, name);
    assert forall j :: Names(t, j, other) <==> j != r && Names(table, j, other);
    var i, k := IndexOf(t, other), IndexOf(table, other);
    if other == name {
      assert forall j :: Names(table, j, name) ==> j == r;
    } else if k == -1 {
      assert forall j :: !Names(t, j, other);
    } else {
      assert Names(t, k, other) && Names(table, i, other);
    }
  }

  class Directory {
    const table: array<Entry>

    constructor (size: nat)
      ensures table.Length == size && fresh(table) && forall i :: 0 <= i < size ==> !table[i].inUse
    {
      table := new Entry[size](i => Entry(false, 0, ""));
    }

    method FindIndex(name: string) returns (i: int)
      ensures i == IndexOf(table[..], name)
    {
      for k := 0 to table.Length
        invariant forall j :: 0 <= j < k ==> !Names(table[..], j, name)
        invariant IndexOf(table[..], name) == IndexFrom(table[..], name, k)
      {
        if table[k].inUse && table[k].name == name {
          return k;
        }
      }
      return -1;
    }

    method Find(name: string) returns (sector: int)
      ensures sector == Lookup(table[..], name)
    {
      var i := FindIndex(name);
      if i != -1 {
        return table[i].sector;
      }
      return -1;
    }

    method Add(name: string, newSector: int) returns (ok: bool)
      modifies table
      ensures ok == CanAdd(old(table[..]), name)
      ensures table[..] == if ok then WithEntry(old(table[..]), name, newSector) else old(table[..])
    {
      var found := FindIndex(name);
      if found != -1 {
        return false;
      }
      var i := 0;
      while i < table.Length
        invariant 0 <= i <= table.Length && forall j :: 0 <= j < i ==> table[j].inUse
        invariant table[..] == old(table[..])
        invariant FreeSlot(table[..], 0) == FreeSlot(table[..], i)
      {
        if !table[i].inUse {
          table[i] := Entry(true, newSector, name);
          return true;
        }
        i := i + 1;
      }
      return false;
    }

    method Remove(name: string) returns (ok: bool)
      modifies table
      ensures ok == (IndexOf(old(table[..]), name) != -1)
      ensures table[..] == WithoutEntry(old(table[..]), name)
    {
      var i := FindIndex(name);
      if i == -1 {
        return false;
      }
      table[i] := table[i].(inUse := false, name := "");
      ok := true;
    }
  }
}
