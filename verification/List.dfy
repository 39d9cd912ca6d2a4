/** threads/list.cc: singly linked lists, optionally sorted by a key. */
module Lists {

  // ---- Lists as sequences of items with keys ----

  datatype Cell<T> = Cell(item: T, key: int)

  /** Where a sorted insertion goes: before the first cell with a larger key. */
  function Inserted<T>(c: seq<Cell<T>>, x: Cell<T>): seq<Cell<T>> {
    if c == [] || x.key < c[0].key then [x] + c else [c[0]] + Inserted(c[1..], x)
  }

  predicate Sorted<T>(c: seq<Cell<T>>) { forall i, j :: 0 <= i < j < |c| ==> c[i].key <= c[j].key }

  lemma {:induction false} InsertedAt<T>(c: seq<Cell<T>>, x: Cell<T>, i: nat)
    requires i <= |c| && (forall j :: 0 <= j < i ==> c[j].key <= x.key) && (i < |c| ==> x.key < c[i].key)
    ensures Inserted(c, x) == c[..i] + [x] + c[i..]
  {
    if i > 0 {
      InsertedAt(c[1..], x, i - 1);
      assert c[..i] == [c[0]] + c[1..][..i - 1] && c[1..][i - 1..] == c[i..];
    }
  }

  /** A sorted insertion adds the item and nothing else, and keeps a sorted list sorted. */
  lemma {:induction false} InsertedMeaning<T>(c: seq<Cell<T>>, x: Cell<T>)
    ensures multiset(Inserted(c, x)) == multiset(c) + multiset{x}
    ensures Sorted(c) ==> Sorted(Inserted(c, x))
  {
    InsertedOnce(c, x);
    if Sorted(c) {
      InsertedSorted(c, x);
    }
  }

  lemma {:induction false} InsertedOnce<T>(c: seq<Cell<T>>, x: Cell<T>)
    ensures multiset(Inserted(c, x)) == multiset(c) + multiset{x}
  {
    if c != [] && x.key >= c[0].key {
      InsertedOnce(c[1..], x);
      assert c == [c[0]] + c[1..];
    }
  }

  lemma {:induction false} InsertedSorted<T>(c: seq<Cell<T>>, x: Cell<T>)
    requires Sorted(c)
    ensures Sorted(Inserted(c, x))
  {
    if c != [] && x.key >= c[0].key {
      InsertedSorted(c[1..], x);
      InsertedOnce(c[1..], x);
      SortedCons(c[0], Inserted(c[1..], x), c[1..], x);
    }
  }

  lemma SortedCons<T>(h: Cell<T>, r: seq<Cell<T>>, c: seq<Cell<T>>, x: Cell<T>)
    requires Sorted(r) && multiset(r) == multiset(c) + multiset{x} && h.key <= x.key && forall y :: y in c ==> h.key <= y.key
    ensures Sorted([h] + r)
  {
    forall i | 0 <= i < |r|
      ensures h.key <= r[i].key
    {
      assert r[i] in multiset(r);
    }
  }

  /** The list without the first cell that holds x. */
  function Without<T(==)>(c: seq<Cell<T>>, x: T): seq<Cell<T>> {
    if c == [] then [] else if c[0].item == x then c[1..] else [c[0]] + Without(c[1..], x)
  }

  lemma {:induction false} WithoutAt<T>(c: seq<Cell<T>>, x: T, i: nat)
    requires i < |c| && c[i].item == x && forall j :: 0 <= j < i ==> c[j].item != x
    ensures Without(c, x) == c[..i] + c[i + 1..]
  {
    if i > 0 {
      WithoutAt(c[1..], x, i - 1);
      assert c[..i] == [c[0]] + c[1..][..i - 1] && c[1..][i..] == c[i + 1..];
    }
  }

  // ---- The linked list ----

  class ListElement<T> {
    const item: T
    const key: int
    var next: ListElement?<T>

    constructor (item: T, key: int)
      ensures this.item == item && this.key == key && next == null
    {
      this.item, this.key := item, key;
      next := null;
    }
  }

  class List<T(==)> {
    var first: ListElement?<T>
    var last: ListElement?<T>
    var numInList: int
    ghost var spine: seq<ListElement<T>>

    ghost predicate Valid()
      reads this, spine
    {
      && numInList == |spine|
      && (forall i, j :: 0 <= i < j < |spine| ==> spine[i] != spine[j])
      && (forall i :: 0 <= i < |spine| ==> LinkOk(spine, i))
      && (if spine == [] then first == last == null else first == spine[0] && last == spine[|spine| - 1])
    }

    static ghost predicate LinkOk(spine: seq<ListElement<T>>, i: nat)
      requires i < |spine|
      reads spine
    {
      spine[i].next == if i + 1 < |spine| then spine[i + 1] else null
    }

    static ghost function Cells(spine: seq<ListElement<T>>): (c: seq<Cell<T>>)
      ensures |c| == |spine|
    {
      seq(|spine|, i requires 0 <= i < |spine| => Cell(spine[i].item, spine[i].key))
    }

    ghost function Contents(): (c: seq<Cell<T>>)
      reads this
      ensures |c| == |spine|
    {
      Cells(spine)
    }

    constructor ()
      ensures Valid() && Contents() == []
    {
      first, last, numInList, spine := null, null, 0, [];
    }

    method Append(item: T)
      requires Valid()
      modifies this, spine
      ensures Valid() && Contents() == old(Contents()) + [Cell(item, 0)]
      ensures fresh(set e | e in spine && e !in old(spine))
    {
      var element := new ListElement(item, 0);
      if first == null {
        PutFirst(element);
      } else {
        assert LinkOk(spine, |spine| - 1);
        PutAfter(last, element, |spine| - 1);
      }
    }

    method Prepend(item: T)
      requires Valid()
      modifies this, spine
      ensures Valid() && Contents() == [Cell(item, 0)] + old(Contents())
      ensures fresh(set e | e in spine && e !in old(spine))
    {
      var element := new ListElement(item, 0);
      PutFirst(element);
    }

    /** SortedInsert: the item goes before the first one with a larger key. */
    method SortedInsert(item: T, sortKey: int)
      requires Valid()
      modifies this, spine
      ensures Valid() && Contents() == Inserted(old(Contents()), Cell(item, sortKey))
      ensures fresh(set e | e in spine && e !in old(spine))
    {
      ghost var c, x := Contents(), Cell(item, sortKey);
      var element := new ListElement(item, sortKey);
      if first == null || sortKey < first.key {
        PutFirst(element);
        InsertedAt(c, x, 0);
      } else {
        PutInOrder(element);
      }
    }

    method PutInOrder(element: ListElement<T>)
      requires Valid() && first != null && element.key >= first.key && element !in spine && element.next == null
      modifies this, spine, element
      ensures Valid() && Contents() == Inserted(old(Contents()), Cell(element.item, element.key))
      ensures forall e :: e in spine ==> e == element || e in old(spine)
    {
      ghost var s := spine;
      var ptr, at := Search(element.key);
      PutAfter(ptr, element, at);
      CellsWith(s, element, at + 1);
      InsertedAt(Cells(s), Cell(element.item, element.key), at + 1);
    }

    /** The element before the first one with a larger key. */
    method Search(sortKey: int) returns (ptr: ListElement<T>, ghost at: nat)
      requires Valid() && first != null && sortKey >= first.key
      ensures at < |spine| && ptr == spine[at] && (forall j :: 0 <= j <= at ==> spine[j].key <= sortKey)
      ensures at + 1 < |spine| ==> sortKey < spine[at + 1].key
    {
      ptr, at := first, 0;
      assert LinkOk(spine, 0);
      while ptr.next != null && sortKey >= ptr.next.key
        invariant 0 <= at < |spine| && ptr == spine[at] && LinkOk(spine, at)
        invariant forall j :: 0 <= j <= at ==> spine[j].key <= sortKey
        decreases |spine| - at
      {
        ptr := ptr.next;
        at := at + 1;
      }
    }

    /** The cells of a spine with one more element. */
    static lemma {:induction false} CellsWith(s: seq<ListElement<T>>, e: ListElement<T>, k: nat)
      requires k <= |s|
      ensures Cells(s[..k] + [e] + s[k..]) == Cells(s)[..k] + [Cell(e.item, e.key)] + Cells(s)[k..]
    {
    }

    method PutFirst(element: ListElement<T>)
      requires Valid() && element !in spine && element.next == null
      modifies this, element
      ensures Valid() && spine == [element] + old(spine)
    {
      if first == null {
        first, last := element, element;
      } else {
        element.next := first;
        first := element;
      }
      numInList := numInList + 1;
      spine := [element] + spine;
      forall i | 0 <= i < |spine|
        ensures LinkOk(spine, i)
      {
        assert i > 0 ==> spine[i] == old(spine)[i - 1] && old(LinkOk(spine, i - 1));
      }
    }

    method PutAfter(ptr: ListElement<T>, element: ListElement<T>, ghost at: nat)
      requires Valid() && at < |spine| && ptr == spine[at] && element !in spine && element.next == null
      modifies this, spine, element
      ensures Valid() && spine == old(spine)[..at + 1] + [element] + old(spine)[at + 1..]
    {
      assert LinkOk(spine, at);
      if ptr.next != null {
        element.next := ptr.next;
        ptr.next := element;
      } else {
        last.next := element;
        last := element;
      }
      numInList := numInList + 1;
      spine := spine[..at + 1] + [element] + spine[at + 1..];
      forall i | 0 <= i < |spine|
        ensures LinkOk(spine, i)
      {
        assert i <= at ==> spine[i] == old(spine)[i] && old(LinkOk(spine, i));
        assert i > at + 1 ==> spine[i] == old(spine)[i - 1] && old(LinkOk(spine, i - 1));
      }
    }

    /** SortedRemove and Remove(): take the first cell, if there is one. */
    method SortedRemove() returns (thing: seq<T>, key: int)
      requires Valid()
      modifies this
      ensures Valid() && spine == if old(spine) == [] then [] else old(spine)[1..]
      ensures old(Contents()) == [] ==> thing == []
      ensures old(Contents()) != [] ==>
                thing == [old(Contents())[0].item] && key == old(Contents())[0].key && Contents() == old(Contents())[1..]
    {
      if first == null {
        return [], 0;
      }
      assert LinkOk(spine, 0);
      thing, key := [first.item], first.key;
      if first == last {
        first, last := null, null;
      } else {
        first := first.next;
      }
      spine := spine[1..];
      numInList := numInList - 1;
      forall i | 0 <= i < |spine|
        ensures LinkOk(spine, i)
      {
        assert old(LinkOk(spine, i + 1));
      }
    }

    /** Remove(item): the caller promises that the item is on the list. */
    method RemoveItem(item: T)
      requires Valid() && exists i :: 0 <= i < |Contents()| && Contents()[i].item == item
      modifies this, spine
      ensures Valid() && Contents() == Without(old(Contents()), item)
      ensures forall e :: e in spine ==> e in old(spine)
    {
      ghost var c := Contents();
      if first.item == item {
        WithoutAt(c, item, 0);
        var removed, key := SortedRemove();
      } else {
        var prev, ptr := first, first.next;
        ghost var at := 1;
        assert LinkOk(spine, 0);
        while ptr != null && ptr.item != item
          invariant 1 <= at <= |spine| && prev == spine[at - 1] && ptr == if at < |spine| then spine[at] else null
          invariant forall j :: 0 <= j < at ==> spine[j].item != item
          decreases |spine| - at
        {
          assert LinkOk(spine, at);
          prev, ptr, at := ptr, ptr.next, at + 1;
        }
        assert ptr != null by {
          var k :| 0 <= k < |c| && c[k].item == item;
          assert c[k].item == spine[k].item;
        }
        Unlink(prev, ptr, at);
        WithoutAt(c, item, at);
      }
    }

    /** Take the element after prev out of the list. */
    method Unlink(prev: ListElement<T>, ptr: ListElement<T>, ghost at: nat)
      requires Valid() && 0 < at < |spine| && prev == spine[at - 1] && ptr == spine[at]
      modifies this, spine
      ensures Valid() && spine == old(spine)[..at] + old(spine)[at + 1..]
    {
      assert LinkOk(spine, at);
      prev.next := ptr.next;
      if prev.next == null {
        last := prev;
      }
      spine := spine[..at] + spine[at + 1..];
      numInList := numInList - 1;
      forall i | 0 <= i < |spine|
        ensures LinkOk(spine, i)
      {
        assert i < at ==> spine[i] == old(spine)[i] && old(LinkOk(spine, i));
        assert i >= at ==> spine[i] == old(spine)[i + 1] && old(LinkOk(spine, i + 1));
      }
    }
  }
}
