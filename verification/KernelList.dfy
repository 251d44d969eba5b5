/**
  The kernel list of freertos/src/list.c and list.h at pointer level: a circular doubly linked list
  with an end marker, a walking index, sorted insertion and removal through a back pointer.
  Every method is proved to compute the function of `ListViews` of the same name.
 */
module KernelList {
  import opened ListViews

  class ListItem {
    var itemValue: nat
    var next: ListItem?
    var previous: ListItem?
    var owner: nat
    var container: List?

    /** vListInitialiseItem: the item is recorded as being on no list. */
    constructor ()
      ensures container == null
    {
      container := null;
    }
  }

  /** No node occurs twice. */
  ghost predicate Distinct<T>(s: seq<T>) {
    s == [] || (s[0] !in s[1..] && Distinct(s[1..]))
  }

  lemma {:induction false} DistinctPlaces<T>(s: seq<T>)
    ensures Distinct(s) <==> forall i, j :: 0 <= i < j < |s| ==> s[i] != s[j]
  {
    if s != [] {
      DistinctPlaces(s[1..]);
      assert forall i :: 0 < i < |s| ==> s[1..][i-1] == s[i];
    }
  }

  /** Up to the nodes excepted, every node's next and previous are its neighbours in the circle. */
  ghost predicate NextsExcept(s: seq<ListItem>, except: int)
    reads s`next
  {
    forall i {:trigger s[i].next} :: 0 <= i < |s| && i != except ==> s[i].next == s[if i + 1 < |s| then i + 1 else 0]
  }

  ghost predicate PreviousExcept(s: seq<ListItem>, except: int)
    reads s`previous
  {
    forall i {:trigger s[i].previous} :: 0 <= i < |s| && i != except ==>
      s[i].previous == s[if i > 0 then i - 1 else |s| - 1]
  }

  ghost predicate Circle(s: seq<ListItem>)
    reads s`next, s`previous
  {
    0 < |s| && Distinct(s) && NextsExcept(s, -1) && PreviousExcept(s, -1)
  }

  lemma OnlyPlace<T>(s: seq<T>, k: nat)
    requires Distinct(s) && k < |s|
    ensures forall i :: 0 <= i < |s| && i != k ==> s[i] != s[k]
  {
    DistinctPlaces(s);
  }

  lemma DistinctAfterInsertion<T>(s: seq<T>, x: T, k: nat)
    requires Distinct(s) && x !in s && k <= |s|
    ensures Distinct(s[..k] + [x] + s[k..])
  {
    DistinctPlaces(s);
    DistinctPlaces(s[..k] + [x] + s[k..]);
  }

  lemma DistinctAfterRemoval<T>(s: seq<T>, k: nat)
    requires Distinct(s) && k < |s|
    ensures Distinct(s[..k] + s[k+1..])
  {
    DistinctPlaces(s);
    DistinctPlaces(s[..k] + s[k+1..]);
  }

  lemma NextsLinkedIn(s: seq<ListItem>, item: ListItem, k: nat)
    requires 0 < k <= |s| && NextsExcept(s, k - 1)
    requires item.next == s[if k < |s| then k else 0] && s[k-1].next == item
    ensures NextsExcept(s[..k] + [item] + s[k..], -1)
  {
    var t := s[..k] + [item] + s[k..];
    forall i {:trigger t[i].next} | 0 <= i < |t|
      ensures t[i].next == t[if i + 1 < |t| then i + 1 else 0]
    {
      if i < k { assert t[i] == s[i]; } else if i > k { assert t[i] == s[i-1]; }
    }
  }

  lemma PreviousLinkedIn(s: seq<ListItem>, item: ListItem, k: nat)
    requires 0 < k <= |s| && PreviousExcept(s, if k < |s| then k else 0)
    requires item.previous == s[k-1] && s[if k < |s| then k else 0].previous == item
    ensures PreviousExcept(s[..k] + [item] + s[k..], -1)
  {
    var t := s[..k] + [item] + s[k..];
    forall i {:trigger t[i].previous} | 0 <= i < |t|
      ensures t[i].previous == t[if i > 0 then i - 1 else |t| - 1]
    {
      if i < k { assert t[i] == s[i]; } else if i > k { assert t[i] == s[i-1]; }
    }
  }

  lemma NextsLinkedOut(s: seq<ListItem>, k: nat)
    requires 0 < k < |s| && NextsExcept(s, k - 1)
    requires s[k-1].next == s[if k + 1 < |s| then k + 1 else 0]
    ensures NextsExcept(s[..k] + s[k+1..], -1)
  {
    var t := s[..k] + s[k+1..];
    forall i {:trigger t[i].next} | 0 <= i < |t|
      ensures t[i].next == t[if i + 1 < |t| then i + 1 else 0]
    {
      if i < k { assert t[i] == s[i]; } else { assert t[i] == s[i+1]; }
    }
  }

  lemma PreviousLinkedOut(s: seq<ListItem>, k: nat)
    requires 0 < k < |s| && PreviousExcept(s, if k + 1 < |s| then k + 1 else 0)
    requires s[if k + 1 < |s| then k + 1 else 0].previous == s[k-1]
    ensures PreviousExcept(s[..k] + s[k+1..], -1)
  {
    var t := s[..k] + s[k+1..];
    forall i {:trigger t[i].previous} | 0 <= i < |t|
      ensures t[i].previous == t[if i > 0 then i - 1 else |t| - 1]
    {
      if i < k { assert t[i] == s[i]; } else { assert t[i] == s[i+1]; }
    }
  }

  /** The four link writes of vListInsertEnd: the item goes in before node `i`. */
  method LinkBefore(ghost s: seq<ListItem>, i: ListItem, item: ListItem, ghost k: nat)
    requires Circle(s) && item !in s && 0 < k <= |s| && i == s[if k < |s| then k else 0]
    modifies s`next, s`previous, item`next, item`previous
    ensures HalfLinked(s, item, k)
  {
    DistinctPlaces(s);
    assert i.previous == s[k-1];
    item.next := i;
    item.previous := i.previous;
    i.previous.next := item;
    i.previous := item;
  }

  /** The four link writes of vListInsert: the item goes in after node `position`. */
  method LinkAfter(ghost s: seq<ListItem>, position: ListItem, item: ListItem, ghost k: nat)
    requires Circle(s) && item !in s && 0 < k <= |s| && position == s[k-1]
    modifies s`next, s`previous, item`next, item`previous
    ensures HalfLinked(s, item, k)
  {
    DistinctPlaces(s);
    assert position.next == s[if k < |s| then k else 0];
    item.next := position.next;
    item.next.previous := item;
    item.previous := position;
    position.next := item;
  }

  /** The two link writes of uxListRemove. */
  method Unlink(ghost s: seq<ListItem>, item: ListItem, ghost k: nat)
    requires Circle(s) && 0 < k < |s| && item == s[k]
    modifies s`next, s`previous
    ensures HalfUnlinked(s, k)
    ensures item.previous == s[k-1]
  {
    DistinctPlaces(s);
    assert item.previous == s[k-1] && item.next == s[if k + 1 < |s| then k + 1 else 0];
    item.next.previous := item.previous;
    item.previous.next := item.next;
  }

  /** All links are those of the circle, but for the item between node k-1 and the node after it. */
  ghost predicate HalfLinked(s: seq<ListItem>, item: ListItem, k: nat)
    requires 0 < k <= |s|
    reads s`next, s`previous, item`next, item`previous
  {
    var after := if k < |s| then k else 0;
    && NextsExcept(s, k - 1) && PreviousExcept(s, after)
    && item.next == s[after] && s[k-1].next == item
    && item.previous == s[k-1] && s[after].previous == item
  }

  /** All links are those of the circle, but for those that now pass node k by. */
  ghost predicate HalfUnlinked(s: seq<ListItem>, k: nat)
    requires 0 < k < |s|
    reads s`next, s`previous
  {
    var after := if k + 1 < |s| then k + 1 else 0;
    && NextsExcept(s, k - 1) && PreviousExcept(s, after)
    && s[k-1].next == s[after] && s[after].previous == s[k-1]
  }

  lemma CircleWith(s: seq<ListItem>, item: ListItem, k: nat)
    requires Distinct(s) && item !in s && 0 < k <= |s| && HalfLinked(s, item, k)
    ensures Circle(s[..k] + [item] + s[k..])
  {
    DistinctAfterInsertion(s, item, k);
    NextsLinkedIn(s, item, k);
    PreviousLinkedIn(s, item, k);
  }

  lemma CircleWithout(s: seq<ListItem>, k: nat)
    requires Distinct(s) && 0 < k < |s| && HalfUnlinked(s, k)
    ensures Circle(s[..k] + s[k+1..])
  {
    DistinctAfterRemoval(s, k);
    NextsLinkedOut(s, k);
    PreviousLinkedOut(s, k);
  }

  class List {
    /** The end marker, and the value it carries: the greatest one a tick count can hold. */
    const listEnd: ListItem
    const maxDelay: nat

    var numberOfItems: nat
    var index: ListItem

    /** The marker and then the items in link order; and what they mean. */
    ghost var nodes: seq<ListItem>
    ghost var view: ListView

    ghost predicate Valid()
      reads this, nodes
    {
      && Circle(nodes) && nodes[0] == listEnd
      && numberOfItems == |nodes| - 1
      && view.cursor < |nodes| && index == nodes[view.cursor]
      && listEnd.container == null && listEnd.itemValue == maxDelay
      && Carries(nodes, view.entries)
    }

    /** The nodes after the marker are this list's items, and they carry these entries. */
    ghost predicate Carries(s: seq<ListItem>, entries: seq<Entry>)
      reads s`container, s`owner, s`itemValue
    {
      CarriesExcept(s, entries, 0)
    }

    ghost predicate CarriesExcept(s: seq<ListItem>, entries: seq<Entry>, except: nat)
      reads s`container, s`owner, s`itemValue
    {
      && |s| == |entries| + 1
      && (forall i :: 0 < i < |s| && i != except ==> Carried(s[i], entries[i-1]))
    }

    ghost predicate Carried(item: ListItem, e: Entry)
      reads item`container, item`owner, item`itemValue
    {
      item.container == this && e == Entry(item.owner, item.itemValue) && item.itemValue <= maxDelay
    }

    lemma CarriesInserted(s: seq<ListItem>, entries: seq<Entry>, item: ListItem, k: nat)
      requires Carries(s, entries) && 0 < k <= |s|
      requires Carried(item, Entry(item.owner, item.itemValue))
      ensures Carries(s[..k] + [item] + s[k..], entries[..k-1] + [Entry(item.owner, item.itemValue)] + entries[k-1..])
    {
      var t := s[..k] + [item] + s[k..];
      var es := entries[..k-1] + [Entry(item.owner, item.itemValue)] + entries[k-1..];
      forall i | 0 < i < |t|
        ensures Carried(t[i], es[i-1])
      {
        if i < k { assert t[i] == s[i]; } else if i > k { assert t[i] == s[i-1]; }
      }
    }

    lemma CarriesRemoved(s: seq<ListItem>, entries: seq<Entry>, k: nat)
      requires 0 < k < |s| && CarriesExcept(s, entries, k)
      ensures Carries(s[..k] + s[k+1..], entries[..k-1] + entries[k..])
    {
      var t, es := s[..k] + s[k+1..], entries[..k-1] + entries[k..];
      forall i | 0 < i < |t|
        ensures Carried(t[i], es[i-1])
      {
        if i < k { assert t[i] == s[i]; } else { assert t[i] == s[i+1]; }
      }
    }

    /** vListInitialise. */
    constructor (maxDelay: nat)
      ensures Valid() && view == EmptyView && this.maxDelay == maxDelay
      ensures fresh(listEnd) && nodes == [listEnd]
    {
      var end := new ListItem();
      listEnd := end;
      this.maxDelay := maxDelay;
      index := end;
      end.itemValue := maxDelay;
      end.next := end;
      end.previous := end;
      numberOfItems := 0;
      nodes := [end];
      view := EmptyView;
    }

    /** The end of both insertions: the item remembers its list, and is counted. */
    method Attach(item: ListItem, ghost k: nat)
      requires 0 < k <= |nodes| && Distinct(nodes) && nodes[0] == listEnd && item !in nodes
      requires HalfLinked(nodes, item, k)
      requires numberOfItems == |nodes| - 1 && view.cursor < |nodes| && index == nodes[view.cursor]
      requires listEnd.container == null && listEnd.itemValue == maxDelay
      requires Carries(nodes, view.entries) && item.itemValue <= maxDelay
      modifies this`numberOfItems, this`nodes, this`view, item`container
      ensures Valid() && item.container == this
      ensures view == InsertAt(old(view), k - 1, Entry(item.owner, item.itemValue))
      ensures nodes == old(nodes)[..k] + [item] + old(nodes)[k..]
    {
      item.container := this;
      numberOfItems := numberOfItems + 1;
      Linked(item, k);
    }

    /** The links are in place: from here on the list means the list with the item at place k. */
    ghost method Linked(item: ListItem, k: nat)
      requires 0 < k <= |nodes| && Distinct(nodes) && nodes[0] == listEnd && item !in nodes
      requires HalfLinked(nodes, item, k)
      requires numberOfItems == |nodes| && view.cursor < |nodes| && index == nodes[view.cursor]
      requires listEnd.container == null && listEnd.itemValue == maxDelay
      requires Carries(nodes, view.entries) && item.container == this && item.itemValue <= maxDelay
      modifies this`nodes, this`view
      ensures Valid()
      ensures view == InsertAt(old(view), k - 1, Entry(item.owner, item.itemValue))
      ensures nodes == old(nodes)[..k] + [item] + old(nodes)[k..]
    {
      hide Distinct, NextsExcept, PreviousExcept, HalfLinked, Carried;
      CircleWith(nodes, item, k);
      CarriesInserted(nodes, view.entries, item, k);
      view := InsertAt(view, k - 1, Entry(item.owner, item.itemValue));
      nodes := nodes[..k] + [item] + nodes[k..];
    }

    /** The links pass the item at place k by: from here on the list means the list without it. */
    ghost method Unlinked(k: nat)
      requires 0 < k < |nodes| && Distinct(nodes) && nodes[0] == listEnd
      requires HalfUnlinked(nodes, k)
      requires numberOfItems == |nodes| - 2 && view.cursor < |nodes|
      requires index == nodes[if view.cursor == k then k - 1 else view.cursor]
      requires listEnd.container == null && listEnd.itemValue == maxDelay
      requires CarriesExcept(nodes, view.entries, k)
      modifies this`nodes, this`view
      ensures Valid()
      ensures view == RemoveAt(old(view), k - 1)
      ensures nodes == old(nodes)[..k] + old(nodes)[k+1..]
    {
      hide Distinct, NextsExcept, PreviousExcept, HalfUnlinked, Carried;
      CircleWithout(nodes, k);
      CarriesRemoved(nodes, view.entries, k);
      view := RemoveAt(view, k - 1);
      nodes := nodes[..k] + nodes[k+1..];
    }

    /** vListInsertEnd. */
    method InsertEnd(item: ListItem)
      requires Valid() && item.container == null && item != listEnd && item.itemValue <= maxDelay
      modifies this, nodes`next, nodes`previous, item`next, item`previous, item`container
      ensures Valid() && item.container == this
      ensures view == ListViews.InsertEnd(old(view), Entry(item.owner, item.itemValue))
      ensures var k := EndPlace(old(view)) + 1; nodes == old(nodes)[..k] + [item] + old(nodes)[k..]
    {
      ghost var k := EndPlace(view) + 1;
      NotInList(item);
      LinkBefore(nodes, index, item, k);
      Attach(item, k);
    }

    lemma NotInList(item: ListItem)
      requires Valid() && item.container == null && item != listEnd
      ensures item !in nodes
    {
      forall i | 0 < i < |nodes|
        ensures nodes[i] != item
      {
        assert Carried(nodes[i], view.entries[i-1]);
      }
    }

    /** vListInsert. */
    method Insert(item: ListItem)
      requires Valid() && item.container == null && item != listEnd && item.itemValue <= maxDelay
      modifies this, nodes`next, nodes`previous, item`next, item`previous, item`container
      ensures Valid() && item.container == this
      ensures view == ListViews.Insert(old(view), Entry(item.owner, item.itemValue))
      ensures var k := SortedPlace(old(view).entries, item.itemValue) + 1;
        nodes == old(nodes)[..k] + [item] + old(nodes)[k..]
    {
      NotInList(item);
      var value := item.itemValue;
      var position, k := Search(value);
      LinkAfter(nodes, position, item, k);
      Attach(item, k);
    }

    /** The search of vListInsert: it stops at the marker at the latest, because the marker carries
        the greatest value; that value itself goes straight to the end. */
    method Search(value: nat) returns (position: ListItem, ghost k: nat)
      requires Valid() && value <= maxDelay
      ensures k == SortedPlace(view.entries, value) + 1
      ensures position == nodes[k-1]
    {
      if value == maxDelay {
        position := listEnd.previous;
        k := |nodes|;
        forall i | 0 <= i < k - 1
          ensures view.entries[i].value <= value
        {
          assert Carried(nodes[i+1], view.entries[i]);
        }
        PlaceIs(view.entries, value, k - 1);
      } else {
        position := listEnd;
        k := 1;
        while position.next.itemValue <= value
          invariant 1 <= k <= |nodes| && position == nodes[k-1]
          invariant forall i :: 0 <= i < k - 1 ==> view.entries[i].value <= value
          decreases |nodes| - k
        {
          assert Carried(nodes[k], view.entries[k-1]);
          position := position.next;
          k := k + 1;
        }
        assert k < |nodes| ==> Carried(nodes[k], view.entries[k-1]);
        PlaceIs(view.entries, value, k - 1);
      }
    }

    /** uxListRemove, on the list its argument is in; the item was at place k. */
    method Remove(item: ListItem) returns (left: nat, ghost k: nat)
      requires Valid() && item in nodes && item != listEnd
      modifies this, nodes`next, nodes`previous, item`container
      ensures Valid() && item.container == null
      ensures 0 < k < |old(nodes)| && old(nodes)[k] == item
      ensures view == RemoveAt(old(view), k - 1)
      ensures nodes == old(nodes)[..k] + old(nodes)[k+1..]
      ensures left == |view.entries|
    {
      hide Distinct, NextsExcept, PreviousExcept, HalfUnlinked, Carries, RemoveAt;
      k :| 0 <= k < |nodes| && nodes[k] == item;
      Unlink(nodes, item, k);
      left := Detach(item, k);
    }

    /** The rest of uxListRemove: the index is left on a valid item, the item on no list. */
    method Detach(item: ListItem, ghost k: nat) returns (left: nat)
      requires 0 < k < |nodes| && item == nodes[k] && Distinct(nodes) && nodes[0] == listEnd
      requires HalfUnlinked(nodes, k) && item.previous == nodes[k-1]
      requires numberOfItems == |nodes| - 1 && view.cursor < |nodes| && index == nodes[view.cursor]
      requires listEnd.container == null && listEnd.itemValue == maxDelay
      requires Carries(nodes, view.entries)
      modifies this, item`container
      ensures Valid() && item.container == null
      ensures view == RemoveAt(old(view), k - 1)
      ensures nodes == old(nodes)[..k] + old(nodes)[k+1..]
      ensures left == |view.entries|
    {
      hide Distinct, HalfUnlinked, RemoveAt, Carried, NextsExcept, PreviousExcept;
      OnlyPlace(nodes, k);
      if index == item {
        index := item.previous;
      }
      item.container := null;
      numberOfItems := numberOfItems - 1;
      left := numberOfItems;
      Unlinked(k);
    }

    /** listLIST_IS_EMPTY. */
    method IsEmpty() returns (empty: bool)
      requires Valid()
      ensures empty <==> view.entries == []
    {
      empty := numberOfItems == 0;
    }

    /** listGET_OWNER_OF_HEAD_ENTRY, with the value of that entry. */
    method Head() returns (owner: nat, value: nat)
      requires Valid() && view.entries != []
      ensures Entry(owner, value) == view.entries[0]
    {
      var head := listEnd.next;
      owner, value := head.owner, head.itemValue;
      assert Carried(nodes[1], view.entries[0]);
    }

    /** listGET_OWNER_OF_NEXT_ENTRY. */
    method OwnerOfNextEntry() returns (owner: nat)
      requires Valid() && view.entries != []
      modifies this`index, this`view
      ensures Valid()
      ensures view == Next(old(view)) && owner == Picked(view).owner
    {
      index := index.next;
      if index == listEnd {
        index := index.next;
      }
      owner := index.owner;
      view := Next(view);
      assert Carried(nodes[view.cursor], view.entries[view.cursor-1]);
    }
  }

  lemma PlaceIs(s: seq<Entry>, value: nat, k: nat)
    requires k <= |s|
    requires forall i :: 0 <= i < k ==> s[i].value <= value
    requires k < |s| ==> s[k].value > value
    ensures SortedPlace(s, value) == k
  {
  }
}
