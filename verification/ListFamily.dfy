/**
  Many lists over one set of items: an item is on at most one list at a time, the list its container
  names, and an operation on one list leaves every other list as it was.
 */
module ListFamily {
  import opened ListViews
  import opened KernelList

  /** Lists and end markers all differ, every list is valid, and all nodes are of the given memory. */
  ghost predicate Separate(lists: seq<List>, memory: set<ListItem>)
    reads lists, memory
  {
    && (forall i :: 0 <= i < |lists| ==> forall n :: n in lists[i].nodes ==> n in memory)
    && (forall i {:trigger lists[i].Valid()} :: 0 <= i < |lists| ==> lists[i].Valid())
    && (forall i, j {:trigger lists[i].listEnd, lists[j].listEnd} ::
        0 <= i < j < |lists| ==> lists[i].listEnd != lists[j].listEnd)
  }

  lemma ContainerOfNode(l: List, i: nat)
    requires l.Valid() && 0 < i < |l.nodes|
    ensures l.nodes[i].container == l
  {
    assert l.Carried(l.nodes[i], l.view.entries[i-1]);
  }

  lemma NodesApart(a: List, b: List)
    requires a.Valid() && b.Valid() && a != b && a.listEnd != b.listEnd
    ensures forall n :: n in a.nodes ==> n !in b.nodes
  {
    forall m, n | 0 <= m < |a.nodes| && 0 <= n < |b.nodes|
      ensures a.nodes[m] != b.nodes[n]
    {
      if m > 0 { ContainerOfNode(a, m); }
      if n > 0 { ContainerOfNode(b, n); }
    }
  }

  /** No node of list k is on another list, and neither is an item that is on none. */
  lemma OthersApart(lists: seq<List>, memory: set<ListItem>, k: nat)
    requires Separate(lists, memory) && k < |lists|
    ensures forall j :: 0 <= j < |lists| && j != k ==>
      lists[j] != lists[k] && (forall n :: n in lists[j].nodes ==> n !in lists[k].nodes)
  {
    forall j | 0 <= j < |lists| && j != k
      ensures lists[j] != lists[k] && (forall n :: n in lists[j].nodes ==> n !in lists[k].nodes)
    {
      assert lists[j].Valid() && lists[k].Valid() && lists[j].listEnd != lists[k].listEnd;
      NodesApart(lists[j], lists[k]);
    }
  }

  lemma FreeOnNone(lists: seq<List>, memory: set<ListItem>, item: ListItem)
    requires Separate(lists, memory) && item.container == null
    requires forall i :: 0 <= i < |lists| ==> lists[i].listEnd != item
    ensures forall j :: 0 <= j < |lists| ==> item !in lists[j].nodes
  {
    forall j | 0 <= j < |lists|
      ensures item !in lists[j].nodes
    {
      assert lists[j].Valid();
      lists[j].NotInList(item);
    }
  }

  lemma StaysInMemory(nodes: seq<ListItem>, memory: set<ListItem>, item: ListItem, m: nat)
    requires (forall n :: n in nodes ==> n in memory) && item in memory && m <= |nodes|
    ensures forall n :: n in nodes[..m] + [item] + nodes[m..] ==> n in memory
  {
  }

  lemma LeavesInMemory(nodes: seq<ListItem>, memory: set<ListItem>, m: nat)
    requires (forall n :: n in nodes ==> n in memory) && m < |nodes|
    ensures forall n :: n in nodes[..m] + nodes[m+1..] ==> n in memory
  {
  }

  /** vListInsert, within the family. */
  method InsertInto(ghost lists: seq<List>, ghost memory: set<ListItem>, ghost k: nat, l: List, item: ListItem)
    requires Separate(lists, memory) && k < |lists| && lists[k] == l && l.Valid() && item in memory
    requires item.container == null && item.itemValue <= l.maxDelay
    requires forall i :: 0 <= i < |lists| ==> lists[i].listEnd != item
    modifies l, l.nodes`next, l.nodes`previous, item`next, item`previous, item`container
    ensures Separate(lists, memory) && l.Valid() && item.container == l
    ensures l.view == Insert(old(l.view), Entry(item.owner, item.itemValue))
    ensures var m := SortedPlace(old(l.view).entries, item.itemValue) + 1;
      l.nodes == old(l.nodes)[..m] + [item] + old(l.nodes)[m..]
  {
    hide Insert, InsertAt, SortedPlace, Owners;
    OthersApart(lists, memory, k);
    FreeOnNone(lists, memory, item);
    StaysInMemory(l.nodes, memory, item, SortedPlace(l.view.entries, item.itemValue) + 1);
    l.Insert(item);
    forall j | 0 <= j < |lists| && j != k
      ensures lists[j].Valid()
    {
      assert old(lists[j].Valid());
    }
  }

  /** vListInsertEnd, within the family. */
  method InsertEndInto(ghost lists: seq<List>, ghost memory: set<ListItem>, ghost k: nat, l: List, item: ListItem)
    requires Separate(lists, memory) && k < |lists| && lists[k] == l && l.Valid() && item in memory
    requires item.container == null && item.itemValue <= l.maxDelay
    requires forall i :: 0 <= i < |lists| ==> lists[i].listEnd != item
    modifies l, l.nodes`next, l.nodes`previous, item`next, item`previous, item`container
    ensures Separate(lists, memory) && l.Valid() && item.container == l
    ensures l.view == InsertEnd(old(l.view), Entry(item.owner, item.itemValue))
    ensures var m := EndPlace(old(l.view)) + 1;
      l.nodes == old(l.nodes)[..m] + [item] + old(l.nodes)[m..]
  {
    hide InsertEnd, InsertAt, Owners;
    OthersApart(lists, memory, k);
    FreeOnNone(lists, memory, item);
    StaysInMemory(l.nodes, memory, item, EndPlace(l.view) + 1);
    l.InsertEnd(item);
    forall j | 0 <= j < |lists| && j != k
      ensures lists[j].Valid()
    {
      assert old(lists[j].Valid());
    }
  }

  /** uxListRemove, within the family: the list is the item's container. */
  method RemoveFrom(ghost lists: seq<List>, ghost memory: set<ListItem>, ghost k: nat, item: ListItem)
      returns (ghost m: nat)
    requires Separate(lists, memory) && k < |lists| && lists[k].Valid()
    requires item.container == lists[k] && item in lists[k].nodes
    modifies lists[k], lists[k].nodes`next, lists[k].nodes`previous, item`container
    ensures Separate(lists, memory) && lists[k].Valid() && item.container == null
    ensures 0 < m < |old(lists[k].nodes)| && old(lists[k].nodes)[m] == item
    ensures lists[k].view == RemoveAt(old(lists[k].view), m - 1)
    ensures lists[k].nodes == old(lists[k].nodes)[..m] + old(lists[k].nodes)[m+1..]
  {
    hide RemoveAt, Owners;
    OthersApart(lists, memory, k);
    var l := item.container;
    ghost var was := l.nodes;
    var left;
    left, m := l.Remove(item);
    LeavesInMemory(was, memory, m);
    forall j | 0 <= j < |lists| && j != k
      ensures lists[j].Valid()
    {
      assert old(lists[j].Valid());
    }
  }
}
