/**
  The control blocks and lists of freertos/src/croutine.c in memory: each control block carries a
  generic and an event list item, and items are moved between lists by pointers alone.  The moves
  are proved to compute the functions of `CoRoutines` on list values.
 */
module CoRoutineMemory {
  import opened Wrappers
  import opened ListViews
  import opened KernelList
  import opened ListFamily
  import opened CoRoutines
  import opened CoRoutinePlaces

  /** CRCB_t. */
  class ControlBlock {
    const generic: ListItem
    const event: ListItem
    const priority: nat

    constructor (generic: ListItem, event: ListItem, priority: nat)
      ensures this.generic == generic && this.event == event && this.priority == priority
    {
      this.generic := generic;
      this.event := event;
      this.priority := priority;
    }
  }

  /** pvPortMalloc and the initialisation of a control block's items. */
  method FreshBlock(id: nat, priority: nat, junk: nat, eventValue: nat) returns (b: ControlBlock)
    ensures fresh(b.generic) && fresh(b.event) && b.generic != b.event && b.priority == priority
    ensures b.generic.container == null && b.event.container == null
    ensures b.generic.owner == b.event.owner == id && b.generic.itemValue == junk && b.event.itemValue == eventValue
  {
    var g := new ListItem();
    var e := new ListItem();
    g.owner, e.owner := id, id;
    g.itemValue, e.itemValue := junk, eventValue;
    b := new ControlBlock(g, e, priority);
  }

  ghost predicate AllEmpty(lists: seq<List>, maxDelay: nat)
    reads lists
  {
    forall k :: 0 <= k < |lists| ==>
      lists[k].view == EmptyView && lists[k].maxDelay == maxDelay && lists[k].nodes == [lists[k].listEnd]
  }

  /** prvInitialiseCoRoutineLists: every list starts empty. */
  method InitialiseLists(n: nat, maxDelay: nat) returns (lists: seq<List>, ghost ends: set<ListItem>)
    ensures |lists| == n && Separate(lists, ends) && AllEmpty(lists, maxDelay)
    ensures fresh(ends) && forall l :: l in lists ==> fresh(l)
  {
    lists, ends := [], {};
    while |lists| < n
      invariant |lists| <= n && Separate(lists, ends) && AllEmpty(lists, maxDelay)
      invariant fresh(ends) && forall l :: l in lists ==> fresh(l)
    {
      var l := new List(maxDelay);
      SeparateWith(lists, ends, l);
      lists, ends := lists + [l], ends + {l.listEnd};
    }
  }

  lemma SeparateWith(lists: seq<List>, ends: set<ListItem>, l: List)
    requires Separate(lists, ends) && l.Valid() && l.nodes == [l.listEnd] && l.listEnd !in ends
    ensures Separate(lists + [l], ends + {l.listEnd})
  {
    var ls := lists + [l];
    forall i {:trigger ls[i].Valid()} | 0 <= i < |ls|
      ensures ls[i].Valid()
    {
      if i < |lists| { assert lists[i].Valid(); }
    }
    forall i | 0 <= i < |lists|
      ensures lists[i].listEnd in ends
    {
      assert lists[i].Valid() && lists[i].listEnd in lists[i].nodes;
    }
  }

  class Memory {
    const cfg: Config
    /** The ready lists, the two delay lists, the pending list, and the event lists, in this order. */
    const lists: seq<List>
    /** Control blocks by handle; a list item's owner is such a handle. */
    var blocks: seq<ControlBlock>
    /** pxDelayedCoRoutineList and pxOverflowDelayedCoRoutineList. */
    var delayed: List
    var overflow: List

    ghost var items: set<ListItem>

    constructor (cfg: Config)
      requires ValidConfig(cfg)
      ensures this.cfg == cfg && blocks == [] && Sane()
      ensures delayed == lists[cfg.priorities] && overflow == lists[cfg.priorities + 1]
      ensures forall k :: 0 <= k < |lists| ==> lists[k].view == EmptyView
      ensures fresh(items) && forall l :: l in lists ==> fresh(l)
    {
      var ls; ghost var ends;
      ls, ends := InitialiseLists(cfg.priorities + 3 + cfg.eventLists, cfg.modulus - 1);
      this.cfg, lists, blocks := cfg, ls, [];
      delayed, overflow := ls[cfg.priorities], ls[cfg.priorities + 1];
      items := ends;
    }

    predicate IsGeneric(k: nat) {
      k < cfg.priorities + 2
    }

    function Item(id: nat, generic: bool): ListItem
      requires id < |blocks|
      reads this`blocks
    {
      if generic then blocks[id].generic else blocks[id].event
    }

    /** The lists are separate, and hold items of control blocks only, each of the list's kind. */
    ghost predicate Sane()
      reads this`blocks, this`items, lists, items
    {
      && ValidConfig(cfg) && |lists| == cfg.priorities + 3 + cfg.eventLists
      && Separate(lists, items)
      && (forall k :: 0 <= k < |lists| ==> lists[k].maxDelay == cfg.modulus - 1 && Known(lists[k].nodes, IsGeneric(k)))
      && (forall id :: 0 <= id < |blocks| ==> Owned(id) && Placed(id, true) && Placed(id, false))
    }

    ghost predicate Owned(id: nat)
      requires id < |blocks|
      reads this`blocks, this`items, items`owner
    {
      var g, e := blocks[id].generic, blocks[id].event;
      && g != e && g in items && e in items && g.owner == e.owner == id
      && (forall k :: 0 <= k < |lists| ==> lists[k].listEnd != g && lists[k].listEnd != e)
    }

    /** The items after the end marker are items of control blocks, of this kind. */
    ghost predicate Known(s: seq<ListItem>, generic: bool)
      reads this`blocks, s`owner
    {
      forall i :: 0 < i < |s| ==> s[i].owner < |blocks| && s[i] == Item(s[i].owner, generic)
    }

    /** An item that has a container is on that list, which is of the item's kind. */
    ghost predicate Placed(id: nat, generic: bool)
      requires id < |blocks| && |lists| >= cfg.priorities + 2
      reads this`blocks, lists`nodes, Item(id, generic)`container
    {
      var x := Item(id, generic);
      x.container != null ==> x.container in Side(generic) && x in x.container.nodes
    }

    function Side(generic: bool): seq<List>
      requires |lists| >= cfg.priorities + 2
    {
      if generic then lists[..cfg.priorities + 2] else lists[cfg.priorities + 2..]
    }

    lemma KnownAfterInsertion(s: seq<ListItem>, m: nat, id: nat, generic: bool)
      requires 0 < m <= |s| && id < |blocks| && Known(s, generic) && Item(id, generic).owner == id
      ensures Known(s[..m] + [Item(id, generic)] + s[m..], generic)
      ensures forall y :: y in s ==> y in s[..m] + [Item(id, generic)] + s[m..]
    {
      var x := Item(id, generic);
      var t := s[..m] + [x] + s[m..];
      assert s == s[..m] + s[m..];
      forall i | 0 < i < |t|
        ensures t[i].owner < |blocks| && t[i] == Item(t[i].owner, generic)
      {
        assert t[i] == if i < m then s[i] else if i == m then x else s[i-1];
      }
    }

    lemma KnownAfterRemoval(s: seq<ListItem>, m: nat, generic: bool)
      requires 0 < m < |s| && Known(s, generic)
      ensures Known(s[..m] + s[m+1..], generic)
      ensures forall y :: y in s && y != s[m] ==> y in s[..m] + s[m+1..]
    {
      var t := s[..m] + s[m+1..];
      assert s == s[..m] + [s[m]] + s[m+1..];
      forall i | 0 < i < |t|
        ensures t[i].owner < |blocks| && t[i] == Item(t[i].owner, generic)
      {
        assert t[i] == if i < m then s[i] else s[i+1];
      }
    }

    /** Placed, when list l had the nodes s. */
    ghost predicate PlacedWith(id: nat, generic: bool, l: List, s: seq<ListItem>)
      requires id < |blocks| && |lists| >= cfg.priorities + 2
      reads this`blocks, lists`nodes, Item(id, generic)`container
    {
      var c := Item(id, generic).container;
      c != null ==> c in Side(generic) && Item(id, generic) in (if c == l then s else c.nodes)
    }

    /** The list that changed had the nodes s; everything else is as it should be. */
    ghost predicate SaneBut(k: nat, s: seq<ListItem>, id: nat, generic: bool)
      reads this`blocks, this`items, lists, items, s`owner
    {
      && ValidConfig(cfg) && |lists| == cfg.priorities + 3 + cfg.eventLists
      && Separate(lists, items)
      && k < |lists| && lists[k].Valid() && id < |blocks| && IsGeneric(k) == generic
      && (forall j :: 0 <= j < |lists| ==> lists[j].maxDelay == cfg.modulus - 1)
      && Known(s, generic)
      && (forall j :: 0 <= j < |lists| && j != k ==> Known(lists[j].nodes, IsGeneric(j)))
      && (forall i :: 0 <= i < |blocks| ==> Owned(i))
      && (forall i, g :: 0 <= i < |blocks| && (i != id || g != generic) ==> Owned(i) && PlacedWith(i, g, lists[k], s))
    }

    lemma SaneAfterInsertion(k: nat, s: seq<ListItem>, m: nat, id: nat, generic: bool)
      requires SaneBut(k, s, id, generic) && 0 < m <= |s|
      requires Item(id, generic).container == lists[k]
      requires lists[k].nodes == s[..m] + [Item(id, generic)] + s[m..]
      ensures Sane()
    {
      assert Owned(id);
      KnownAfterInsertion(s, m, id, generic);
      assert lists[k] in Side(generic);
      forall i, g | 0 <= i < |blocks|
        ensures Placed(i, g)
      {
        if i != id || g != generic { assert PlacedWith(i, g, lists[k], s); }
      }
    }

    lemma SaneAfterRemoval(k: nat, s: seq<ListItem>, m: nat, id: nat, generic: bool)
      requires SaneBut(k, s, id, generic) && 0 < m < |s| && s[m] == Item(id, generic)
      requires Item(id, generic).container == null
      requires lists[k].nodes == s[..m] + s[m+1..]
      ensures Sane()
    {
      assert Owned(id);
      KnownAfterRemoval(s, m, generic);
      forall i, g | 0 <= i < |blocks|
        ensures Placed(i, g)
      {
        if i != id || g != generic {
          assert PlacedWith(i, g, lists[k], s);
          assert Owned(i);
        }
      }
    }

    lemma SaneIsSaneBut(k: nat, id: nat, generic: bool)
      requires Sane() && k < |lists| && id < |blocks| && IsGeneric(k) == generic
      ensures SaneBut(k, lists[k].nodes, id, generic)
    {
      assert lists[k].Valid();
      forall i, g | 0 <= i < |blocks|
        ensures PlacedWith(i, g, lists[k], lists[k].nodes)
      {
        assert Placed(i, g);
      }
    }

    method LinkSorted(id: nat, generic: bool, ghost k: nat, l: List)
      requires k < |lists| && SaneBut(k, lists[k].nodes, id, generic) && lists[k] == l
      requires Owned(id) && Item(id, generic).container == null && Item(id, generic).itemValue < cfg.modulus
      modifies l, l.nodes`next, l.nodes`previous
      modifies Item(id, generic)`next, Item(id, generic)`previous, Item(id, generic)`container
      ensures SaneBut(k, old(lists[k].nodes), id, generic)
      ensures Item(id, generic).container == l
      ensures l.view == Insert(old(l.view), Entry(id, Item(id, generic).itemValue))
      ensures var m := SortedPlace(old(l.view).entries, Item(id, generic).itemValue) + 1;
              l.nodes == old(l.nodes)[..m] + [Item(id, generic)] + old(l.nodes)[m..]
    {
      hide Known, Insert, SortedPlace;
      ghost var s := lists[k].nodes;
      assert Owned(id);
      InsertInto(lists, items, k, l, Item(id, generic));
      assert forall j :: 0 <= j < |lists| && j != k ==> lists[j] != lists[k] && Known(lists[j].nodes, IsGeneric(j));
      forall i | 0 <= i < |blocks|
        ensures Owned(i)
      {
        assert old(Owned(i));
      }
      forall i, g | 0 <= i < |blocks| && (i != id || g != generic)
        ensures PlacedWith(i, g, lists[k], s)
      {
        assert old(Owned(i) && PlacedWith(i, g, lists[k], s));
        assert Item(i, g) != Item(id, generic);
      }
    }

    /** vListInsert of an item of a control block. */
    method PutSorted(id: nat, generic: bool, ghost k: nat, l: List)
      requires Sane() && id < |blocks| && k < |lists| && lists[k] == l && l.Valid() && IsGeneric(k) == generic
      requires Item(id, generic).container == null && Item(id, generic).itemValue < cfg.modulus
      modifies l, l.nodes`next, l.nodes`previous
      modifies Item(id, generic)`next, Item(id, generic)`previous, Item(id, generic)`container
      ensures Sane()
      ensures l.view == Insert(old(l.view), Entry(id, Item(id, generic).itemValue))
    {
      ghost var s, m := l.nodes, SortedPlace(l.view.entries, Item(id, generic).itemValue) + 1;
      SaneIsSaneBut(k, id, generic);
      LinkSorted(id, generic, k, l);
      SaneAfterInsertion(k, s, m, id, generic);
    }

    method LinkEnd(id: nat, generic: bool, ghost k: nat, l: List)
      requires k < |lists| && SaneBut(k, lists[k].nodes, id, generic) && lists[k] == l
      requires Owned(id) && Item(id, generic).container == null && Item(id, generic).itemValue < cfg.modulus
      modifies l, l.nodes`next, l.nodes`previous
      modifies Item(id, generic)`next, Item(id, generic)`previous, Item(id, generic)`container
      ensures SaneBut(k, old(lists[k].nodes), id, generic)
      ensures Item(id, generic).container == l
      ensures l.view == InsertEnd(old(l.view), Entry(id, Item(id, generic).itemValue))
      ensures var m := EndPlace(old(l.view)) + 1;
              l.nodes == old(l.nodes)[..m] + [Item(id, generic)] + old(l.nodes)[m..]
    {
      hide Known;
      ghost var s := lists[k].nodes;
      assert Owned(id);
      InsertEndInto(lists, items, k, l, Item(id, generic));
      assert forall j :: 0 <= j < |lists| && j != k ==> lists[j] != lists[k] && Known(lists[j].nodes, IsGeneric(j));
      forall i | 0 <= i < |blocks|
        ensures Owned(i)
      {
        assert old(Owned(i));
      }
      forall i, g | 0 <= i < |blocks| && (i != id || g != generic)
        ensures PlacedWith(i, g, lists[k], s)
      {
        assert old(Owned(i) && PlacedWith(i, g, lists[k], s));
        assert Item(i, g) != Item(id, generic);
      }
    }

    /** vListInsertEnd of an item of a control block. */
    method PutEnd(id: nat, generic: bool, ghost k: nat, l: List)
      requires Sane() && id < |blocks| && k < |lists| && lists[k] == l && l.Valid() && IsGeneric(k) == generic
      requires Item(id, generic).container == null && Item(id, generic).itemValue < cfg.modulus
      modifies l, l.nodes`next, l.nodes`previous
      modifies Item(id, generic)`next, Item(id, generic)`previous, Item(id, generic)`container
      ensures Sane()
      ensures l.view == InsertEnd(old(l.view), Entry(id, Item(id, generic).itemValue))
    {
      ghost var s, m := l.nodes, EndPlace(l.view) + 1;
      SaneIsSaneBut(k, id, generic);
      LinkEnd(id, generic, k, l);
      SaneAfterInsertion(k, s, m, id, generic);
    }

    method UnlinkItem(id: nat, generic: bool, ghost k: nat, ghost l: List) returns (ghost m: nat)
      requires k < |lists| && SaneBut(k, lists[k].nodes, id, generic) && lists[k] == l
      requires Owned(id) && Item(id, generic).container == l && Item(id, generic) in l.nodes
      modifies l, l.nodes`next, l.nodes`previous, Item(id, generic)`container
      ensures SaneBut(k, old(l.nodes), id, generic)
      ensures Item(id, generic).container == null
      ensures 0 < m < |old(l.nodes)| && old(l.nodes)[m] == Item(id, generic)
      ensures l.view == RemoveAt(old(l.view), m - 1)
      ensures l.nodes == old(l.nodes)[..m] + old(l.nodes)[m+1..]
    {
      hide Known, RemoveAt;
      ghost var s := lists[k].nodes;
      assert Owned(id);
      m := RemoveFrom(lists, items, k, Item(id, generic));
      assert forall j :: 0 <= j < |lists| && j != k ==> lists[j] != lists[k] && Known(lists[j].nodes, IsGeneric(j));
      forall i | 0 <= i < |blocks|
        ensures Owned(i)
      {
        assert old(Owned(i));
      }
      forall i, g | 0 <= i < |blocks| && (i != id || g != generic)
        ensures PlacedWith(i, g, lists[k], s)
      {
        assert old(Owned(i) && PlacedWith(i, g, lists[k], s));
        assert Item(i, g) != Item(id, generic);
      }
    }

    /** uxListRemove of an item of a control block. */
    method Take(id: nat, generic: bool, ghost k: nat)
      requires Sane() && id < |blocks| && k < |lists| && lists[k].Valid() && IsGeneric(k) == generic &&
        Holds(lists[k].view, id)
      modifies lists[k], lists[k].nodes`next, lists[k].nodes`previous, Item(id, generic)`container
      ensures Sane()
      ensures lists[k].view == Remove(old(lists[k].view), id)
      ensures Item(id, generic).container == null
    {
      ghost var s, v := lists[k].nodes, lists[k].view;
      SaneIsSaneBut(k, id, generic);
      ItemOnList(k, id);
      OwnersDiffer(k);
      assert Owned(id);
      hide Sane, SaneBut, List.Valid;
      ghost var m := UnlinkItem(id, generic, k, lists[k]);
      assert m < |s| && s[m] == Item(id, generic);
      assert v.entries[m-1].owner == id;
      PlaceIsUnique(v.entries, m - 1);
      SaneAfterRemoval(k, s, m, id, generic);
    }

    /** No two items on a list have the same owner: they would be the same item. */
    lemma OwnersDiffer(k: nat)
      requires Sane() && k < |lists| && lists[k].Valid()
      ensures DistinctOwners(lists[k].view.entries)
      ensures forall i :: 0 < i < |lists[k].nodes| ==> lists[k].view.entries[i-1].owner == lists[k].nodes[i].owner
    {
      var l := lists[k];
      assert l.Valid();
      DistinctPlaces(l.nodes);
      forall i | 0 < i < |l.nodes|
        ensures l.view.entries[i-1].owner == l.nodes[i].owner
      {
        assert l.Carried(l.nodes[i], l.view.entries[i-1]);
      }
      forall i, j | 0 <= i < j < |l.view.entries|
        ensures l.view.entries[i].owner != l.view.entries[j].owner
      {
        assert l.nodes[i+1] != l.nodes[j+1];
      }
    }

    /** Where the value says an owner's item is, there the item is. */
    lemma ItemOnList(k: nat, id: nat)
      requires Sane() && k < |lists| && lists[k].Valid() && id < |blocks| && Holds(lists[k].view, id)
      ensures Item(id, IsGeneric(k)) in lists[k].nodes && Item(id, IsGeneric(k)).container == lists[k]
    {
      var es := lists[k].view.entries;
      OwnerAt(es, id);
      var i :| 0 <= i < |es| && es[i].owner == id;
      assert lists[k].Carried(lists[k].nodes[i+1], es[i]);
    }

    /** And an item that is on a list is there in the value. */
    lemma ItemHeld(k: nat, id: nat)
      requires Sane() && k < |lists| && lists[k].Valid() && id < |blocks| && Item(id, IsGeneric(k)) in lists[k].nodes
      ensures Holds(lists[k].view, id)
    {
      var x, es := Item(id, IsGeneric(k)), lists[k].view.entries;
      assert Owned(id);
      var i :| 0 <= i < |lists[k].nodes| && lists[k].nodes[i] == x;
      assert lists[k].nodes[0] != x;
      assert lists[k].Carried(lists[k].nodes[i], es[i-1]);
      OwnerAt(es, id);
    }

    lemma FreeIfNotHeld(id: nat, generic: bool)
      requires Sane() && id < |blocks|
      requires forall k :: 0 <= k < |lists| && IsGeneric(k) == generic ==> !Holds(lists[k].view, id)
      ensures Item(id, generic).container == null
    {
      assert Placed(id, generic);
      var x := Item(id, generic);
      if x.container != null {
        var k :| 0 <= k < |Side(generic)| && Side(generic)[k] == x.container;
        var j := if generic then k else k + cfg.priorities + 2;
        assert lists[j].Valid() && lists[j] == x.container;
        ItemHeld(j, id);
      }
    }

    // ---------- what the memory means, and the moves ----------

    ghost predicate Matches(l: Lists)
      reads this, lists, items
    {
      && Sane() && ListsShape(l, cfg) && Fields(l)
      && overflow == (if delayed == lists[cfg.priorities] then lists[cfg.priorities + 1] else lists[cfg.priorities])
      && (delayed == lists[cfg.priorities] || delayed == lists[cfg.priorities + 1])
      && (forall k :: 0 <= k < |lists| ==> lists[k].view == ViewOf(l, k))
    }

    /** The value that list k stands for. */
    ghost function ViewOf(l: Lists, k: nat): ListView
      requires |l.ready| == cfg.priorities && |l.events| == cfg.eventLists
      requires k < |lists| == cfg.priorities + 3 + cfg.eventLists
      reads this
    {
      var p := cfg.priorities;
      if k < p then l.ready[k]
      else if k < p + 2 then (if delayed == lists[k] then l.delayed else l.overflow)
      else if k == p + 2 then l.pending
      else l.events[k - p - 3]
    }

    /** l' is l but for the value of list k. */
    ghost predicate ChangedAt(l: Lists, l': Lists, k: nat, v: ListView)
      requires ListsShape(l, cfg) && |lists| == cfg.priorities + 3 + cfg.eventLists
      reads this
    {
      && |l'.ready| == cfg.priorities && |l'.events| == cfg.eventLists && k < |lists|
      && l'.priority == l.priority
      && (forall j :: 0 <= j < |lists| ==> ViewOf(l', j) == if j == k then v else ViewOf(l, j))
    }

    ghost predicate Fields(l: Lists)
      reads this`blocks, this`items, items`itemValue
    {
      && |blocks| == |l.priority| == |l.wake|
      && (forall id :: 0 <= id < |blocks| ==>
            && blocks[id].generic in items && blocks[id].event in items
            && blocks[id].priority == l.priority[id]
            && blocks[id].generic.itemValue == l.wake[id]
            && blocks[id].event.itemValue == EventValue(l.priority[id], cfg))
    }

    lemma AllDiffer(k: nat)
      requires Sane() && k < |lists|
      ensures lists[k].Valid() && Only(k)
    {
      assert lists[k].Valid();
      forall j | 0 <= j < |lists| && j != k
        ensures lists[j] != lists[k]
      {
        assert lists[j].listEnd != lists[k].listEnd;
      }
    }

    /** List k, and no other, is where list places differ. */
    ghost predicate Only(k: nat) {
      k < |lists| && forall j :: 0 <= j < |lists| && j != k ==> lists[j] != lists[k]
    }

    /** The list a generic item is on, by the value, and what taking it off means. */
    lemma FindGeneric(l: Lists, id: nat) returns (k: nat)
      requires Matches(l) && (InReady(l, id) || IsDelayed(l, id))
      requires !(Holds(l.delayed, id) && Holds(l.overflow, id)) && !(InReady(l, id) && IsDelayed(l, id))
      ensures Only(k) && lists[k].Valid() && IsGeneric(k) && Holds(lists[k].view, id)
      ensures ChangedAt(l, TakeGeneric(l, id), k, Remove(ViewOf(l, k), id))
      ensures ListsShape(TakeGeneric(l, id), cfg) && TakeGeneric(l, id).wake == l.wake
    {
      var p := cfg.priorities;
      TakeGenericShape(l, cfg, id);
      k := if InReady(l, id) then l.priority[id]
           else if Holds(l.delayed, id) == (delayed == lists[p]) then p else p + 1;
      AllDiffer(p);
      AllDiffer(k);
      assert lists[p].view == ViewOf(l, p) && lists[p+1].view == ViewOf(l, p + 1);
    }

    /** The list an event item is on, by the value, and what taking it off means. */
    lemma FindEvent(l: Lists, id: nat) returns (k: nat)
      requires Matches(l) && OneEventPlace(l, id) && (Holds(l.pending, id) || WaitsSomewhere(l, id))
      ensures Only(k) && lists[k].Valid() && !IsGeneric(k) && Holds(lists[k].view, id)
      ensures ChangedAt(l, TakeEvent(l, id), k, Remove(ViewOf(l, k), id))
      ensures ListsShape(TakeEvent(l, id), cfg) && TakeEvent(l, id).wake == l.wake
    {
      TakeEventShape(l, cfg, id);
      if Holds(l.pending, id) {
        k := cfg.priorities + 2;
      } else {
        var e: nat :| WaitsIn(l, id, e);
        k := cfg.priorities + 3 + e;
        assert TakeEvent(l, id) == l.(events := l.events[e := Remove(l.events[e], id)]);
      }
      AllDiffer(k);
      assert lists[k].view == ViewOf(l, k);
    }

    ghost predicate OnNoReadyList(l: Lists, id: nat) {
      forall p :: 0 <= p < |l.ready| ==> !Holds(l.ready[p], id)
    }

    lemma GenericIsFree(l: Lists, id: nat)
      requires Matches(l) && id < |blocks| && !IsDelayed(l, id) && OnNoReadyList(l, id)
      ensures Item(id, true).container == null
    {
      FreeIfNotHeld(id, true);
    }

    /** An event item is on a list exactly if the value says so: the test of its container pointer. */
    lemma EventIsFree(l: Lists, id: nat)
      requires Matches(l) && id < |blocks|
      ensures Item(id, false).container == null <==> !Holds(l.pending, id) && !WaitsSomewhere(l, id)
    {
      var p := cfg.priorities + 2;
      if Holds(l.pending, id) {
        assert lists[p].Valid() && lists[p].view == ViewOf(l, p);
        ItemOnList(p, id);
      } else if WaitsSomewhere(l, id) {
        var e: nat :| WaitsIn(l, id, e);
        assert lists[p+1+e].Valid() && lists[p+1+e].view == ViewOf(l, p + 1 + e);
        ItemOnList(p + 1 + e, id);
      } else {
        forall k | 0 <= k < |lists| && !IsGeneric(k)
          ensures !Holds(lists[k].view, id)
        {
          assert lists[k].view == ViewOf(l, k);
          assert k > p ==> !WaitsIn(l, id, k - p - 1);
        }
        FreeIfNotHeld(id, false);
      }
    }

    /** prvAddCoRoutineToReadyQueue, but for the top priority. */
    method ToReadyList(ghost l: Lists, id: nat)
      requires Matches(l) && id < |blocks| && OnNoReadyList(l, id) && !IsDelayed(l, id)
      modifies lists, items`next, items`previous, items`container
      ensures Matches(ToReady(l, id))
    {
      ghost var k := ReadyPlace(l, id);
      PutEnd(id, true, k, lists[blocks[id].priority]);
    }

    lemma ReadyPlace(l: Lists, id: nat) returns (k: nat)
      requires Matches(l) && id < |blocks| && OnNoReadyList(l, id) && !IsDelayed(l, id)
      ensures Item(id, true).container == null && Item(id, true).itemValue == l.wake[id] < cfg.modulus
      ensures Only(k) && lists[k].Valid() && IsGeneric(k) && k == blocks[id].priority
      ensures ChangedAt(l, ToReady(l, id), k, InsertEnd(ViewOf(l, k), Entry(id, l.wake[id])))
      ensures ListsShape(ToReady(l, id), cfg) && ToReady(l, id).wake == l.wake
    {
      k := l.priority[id];
      GenericIsFree(l, id);
      AllDiffer(k);
      ToReadyShape(l, cfg, id);
    }

    /** uxListRemove on a generic item. */
    method TakeGenericItem(ghost l: Lists, id: nat)
      requires Matches(l) && id < |blocks| && (InReady(l, id) || IsDelayed(l, id))
      requires !(Holds(l.delayed, id) && Holds(l.overflow, id)) && !(InReady(l, id) && IsDelayed(l, id))
      modifies lists, items`next, items`previous, items`container
      ensures Matches(TakeGeneric(l, id))
    {
      ghost var k := FindGeneric(l, id);
      Take(id, true, k);
    }

    /** uxListRemove on an event item, if it is on a list. */
    method TakeEventItem(ghost l: Lists, id: nat)
      requires Matches(l) && id < |blocks| && OneEventPlace(l, id)
      modifies lists, items`next, items`previous, items`container
      ensures Matches(TakeEvent(l, id))
    {
      EventIsFree(l, id);
      if blocks[id].event.container != null {
        ghost var k := FindEvent(l, id);
        Take(id, false, k);
      }
    }

    /** uxListRemove on a delayed generic item, and prvAddCoRoutineToReadyQueue. */
    method DelayedToReady(ghost l: Lists, id: nat)
      requires Matches(l) && id < |blocks| && IsDelayed(l, id) && !(Holds(l.delayed, id) && Holds(l.overflow, id))
      requires OnNoReadyList(l, id) && OnNoReadyList(TakeGeneric(l, id), id) && !IsDelayed(TakeGeneric(l, id), id)
      requires !InReady(l, id)
      modifies lists, items`next, items`previous, items`container
      ensures Matches(ToReady(TakeGeneric(l, id), id))
    {
      TakeGenericItem(l, id);
      ToReadyList(TakeGeneric(l, id), id);
    }

    /** vListInsert of a generic item into the delay or the overflow list. */
    method ToDelayList(ghost l: Lists, id: nat, overflown: bool)
      requires Matches(l) && id < |blocks| && OnNoReadyList(l, id) && !IsDelayed(l, id)
      modifies lists, items`next, items`previous, items`container
      ensures Matches(ToDelay(l, id, l.wake[id], overflown))
    {
      hide Known, Owned, Placed, Insert, Owners;
      ghost var k := DelayPlace(l, id, overflown);
      PutSorted(id, true, k, if overflown then overflow else delayed);
    }

    lemma DelayPlace(l: Lists, id: nat, overflown: bool) returns (k: nat)
      requires Matches(l) && id < |blocks| && OnNoReadyList(l, id) && !IsDelayed(l, id)
      ensures Item(id, true).container == null && Item(id, true).itemValue == l.wake[id] < cfg.modulus
      ensures Only(k) && lists[k].Valid() && IsGeneric(k) && lists[k] == if overflown then overflow else delayed
      ensures var l' := ToDelay(l, id, l.wake[id], overflown);
              && ChangedAt(l, l', k, Insert(ViewOf(l, k), Entry(id, l.wake[id])))
              && ListsShape(l', cfg) && l'.wake == l.wake
    {
      var p := cfg.priorities;
      k := if (delayed == lists[p]) == overflown then p + 1 else p;
      GenericIsFree(l, id);
      ToDelayShape(l, cfg, id, l.wake[id], overflown);
      AllDiffer(k);
      AllDiffer(p);
    }

    /** The moves of vCoRoutineAddToDelayedList on the generic item. */
    method ReadyToDelayed(ghost l: Lists, id: nat, time: nat, overflown: bool)
      requires Matches(l) && id < |blocks| && InReady(l, id) && !IsDelayed(l, id) && time < cfg.modulus
      requires OnNoReadyList(TakeGeneric(l, id), id) && !IsDelayed(TakeGeneric(l, id), id)
      modifies lists, items`next, items`previous, items`container, items`itemValue
      ensures Matches(ToDelay(TakeGeneric(l, id), id, time, overflown))
    {
      TakeGenericItem(l, id);
      ghost var t := TakeGeneric(l, id);
      GenericIsFree(t, id);
      SetWake(t, id, time);
      assert t.wake[id := time][id := time] == t.wake[id := time];
      ToDelayList(t.(wake := t.wake[id := time]), id, overflown);
    }

    /** All the moves of vCoRoutineAddToDelayedList. */
    method ReadyToDelayedAndWaiting(ghost l: Lists, id: nat, time: nat, overflown: bool, event: Option<nat>)
      requires Matches(l) && id < |blocks| && InReady(l, id) && !IsDelayed(l, id) && time < cfg.modulus
      requires OnNoReadyList(TakeGeneric(l, id), id) && !IsDelayed(TakeGeneric(l, id), id)
      requires var t := ToDelay(TakeGeneric(l, id), id, time, overflown);
               !WaitsSomewhere(t, id) && !Holds(t.pending, id) && |t.events| == cfg.eventLists &&
                 t.priority == l.priority
      requires event.Some? ==> event.value < cfg.eventLists
      modifies lists, items`next, items`previous, items`container, items`itemValue
      ensures var t := ToDelay(TakeGeneric(l, id), id, time, overflown);
              Matches(if event.Some? then ToEvent(t, id, event.value, EventValue(l.priority[id], cfg)) else t)
    {
      ReadyToDelayed(l, id, time, overflown);
      if event.Some? {
        ToEventList(ToDelay(TakeGeneric(l, id), id, time, overflown), id, event.value);
      }
    }

    /** listSET_LIST_ITEM_VALUE on a generic item that is on no list. */
    method SetWake(ghost l: Lists, id: nat, time: nat)
      requires Matches(l) && id < |blocks| && Item(id, true).container == null && time < cfg.modulus
      modifies Item(id, true)`itemValue
      ensures Matches(l.(wake := l.wake[id := time])) && Item(id, true).itemValue == time
    {
      FreeForever(id);
      blocks[id].generic.itemValue := time;
      forall j {:trigger lists[j].Valid()} | 0 <= j < |lists|
        ensures lists[j].Valid()
      {
        assert old(lists[j].Valid());
      }
    }

    lemma FreeForever(id: nat)
      requires Sane() && id < |blocks| && Item(id, true).container == null
      ensures forall j :: 0 <= j < |lists| ==> Item(id, true) !in lists[j].nodes
      ensures forall i :: 0 <= i < |blocks| ==>
        blocks[i].event != blocks[id].generic && (i != id ==> blocks[i].generic != blocks[id].generic)
    {
      assert Owned(id);
      FreeOnNone(lists, items, Item(id, true));
      forall i | 0 <= i < |blocks|
        ensures blocks[i].event != blocks[id].generic && (i != id ==> blocks[i].generic != blocks[id].generic)
      {
        assert Owned(i);
      }
    }

    /** vListInsert of an event item into an event list. */
    method ToEventList(ghost l: Lists, id: nat, e: nat)
      requires Matches(l) && id < |blocks| && e < cfg.eventLists && !WaitsSomewhere(l, id) && !Holds(l.pending, id)
      modifies lists, items`next, items`previous, items`container
      ensures Matches(ToEvent(l, id, e, EventValue(l.priority[id], cfg)))
    {
      ghost var k := EventListPlace(l, id, e);
      PutSorted(id, false, k, lists[cfg.priorities + 3 + e]);
    }

    lemma EventListPlace(l: Lists, id: nat, e: nat) returns (k: nat)
      requires Matches(l) && id < |blocks| && e < cfg.eventLists && !WaitsSomewhere(l, id) && !Holds(l.pending, id)
      ensures Item(id, false).container == null &&
        Item(id, false).itemValue == EventValue(l.priority[id], cfg) < cfg.modulus
      ensures Only(k) && lists[k].Valid() && !IsGeneric(k) && k == cfg.priorities + 3 + e
      ensures var value := EventValue(l.priority[id], cfg);
              && ChangedAt(l, ToEvent(l, id, e, value), k, Insert(ViewOf(l, k), Entry(id, value)))
              && ListsShape(ToEvent(l, id, e, value), cfg) && ToEvent(l, id, e, value).wake == l.wake
    {
      k := cfg.priorities + 3 + e;
      EventIsFree(l, id);
      ToEventShape(l, cfg, id, e, EventValue(l.priority[id], cfg));
      AllDiffer(k);
    }

    /** vListInsertEnd of an event item into the pending list. */
    method ToPendingList(ghost l: Lists, id: nat)
      requires Matches(l) && id < |blocks| && !WaitsSomewhere(l, id) && !Holds(l.pending, id)
      modifies lists, items`next, items`previous, items`container
      ensures Matches(l.(pending := InsertEnd(l.pending, Entry(id, EventValue(l.priority[id], cfg)))))
    {
      ghost var k := PendingPlace(l, id);
      PutEnd(id, false, k, lists[cfg.priorities + 2]);
    }

    /** uxListRemove of a waiting event item, and vListInsertEnd into the pending list. */
    method EventToPendingList(ghost l: Lists, id: nat)
      requires Matches(l) && id < |blocks| && OneEventPlace(l, id)
      requires !WaitsSomewhere(TakeEvent(l, id), id) && !Holds(TakeEvent(l, id).pending, id)
      modifies lists, items`next, items`previous, items`container
      ensures var t := TakeEvent(l, id);
              id < |t.priority| &&
                Matches(t.(pending := InsertEnd(t.pending, Entry(id, EventValue(t.priority[id], cfg)))))
    {
      TakeEventItem(l, id);
      ToPendingList(TakeEvent(l, id), id);
    }

    lemma PendingPlace(l: Lists, id: nat) returns (k: nat)
      requires Matches(l) && id < |blocks| && !WaitsSomewhere(l, id) && !Holds(l.pending, id)
      ensures Item(id, false).container == null &&
        Item(id, false).itemValue == EventValue(l.priority[id], cfg) < cfg.modulus
      ensures Only(k) && lists[k].Valid() && !IsGeneric(k) && k == cfg.priorities + 2
      ensures var l' := l.(pending := InsertEnd(l.pending, Entry(id, EventValue(l.priority[id], cfg))));
              && ChangedAt(l, l', k, InsertEnd(ViewOf(l, k), Entry(id, EventValue(l.priority[id], cfg))))
              && ListsShape(l', cfg) && l'.wake == l.wake
    {
      k := cfg.priorities + 2;
      EventIsFree(l, id);
      InsertShape(l.pending, EndPlace(l.pending), Entry(id, EventValue(l.priority[id], cfg)), |l.priority|, false);
      AllDiffer(k);
    }

    /** A new control block; junk is what the fresh memory holds for the generic item's value. */
    method NewBlock(ghost l: Lists, priority: nat, junk: nat) returns (id: nat)
      requires Matches(l) && priority < cfg.priorities && junk < cfg.modulus
      modifies this`blocks, this`items
      ensures id == |l.priority| < |blocks| && blocks[id].priority == priority && Matches(Allocate(l, priority, junk))
      ensures fresh(items - old(items)) && old(items) <= items
    {
      id := |blocks|;
      var b := FreshBlock(id, priority, junk, cfg.priorities - priority);
      AddBlock(l, b);
    }

    /** A new control block, made ready. */
    method NewReadyBlock(ghost l: Lists, priority: nat, junk: nat) returns (id: nat)
      requires Matches(l) && priority < cfg.priorities && junk < cfg.modulus
      requires var t := Allocate(l, priority, junk); OnNoReadyList(t, |l.priority|) && !IsDelayed(t, |l.priority|)
      modifies this`blocks, this`items, lists, items
      ensures id == |l.priority| < |blocks| && blocks[id].priority == priority
      ensures |l.wake| == |l.priority| && priority < |l.ready| &&
        l.ready[priority].cursor <= |l.ready[priority].entries|
      ensures Matches(ToReady(Allocate(l, priority, junk), id))
      ensures fresh(items - old(items)) && old(items) <= items
    {
      id := NewBlock(l, priority, junk);
      ToReadyList(Allocate(l, priority, junk), id);
    }

    /** The new control block is part of the memory from here on. */
    method AddBlock(ghost l: Lists, b: ControlBlock)
      requires Matches(l) && b.generic != b.event && b.generic !in items && b.event !in items
      requires b.generic.container == null && b.event.container == null
      requires b.generic.owner == b.event.owner == |blocks|
      requires b.priority < cfg.priorities && b.generic.itemValue < cfg.modulus
      requires b.event.itemValue == EventValue(b.priority, cfg)
      modifies this`items, this`blocks
      ensures items == old(items) + {b.generic, b.event} && blocks == old(blocks) + [b]
      ensures Matches(Allocate(l, b.priority, b.generic.itemValue))
    {
      hide Known, Owned, Placed, Separate;
      AllocateShape(l, cfg, b.priority, b.generic.itemValue);
      AddItems(b);
    }

    method AddItems(b: ControlBlock)
      requires Sane() && b.generic != b.event && b.generic !in items && b.event !in items
      requires b.generic.container == null && b.event.container == null
      requires b.generic.owner == b.event.owner == |blocks|
      modifies this`items, this`blocks
      ensures items == old(items) + {b.generic, b.event} && blocks == old(blocks) + [b]
      ensures Sane()
    {
      EndsAreItems();
      blocks := blocks + [b];
      items := items + {b.generic, b.event};
      forall k | 0 <= k < |lists|
        ensures Known(lists[k].nodes, IsGeneric(k))
      {
        assert old(Known(lists[k].nodes, IsGeneric(k)));
      }
      forall i | 0 <= i < |blocks| - 1
        ensures Owned(i) && Placed(i, true) && Placed(i, false)
      {
        assert old(Owned(i) && Placed(i, true) && Placed(i, false));
      }
      NewBlockIsSane(|blocks| - 1);
    }

    lemma EndsAreItems()
      requires Sane()
      ensures forall k :: 0 <= k < |lists| ==> lists[k].listEnd in items
    {
      forall k | 0 <= k < |lists|
        ensures lists[k].listEnd in items
      {
        assert lists[k].Valid() && lists[k].nodes[0] in lists[k].nodes;
      }
    }

    lemma NewBlockIsSane(n: nat)
      requires n == |blocks| - 1 && ValidConfig(cfg) && |lists| == cfg.priorities + 3 + cfg.eventLists
      requires Separate(lists, items) && Owned(n) && Item(n, true).container == null && Item(n, false).container == null
      requires forall k :: 0 <= k < |lists| ==>
        lists[k].maxDelay == cfg.modulus - 1 && Known(lists[k].nodes, IsGeneric(k))
      requires forall id :: 0 <= id < n ==> Owned(id) && Placed(id, true) && Placed(id, false)
      ensures Sane()
    {
    }

    /** The swap of the delay lists when the tick count wraps. */
    method SwapDelayLists(ghost l: Lists)
      requires Matches(l)
      modifies this`delayed, this`overflow
      ensures Matches(l.(delayed := l.overflow, overflow := l.delayed))
    {
      AllDiffer(cfg.priorities);
      delayed, overflow := overflow, delayed;
    }

    /** listGET_OWNER_OF_NEXT_ENTRY on a ready list. */
    method NextReady(ghost l: Lists, p: nat) returns (id: nat)
      requires Matches(l) && p < cfg.priorities && l.ready[p].entries != []
      modifies lists`index, lists`view
      ensures Matches(l.(ready := l.ready[p := Next(l.ready[p])]))
      ensures id == Picked(Next(l.ready[p])).owner
    {
      hide Known, Owned, Next, Picked, Owners;
      AllDiffer(p);
      WalkedShape(l, p);
      id := lists[p].OwnerOfNextEntry();
      forall j {:trigger lists[j].Valid()} | 0 <= j < |lists|
        ensures lists[j].Valid()
      {
        assert old(lists[j].Valid());
      }
    }

    lemma WalkedShape(l: Lists, p: nat)
      requires ListsShape(l, cfg) && p < cfg.priorities && l.ready[p].entries != []
      ensures ListsShape(l.(ready := l.ready[p := Next(l.ready[p])]), cfg)
    {
      assert ListShape(l.ready[p], |l.priority|, true);
    }

    lemma EmptyMemoryMatches(hardware: nat)
      requires Sane() && blocks == [] && delayed == lists[cfg.priorities] && overflow == lists[cfg.priorities + 1]
      requires forall k :: 0 <= k < |lists| ==> lists[k].view == EmptyView
      ensures Matches(Start(cfg, hardware).l)
    {
    }

    /** listLIST_IS_EMPTY and listGET_OWNER_OF_HEAD_ENTRY, with the head's value. */
    method Look(ghost l: Lists, ghost k: nat, list: List) returns (empty: bool, owner: nat, value: nat)
      requires Matches(l) && k < |lists| && lists[k] == list
      ensures empty <==> ViewOf(l, k).entries == []
      ensures !empty ==> Entry(owner, value) == ViewOf(l, k).entries[0] && owner < |blocks|
    {
      assert lists[k].Valid() && lists[k].view == ViewOf(l, k);
      empty := list.IsEmpty();
      if empty {
        owner, value := 0, 0;
      } else {
        owner, value := list.Head();
        OwnerAt(list.view.entries, owner);
      }
    }
  }
}
