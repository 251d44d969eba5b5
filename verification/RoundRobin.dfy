/**
  Fairness of the walking index: who is selected, and when, over whole runs of selections,
  additions at the end and removals.
 */
module RoundRobin {
  import opened ListViews

  /** The order in which selections would visit the entries from here. */
  function Rotation(v: ListView): seq<Entry>
    requires v.cursor <= |v.entries|
  {
    v.entries[v.cursor..] + v.entries[..v.cursor]
  }

  /** The entries returned by `k` successive selections. */
  function Picks(v: ListView, k: nat): (p: seq<Entry>)
    requires v.entries != [] && v.cursor <= |v.entries|
    ensures |p| == k
    decreases k
  {
    if k == 0 then [] else [Picked(Next(v))] + Picks(Next(v), k - 1)
  }

  lemma RotationOfNext(v: ListView)
    requires v.entries != [] && v.cursor <= |v.entries|
    ensures |Rotation(v)| == |Next(v).entries| == |v.entries| && 0 < Next(v).cursor <= |v.entries|
    ensures Rotation(v)[0] == Picked(Next(v))
    ensures Rotation(Next(v)) == Rotation(v)[1..] + [Rotation(v)[0]]
  {
  }

  lemma {:induction false} PicksFollowRotation(v: ListView, k: nat)
    requires v.entries != [] && v.cursor <= |v.entries| && k <= |v.entries|
    ensures Picks(v, k) == Rotation(v)[..k]
    decreases k
  {
    hide Rotation, Next, Picked;
    RotationOfNext(v);
    if k > 0 {
      PicksFollowRotation(Next(v), k - 1);
      assert Rotation(Next(v))[..k-1] == Rotation(v)[1..k];
    }
  }

  /** One round: as many selections as there are entries select each entry exactly once. */
  lemma RoundPicksEachOnce(v: ListView)
    requires v.entries != [] && v.cursor <= |v.entries|
    ensures Picks(v, |v.entries|) == Rotation(v)
    ensures multiset(Picks(v, |v.entries|)) == multiset(v.entries)
  {
    PicksFollowRotation(v, |v.entries|);
    assert v.entries == v.entries[..v.cursor] + v.entries[v.cursor..];
  }

  /** Where in the rotation the entry at place `k` comes. */
  function Turn(v: ListView, k: nat): nat
    requires v.cursor <= |v.entries| && k < |v.entries|
  {
    if k >= v.cursor then k - v.cursor else |v.entries| - v.cursor + k
  }

  lemma CutOut<T>(t: seq<T>, a: seq<T>, x: T, b: seq<T>)
    requires t == a + [x] + b
    ensures t[|a|] == x && t[..|a|] + t[|a|+1..] == a + b
  {
  }

  lemma TakenApart<T>(s: seq<T>, i: nat, k: nat)
    requires i <= k < |s|
    ensures s[i..] == s[i..k] + [s[k]] + s[k+1..]
    ensures s[..k+1] == s[..k] + [s[k]]
  {
  }

  /** Removing any entry leaves everybody else's turn order as it was. */
  lemma RemovalKeepsOrder(v: ListView, k: nat)
    requires v.cursor <= |v.entries| && k < |v.entries|
    ensures var turn := Turn(v, k);
            && Rotation(v)[turn] == v.entries[k]
            && Rotation(RemoveAt(v, k)) == Rotation(v)[..turn] + Rotation(v)[turn+1..]
  {
    if k >= v.cursor { RemovalAhead(v, k); } else { RemovalBehind(v, k); }
  }

  lemma RemovalAhead(v: ListView, k: nat)
    requires v.cursor <= k < |v.entries|
    ensures Rotation(v)[k - v.cursor] == v.entries[k]
    ensures Rotation(RemoveAt(v, k)) == Rotation(v)[..k - v.cursor] + Rotation(v)[k - v.cursor + 1..]
  {
    var s, c := v.entries, v.cursor;
    TakenApart(s, c, k);
    assert Rotation(v) == s[c..k] + [s[k]] + (s[k+1..] + s[..c]);
    CutOut(Rotation(v), s[c..k], s[k], s[k+1..] + s[..c]);
    CutAfter(s, c, k);
    assert s[c..k] + s[k+1..] + s[..c] == s[c..k] + (s[k+1..] + s[..c]);
  }

  lemma CutAfter<T>(s: seq<T>, c: nat, k: nat)
    requires c <= k < |s|
    ensures var t := s[..k] + s[k+1..]; t[c..] == s[c..k] + s[k+1..] && t[..c] == s[..c]
  {
  }

  lemma RemovalBehind(v: ListView, k: nat)
    requires k < v.cursor <= |v.entries|
    ensures Rotation(v)[|v.entries| - v.cursor + k] == v.entries[k]
    ensures var turn := |v.entries| - v.cursor + k;
            Rotation(RemoveAt(v, k)) == Rotation(v)[..turn] + Rotation(v)[turn+1..]
  {
    var s, c := v.entries, v.cursor;
    assert s[..c] == s[..k] + [s[k]] + s[k+1..c];
    CutOut(Rotation(v), s[c..] + s[..k], s[k], s[k+1..c]);
    assert (s[..k] + s[k+1..])[c-1..] == s[c..];
    assert (s[..k] + s[k+1..])[..c-1] == s[..k] + s[k+1..c];
  }

  /** Removing the entry just selected skips nobody and repeats nobody: the round goes on with
      the entries that were due, in their order. */
  lemma RemovalOfCurrentSkipsNobody(v: ListView)
    requires 0 < v.cursor <= |v.entries| && |v.entries| > 1
    ensures Picks(RemoveAt(v, v.cursor - 1), |v.entries| - 1) == Rotation(v)[..|v.entries| - 1]
    ensures Rotation(v)[|v.entries| - 1] == Picked(v)
  {
    RemovalKeepsOrder(v, v.cursor - 1);
    RoundPicksEachOnce(RemoveAt(v, v.cursor - 1));
  }

  /** Where an entry added at the end comes in the round that follows: last if the index stands on
      the end marker, and otherwise last but one, before the entry selected most recently. */
  lemma AdditionComesLast(v: ListView, e: Entry)
    requires v.cursor <= |v.entries|
    ensures var n := |v.entries|;
            Picks(InsertEnd(v, e), n + 1)
            == if v.cursor == 0 then v.entries + [e]
               else Rotation(v)[..n-1] + [e] + [Picked(v)]
  {
    RoundPicksEachOnce(InsertEnd(v, e));
    if v.cursor == 0 {
      assert InsertEnd(v, e).entries == v.entries + [e];
    } else {
      AdditionBeforeCurrent(v, e);
    }
  }

  lemma AdditionBeforeCurrent(v: ListView, e: Entry)
    requires 0 < v.cursor <= |v.entries|
    ensures Rotation(InsertEnd(v, e)) == Rotation(v)[..|v.entries|-1] + [e] + [Picked(v)]
  {
    var s, c := v.entries, v.cursor;
    var t := s[..c-1] + [e] + s[c-1..];
    TakenApart(s, c - 1, c - 1);
    assert t[c+1..] == s[c..];
    assert t[..c+1] == s[..c-1] + [e] + [s[c-1]];
    assert Rotation(v) == s[c..] + s[..c-1] + [s[c-1]];
    assert Rotation(v)[..|s|-1] == s[c..] + s[..c-1];
  }

  /** "Every other item is returned before the new one" (list.h) is exact only while the index
      stands on the end marker: otherwise the entry selected last comes after the new one. */
  lemma NewEntryWaitsForAllExactlyAtMarker(v: ListView, e: Entry)
    requires WellFormed(v) && !Holds(v, e.owner)
    ensures (forall x :: x in v.entries ==> x in Picks(InsertEnd(v, e), |v.entries| + 1)[..|v.entries|])
            <==> v.cursor == 0
  {
    hide Picks, Next, DistinctOwners;
    var n := |v.entries|;
    var p := Picks(InsertEnd(v, e), n + 1);
    AdditionComesLast(v, e);
    if v.cursor == 0 {
      assert p[..n] == v.entries;
    } else {
      var x := Picked(v);
      assert x in v.entries;
      OwnerAt(v.entries, e.owner);
      forall i | 0 <= i < n
        ensures p[i] != x
      {
        if i < n - 1 { RotationDistinct(v, i, n - 1); }
      }
    }
  }

  lemma RotationDistinct(v: ListView, i: nat, j: nat)
    requires WellFormed(v) && i < j < |v.entries|
    ensures Rotation(v)[i].owner != Rotation(v)[j].owner
  {
    var n, c := |v.entries|, v.cursor;
    assert Rotation(v)[i] == v.entries[if i < n - c then c + i else i - (n - c)];
    assert Rotation(v)[j] == v.entries[if j < n - c then c + j else j - (n - c)];
  }

  // ---------- no starvation under arbitrary traffic ----------

  datatype Op = Pick | Add(e: Entry) | Drop(owner: nat)

  ghost predicate Allowed(v: ListView, op: Op, capacity: nat) {
    match op
    case Pick => v.entries != []
    case Add(e) => !Holds(v, e.owner) && |v.entries| < capacity
    case Drop(o) => Holds(v, o)
  }

  function Apply(v: ListView, op: Op): ListView
    requires v.cursor <= |v.entries|
    requires op.Pick? ==> v.entries != []
    requires op.Drop? ==> Holds(v, op.owner)
  {
    match op
    case Pick => Next(v)
    case Add(e) => InsertEnd(v, e)
    case Drop(o) => Remove(v, o)
  }

  ghost predicate AllowedRun(v: ListView, ops: seq<Op>, capacity: nat)
    requires WellFormed(v)
    decreases |ops|
  {
    ops == [] || (&& Allowed(v, ops[0], capacity)
                  && WellFormed(Apply(v, ops[0]))
                  && AllowedRun(Apply(v, ops[0]), ops[1..], capacity))
  }

  /** The owners selected by a run, in order. */
  ghost function Selected(v: ListView, ops: seq<Op>, capacity: nat): seq<nat>
    requires WellFormed(v) && AllowedRun(v, ops, capacity)
    decreases |ops|
  {
    if ops == [] then [] else
      (if ops[0].Pick? then [Picked(Next(v)).owner] else []) + Selected(Apply(v, ops[0]), ops[1..], capacity)
  }

  /** How many selections an entry may still have to wait for, its own included. */
  ghost function Wait(v: ListView, owner: nat, capacity: nat): nat
    requires WellFormed(v) && Holds(v, owner)
  {
    var q := IndexOf(v.entries, owner) + 1;
    if v.cursor < q then q - v.cursor else |v.entries| - v.cursor + capacity
  }

  lemma WaitShrinksOnPick(v: ListView, owner: nat, capacity: nat)
    requires WellFormed(v) && Holds(v, owner) && |v.entries| <= capacity
    requires Picked(Next(v)).owner != owner
    ensures Wait(Next(v), owner, capacity) < Wait(v, owner, capacity)
  {
  }

  lemma WaitKeptOnAdd(v: ListView, e: Entry, owner: nat, capacity: nat)
    requires WellFormed(v) && Holds(v, owner) && !Holds(v, e.owner)
    ensures WellFormed(InsertEnd(v, e)) && Holds(InsertEnd(v, e), owner)
    ensures Wait(InsertEnd(v, e), owner, capacity) == Wait(v, owner, capacity)
  {
    var w, k, q := InsertEnd(v, e), EndPlace(v), IndexOf(v.entries, owner);
    InsertAtMembers(v, k, e);
    var q' := if q < k then q else q + 1;
    assert w.entries[q'] == v.entries[q];
    PlaceIsUnique(w.entries, q');
  }

  lemma WaitShrinksOnDrop(v: ListView, o: nat, owner: nat, capacity: nat)
    requires WellFormed(v) && Holds(v, owner) && Holds(v, o) && o != owner
    ensures WellFormed(Remove(v, o)) && Holds(Remove(v, o), owner)
    ensures Wait(Remove(v, o), owner, capacity) <= Wait(v, owner, capacity)
  {
    var w, k, q := Remove(v, o), IndexOf(v.entries, o), IndexOf(v.entries, owner);
    RemoveMembers(v, o);
    var q' := if q < k then q else q - 1;
    assert w.entries[q'] == v.entries[q];
    PlaceIsUnique(w.entries, q');
  }

  lemma WaitShrinks(v: ListView, op: Op, owner: nat, capacity: nat)
    requires WellFormed(v) && Holds(v, owner) && |v.entries| <= capacity
    requires Allowed(v, op, capacity) && op != Drop(owner)
    ensures WellFormed(Apply(v, op)) && |Apply(v, op).entries| <= capacity && Holds(Apply(v, op), owner)
    ensures op.Pick? && Picked(Next(v)).owner != owner ==>
      Wait(Apply(v, op), owner, capacity) < Wait(v, owner, capacity)
    ensures !op.Pick? ==> Wait(Apply(v, op), owner, capacity) <= Wait(v, owner, capacity)
  {
    match op
    case Pick =>
      if Picked(Next(v)).owner != owner { WaitShrinksOnPick(v, owner, capacity); }
    case Add(e) => WaitKeptOnAdd(v, e, owner, capacity);
    case Drop(o) => WaitShrinksOnDrop(v, o, owner, capacity);
  }

  /** Bounded waiting: whatever is added and removed around it, an entry that stays in a list of at
      most `capacity` entries is selected by the `Wait`-th selection, hence within every
      2 * capacity - 1 selections. */
  lemma {:induction false} BoundedWaiting(v: ListView, ops: seq<Op>, owner: nat, capacity: nat)
    requires WellFormed(v) && Holds(v, owner) && |v.entries| <= capacity
    requires AllowedRun(v, ops, capacity)
    requires Drop(owner) !in ops
    requires |Selected(v, ops, capacity)| >= Wait(v, owner, capacity)
    ensures owner in Selected(v, ops, capacity)[..Wait(v, owner, capacity)]
    ensures Wait(v, owner, capacity) <= 2 * capacity - 1
    decreases |ops|
  {
    var op, w, n := ops[0], Apply(v, ops[0]), Wait(v, owner, capacity);
    var sel := Selected(v, ops, capacity);
    if op.Pick? && Picked(Next(v)).owner == owner {
      assert sel[0] == owner;
    } else {
      WaitShrinks(v, op, owner, capacity);
      BoundedWaiting(w, ops[1..], owner, capacity);
      FoundInRest(if op.Pick? then [Picked(Next(v)).owner] else [], Selected(w, ops[1..], capacity),
                  Wait(w, owner, capacity), n, owner);
    }
  }

  lemma FoundInRest(first: seq<nat>, rest: seq<nat>, m: nat, n: nat, owner: nat)
    requires |first| + m <= n <= |first| + |rest|
    requires owner in rest[..m]
    ensures owner in (first + rest)[..n]
  {
    var i :| 0 <= i < m && rest[i] == owner;
    assert (first + rest)[|first| + i] == owner;
  }

  // ---------- the bound is tight ----------

  /** Each of the entries is selected, removed and added again. */
  function Turns(es: seq<Entry>): seq<Op> {
    if es == [] then [] else [Pick] + ([Drop(es[0].owner)] + ([Add(es[0])] + Turns(es[1..])))
  }

  function Picking(n: nat): seq<Op> {
    if n == 0 then [] else [Pick] + Picking(n - 1)
  }

  function OwnersInOrder(es: seq<Entry>): (r: seq<nat>)
    ensures |r| == |es|
  {
    if es == [] then [] else [es[0].owner] + OwnersInOrder(es[1..])
  }

  /** The entry behind a gets its turn, and comes to stand before a. */
  lemma OneTurn(done: seq<Entry>, a: Entry, e: Entry, rest: seq<Entry>)
    requires WellFormed(ListView(done + [a] + ([e] + rest), |done| + 1))
    ensures var v := ListView(done + [a] + ([e] + rest), |done| + 1);
            && Picked(Next(v)) == e && Holds(Next(v), e.owner) && WellFormed(Next(v))
            && var w := Remove(Next(v), e.owner);
            && w == ListView(done + [a] + rest, |done| + 1) && WellFormed(w) && !Holds(w, e.owner)
            && InsertEnd(w, e) == ListView((done + [e]) + [a] + rest, |done + [e]| + 1) && WellFormed(InsertEnd(w, e))
  {
    var v := ListView(done + [a] + ([e] + rest), |done| + 1);
    var k := |done| + 1;
    assert v.entries[k] == e && v.entries[..k] == done + [a] && v.entries[k+1..] == rest;
    PlaceIsUnique(v.entries, k);
    RemoveMembers(Next(v), e.owner);
    var w := Remove(Next(v), e.owner);
    assert w.entries[..|done|] == done && w.entries[|done|..] == [a] + rest;
    InsertAtMembers(w, EndPlace(w), e);
    assert done + [e] + ([a] + rest) == (done + [e]) + [a] + rest;
  }

  lemma FirstOp(v: ListView, op: Op, tail: seq<Op>, capacity: nat)
    requires WellFormed(v) && Allowed(v, op, capacity) && WellFormed(Apply(v, op)) &&
      AllowedRun(Apply(v, op), tail, capacity)
    ensures AllowedRun(v, [op] + tail, capacity)
    ensures Selected(v, [op] + tail, capacity)
            == (if op.Pick? then [Picked(Next(v)).owner] else []) + Selected(Apply(v, op), tail, capacity)
  {
    assert ([op] + tail)[1..] == tail;
    hide Apply, Allowed;
  }

  lemma ThreeOps(v: ListView, e: Entry, tail: seq<Op>, capacity: nat)
    requires WellFormed(v) && v.entries != [] && |v.entries| <= capacity
    requires Holds(Next(v), e.owner) && WellFormed(Next(v)) && Picked(Next(v)) == e
    requires var w := Remove(Next(v), e.owner);
             && WellFormed(w) && !Holds(w, e.owner) && |w.entries| < |v.entries| && WellFormed(InsertEnd(w, e))
             && AllowedRun(InsertEnd(w, e), tail, capacity)
    ensures var w, ops := Remove(Next(v), e.owner), [Pick] + ([Drop(e.owner)] + ([Add(e)] + tail));
            AllowedRun(v, ops, capacity) &&
              Selected(v, ops, capacity) == [e.owner] + Selected(InsertEnd(w, e), tail, capacity)
  {
    hide AllowedRun, Selected, Remove, InsertEnd, Holds;
    var w := Remove(Next(v), e.owner);
    FirstOp(w, Add(e), tail, capacity);
    FirstOp(Next(v), Drop(e.owner), [Add(e)] + tail, capacity);
    FirstOp(v, Pick, [Drop(e.owner)] + ([Add(e)] + tail), capacity);
  }

  lemma {:induction false} TurnsOfAll(done: seq<Entry>, a: Entry, es: seq<Entry>, tail: seq<Op>, capacity: nat)
    requires WellFormed(ListView(done + [a] + es, |done| + 1)) && |done| + 1 + |es| <= capacity
    requires WellFormed(ListView(done + es + [a], |done| + |es| + 1))
    requires AllowedRun(ListView(done + es + [a], |done| + |es| + 1), tail, capacity)
    ensures var v, w := ListView(done + [a] + es, |done| + 1), ListView(done + es + [a], |done| + |es| + 1);
            && AllowedRun(v, Turns(es) + tail, capacity)
            && Selected(v, Turns(es) + tail, capacity) == OwnersInOrder(es) + Selected(w, tail, capacity)
    decreases |es|
  {
    hide AllowedRun, Selected, Remove, InsertEnd, WellFormed;
    if es == [] {
      assert done + [a] + es == done + es + [a] && Turns(es) + tail == tail;
    } else {
      var e, rest := es[0], es[1..];
      assert es == [e] + rest && done + es + [a] == (done + [e]) + rest + [a];
      OneTurn(done, a, e, rest);
      TurnsOfAll(done + [e], a, rest, tail, capacity);
      ThreeOps(ListView(done + [a] + es, |done| + 1), e, Turns(rest) + tail, capacity);
      assert Turns(es) + tail == [Pick] + ([Drop(e.owner)] + ([Add(e)] + (Turns(rest) + tail)));
    }
  }

  lemma FullTurn(a: Entry, es: seq<Entry>, tail: seq<Op>, capacity: nat)
    requires WellFormed(ListView([a] + es, 1)) && 1 + |es| <= capacity
    requires WellFormed(ListView(es + [a], |es| + 1)) && AllowedRun(ListView(es + [a], |es| + 1), tail, capacity)
    ensures AllowedRun(ListView([a] + es, 1), Turns(es) + tail, capacity)
    ensures Selected(ListView([a] + es, 1), Turns(es) + tail, capacity)
            == OwnersInOrder(es) + Selected(ListView(es + [a], |es| + 1), tail, capacity)
  {
    hide AllowedRun, Selected, WellFormed, Turns, OwnersInOrder;
    assert [] + [a] + es == [a] + es && [] + es + [a] == es + [a];
    TurnsOfAll([], a, es, tail, capacity);
  }

  lemma {:induction false} PicksAsOps(v: ListView, n: nat, capacity: nat)
    requires WellFormed(v) && v.entries != []
    ensures AllowedRun(v, Picking(n), capacity) && Selected(v, Picking(n), capacity) == OwnersInOrder(Picks(v, n))
    decreases n
  {
    if n > 0 {
      PicksAsOps(Next(v), n - 1, capacity);
      assert Picking(n)[1..] == Picking(n - 1);
      assert Picks(v, n)[1..] == Picks(Next(v), n - 1);
    }
  }

  lemma {:induction false} NobodyDropsBut(es: seq<Entry>, owner: nat)
    requires forall i :: 0 <= i < |es| ==> es[i].owner != owner
    ensures Drop(owner) !in Turns(es)
    decreases |es|
  {
    if es != [] { NobodyDropsBut(es[1..], owner); }
  }

  lemma {:induction false} OnlyPicks(n: nat, owner: nat)
    ensures Drop(owner) !in Picking(n)
  {
    if n > 0 { OnlyPicks(n - 1, owner); }
  }

  lemma {:induction false} OwnersInOrderAppend(es: seq<Entry>, a: Entry)
    ensures OwnersInOrder(es + [a]) == OwnersInOrder(es) + [a.owner]
    decreases |es|
  {
    if es == [] {
      assert es + [a] == [a];
    } else {
      assert (es + [a])[0] == es[0] && (es + [a])[1..] == es[1..] + [a];
      OwnersInOrderAppend(es[1..], a);
    }
  }

  /** The bound is tight for every size of the list: when a has just been selected, all the others can
      have two turns each before its next, if each is removed and added again after its first. */
  lemma BoundIsTight(a: Entry, others: seq<Entry>)
    requires DistinctOwners([a] + others)
    ensures var v, n := ListView([a] + others, 1), |others| + 1;
            var ops := Turns(others) + Picking(n);
            && WellFormed(v) && Holds(v, a.owner) && Wait(v, a.owner, n) == 2 * n - 1
            && AllowedRun(v, ops, n) && Drop(a.owner) !in ops
            && Selected(v, ops, n) == OwnersInOrder(others) + (OwnersInOrder(others) + [a.owner])
            && a.owner !in OwnersInOrder(others)
  {
    hide AllowedRun, Selected, WellFormed, DistinctOwners, Wait, Rotation, Holds, Picks, Turns, Picking, OwnersInOrder;
    var v, n := ListView([a] + others, 1), |others| + 1;
    var w := ListView(others + [a], n);
    Extremes(a, others);
    PicksFollowRotation(w, n);
    PicksAsOps(w, n, n);
    OwnersInOrderAppend(others, a);
    FullTurn(a, others, Picking(n), n);
    NobodyDropsBut(others, a.owner);
    OnlyPicks(n, a.owner);
    NotAmongOwners(others, a.owner);
  }

  lemma Extremes(a: Entry, others: seq<Entry>)
    requires DistinctOwners([a] + others)
    ensures var v, w, n := ListView([a] + others, 1), ListView(others + [a], |others| + 1), |others| + 1;
            && WellFormed(v) && WellFormed(w) && Holds(v, a.owner) && Wait(v, a.owner, n) == 2 * n - 1
            && Rotation(w) == others + [a] && Rotation(w)[..n] == others + [a]
            && forall i :: 0 <= i < |others| ==> others[i].owner != a.owner
  {
    var v := ListView([a] + others, 1);
    PlaceIsUnique(v.entries, 0);
    assert v.entries[0] == a && forall i :: 0 <= i < |others| ==> others[i] == v.entries[i+1];
  }

  lemma {:induction false} NotAmongOwners(es: seq<Entry>, owner: nat)
    requires forall i :: 0 <= i < |es| ==> es[i].owner != owner
    ensures owner !in OwnersInOrder(es)
    decreases |es|
  {
    if es != [] { NotAmongOwners(es[1..], owner); }
  }
}
