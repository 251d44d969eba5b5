/**
  What a kernel list means, as a value: the entries in link order after the end marker, and the
  place of the walking index (0 is the end marker, k is entry k-1).  The pointer code of
  `KernelList` is proved to compute the functions below; this module proves what they promise.
 */
module ListViews {

  /** A list item as its list sees it: the control block that owns it, and the value it is sorted by. */
  datatype Entry = Entry(owner: nat, value: nat)

  datatype ListView = ListView(entries: seq<Entry>, cursor: nat)

  const EmptyView := ListView([], 0)

  ghost predicate DistinctOwners(s: seq<Entry>) {
    forall i, j :: 0 <= i < j < |s| ==> s[i].owner != s[j].owner
  }

  ghost predicate WellFormed(v: ListView) {
    v.cursor <= |v.entries| && DistinctOwners(v.entries)
  }

  predicate Holds(v: ListView, owner: nat) {
    owner in Owners(v.entries)
  }

  function Owners(s: seq<Entry>): set<nat> {
    if s == [] then {} else {s[0].owner} + Owners(s[1..])
  }

  lemma {:induction false} OwnerAt(s: seq<Entry>, owner: nat)
    ensures owner in Owners(s) <==> exists i :: 0 <= i < |s| && s[i].owner == owner
  {
    if s != [] {
      OwnerAt(s[1..], owner);
      if i :| 0 < i < |s| && s[i].owner == owner { assert s[1..][i-1].owner == owner; }
    }
  }

  /** The place of an owner's entry. */
  function IndexOf(s: seq<Entry>, owner: nat): (i: nat)
    requires owner in Owners(s)
    ensures i < |s| && s[i].owner == owner
    ensures forall j :: 0 <= j < i ==> s[j].owner != owner
  {
    if s[0].owner == owner then 0 else 1 + IndexOf(s[1..], owner)
  }

  // ---------- the operations ----------

  function InsertAt(v: ListView, k: nat, e: Entry): ListView
    requires k <= |v.entries|
  {
    ListView(v.entries[..k] + [e] + v.entries[k..], if v.cursor > k then v.cursor + 1 else v.cursor)
  }

  function RemoveAt(v: ListView, k: nat): ListView
    requires k < |v.entries|
  {
    ListView(v.entries[..k] + v.entries[k+1..], if v.cursor > k then v.cursor - 1 else v.cursor)
  }

  /** The end of the rotation: just before the entry (or marker) the index stands on. */
  function EndPlace(v: ListView): nat
    requires v.cursor <= |v.entries|
  {
    if v.cursor == 0 then |v.entries| else v.cursor - 1
  }

  function InsertEnd(v: ListView, e: Entry): ListView
    requires v.cursor <= |v.entries|
  {
    InsertAt(v, EndPlace(v), e)
  }

  /** The first place whose entry has a greater value: where the search of a sorted insert stops. */
  function SortedPlace(s: seq<Entry>, value: nat): (k: nat)
    ensures k <= |s|
    ensures forall i :: 0 <= i < k ==> s[i].value <= value
    ensures k < |s| ==> s[k].value > value
  {
    if s == [] || s[0].value > value then 0 else 1 + SortedPlace(s[1..], value)
  }

  function Insert(v: ListView, e: Entry): ListView {
    InsertAt(v, SortedPlace(v.entries, e.value), e)
  }

  function Remove(v: ListView, owner: nat): ListView
    requires Holds(v, owner)
  {
    RemoveAt(v, IndexOf(v.entries, owner))
  }

  /** The index walks on to the next entry, passing over the end marker. */
  function Next(v: ListView): ListView
    requires v.entries != [] && v.cursor <= |v.entries|
  {
    v.(cursor := if v.cursor == |v.entries| then 1 else v.cursor + 1)
  }

  function Picked(v: ListView): Entry
    requires 0 < v.cursor <= |v.entries|
  {
    v.entries[v.cursor - 1]
  }

  // ---------- sorted, stable insertion ----------

  ghost predicate Sorted(s: seq<Entry>) {
    forall i, j :: 0 <= i < j < |s| ==> s[i].value <= s[j].value
  }

  lemma Spliced(s: seq<Entry>, k: nat, e: Entry)
    requires k <= |s|
    ensures forall i :: 0 <= i <= |s| ==>
              (s[..k] + [e] + s[k..])[i] == if i < k then s[i] else if i == k then e else s[i-1]
  {
  }

  lemma SplitByValue(s: seq<Entry>, value: nat)
    requires Sorted(s)
    ensures forall i :: 0 <= i < |s| ==> (i < SortedPlace(s, value) <==> s[i].value <= value)
  {
  }

  /** In a sorted list the new entry goes after every entry of the same or a smaller value and
      before every greater one, the others keep their order, and the list stays sorted; the index
      stays on its entry, or on the marker. */
  lemma InsertIsSortedAndStable(v: ListView, e: Entry)
    requires Sorted(v.entries)
    ensures Sorted(Insert(v, e).entries)
    ensures var k := SortedPlace(v.entries, e.value);
            && Insert(v, e).entries == v.entries[..k] + [e] + v.entries[k..]
            && (forall i :: 0 <= i < |v.entries| ==> (i < k <==> v.entries[i].value <= e.value))
    ensures v.cursor == 0 ==> Insert(v, e).cursor == 0
    ensures 0 < v.cursor <= |v.entries| ==> Picked(Insert(v, e)) == Picked(v)
  {
    SplitByValue(v.entries, e.value);
    Spliced(v.entries, SortedPlace(v.entries, e.value), e);
  }

  // ---------- who is where after an operation ----------

  lemma PlaceIsUnique(s: seq<Entry>, i: nat)
    requires DistinctOwners(s) && i < |s|
    ensures s[i].owner in Owners(s) && IndexOf(s, s[i].owner) == i
  {
    OwnerAt(s, s[i].owner);
  }

  lemma {:induction false} OwnersOfConcat(s: seq<Entry>, t: seq<Entry>)
    ensures Owners(s + t) == Owners(s) + Owners(t)
  {
    if s == [] {
      assert s + t == t;
    } else {
      assert (s + t)[1..] == s[1..] + t;
      OwnersOfConcat(s[1..], t);
    }
  }

  /** The parts of a list around place k. */
  lemma OwnersAround(s: seq<Entry>, k: nat)
    requires k < |s|
    ensures Owners(s) == Owners(s[..k]) + {s[k].owner} + Owners(s[k+1..])
  {
    assert s == s[..k] + ([s[k]] + s[k+1..]);
    OwnersOfConcat(s[..k], [s[k]] + s[k+1..]);
    OwnersOfConcat([s[k]], s[k+1..]);
  }

  lemma InsertedIsDistinct(s: seq<Entry>, k: nat, e: Entry)
    requires DistinctOwners(s) && k <= |s| && e.owner !in Owners(s)
    ensures DistinctOwners(s[..k] + [e] + s[k..])
  {
    OwnerAt(s, e.owner);
    Spliced(s, k, e);
  }

  lemma InsertAtMembers(v: ListView, k: nat, e: Entry)
    requires WellFormed(v) && k <= |v.entries| && !Holds(v, e.owner)
    ensures WellFormed(InsertAt(v, k, e))
    ensures Owners(InsertAt(v, k, e).entries) == Owners(v.entries) + {e.owner}
  {
    var s, t := v.entries, InsertAt(v, k, e).entries;
    OwnersAround(t, k);
    assert t[..k] == s[..k] && t[k+1..] == s[k..] && s == s[..k] + s[k..];
    OwnersOfConcat(s[..k], s[k..]);
    InsertedIsDistinct(s, k, e);
  }

  lemma RemovedIsDistinct(s: seq<Entry>, k: nat)
    requires DistinctOwners(s) && k < |s|
    ensures DistinctOwners(s[..k] + s[k+1..])
  {
    var t := s[..k] + s[k+1..];
    assert forall i :: 0 <= i < |t| ==> t[i] == s[if i < k then i else i + 1];
  }

  lemma RemoveMembers(v: ListView, owner: nat)
    requires WellFormed(v) && Holds(v, owner)
    ensures WellFormed(Remove(v, owner))
    ensures Owners(Remove(v, owner).entries) == Owners(v.entries) - {owner}
  {
    var s, k := v.entries, IndexOf(v.entries, owner);
    OwnersAround(s, k);
    OwnersOfConcat(s[..k], s[k+1..]);
    OwnerAt(s[..k], owner);
    OwnerAt(s[k+1..], owner);
    RemovedIsDistinct(s, k);
  }
}
