/** A fixed array of sorted lists; the hash of a key picks the list. */
module HashSet {
  import opened Bytes
  import opened ByteOrder
  import opened Footprints
  import opened Sharding
  import Entry
  import opened SortedList

  /** A list in good order, with this for its own. */
  ghost predicate Sound(b: SortedList, own: set<object>, greatest: Bytes)
    reads b, b.Own, b.Kept
  {
    b.Own == own && b.Valid() && b.Greatest() == greatest
  }

  ghost function ViewsOf(lists: seq<SortedList>): seq<map<Bytes, Bytes>>
    reads lists
  {
    seq(|lists|, i requires 0 <= i < |lists| reads lists => lists[i].View())
  }

  predicate OpenedSet(k: int) { true }

  class HashSet {
    const buckets: array<SortedList>
    ghost const lists: seq<SortedList>
    ghost const greatest: Bytes
    ghost var view: map<Bytes, Bytes>
    ghost var owns: seq<set<object>>   // what each list may change
    ghost var Own: set<object>         // what the set may change
    ghost var Kept: set<object>        // what it only reads

    /** The footprint of one list is part of the whole. */
    ghost predicate PartAt(i: nat)
      requires i < |lists| == |owns|
      reads this`owns, this`Own, this`Kept, lists
    {
      lists[i] in owns[i] && lists[i].Own == owns[i] <= Own && lists[i].Kept <= Kept
    }

    /** The lists, each sound and none owning anything of another. */
    ghost predicate Buckets()
      reads this`owns, this`Own, this`Kept, buckets, lists, Own, Kept
    {
      && this in Own && buckets in Own && Own !! Kept
      && buckets[..] == lists && |lists| == |owns| > 0 && Disjoint(owns)
      && (forall i | 0 <= i < |lists| :: PartAt(i) && this !in owns[i] && buckets !in owns[i])
      && forall i | 0 <= i < |lists| :: PartAt(i) && Sound(lists[i], owns[i], greatest)
    }

    /** `Buckets`, spelled out only where `OpenedSet` is named, and agreement on every key. */
    ghost predicate Valid()
      reads this, Own, Kept
    {
      forall o | OpenedSet(o) :: buckets in Own && (forall b | b in lists :: b in Own) && Buckets() && Agrees(view, ViewsOf(lists))
    }

    constructor (len: nat, max: Entry.Entry)
      requires len > 0 && max.Valid()
      ensures Valid() && fresh(Own) && this in Own && Kept == {max, max.data}
      ensures view == map[max.Key() := max.Value()] && greatest == max.Key() && buckets.Length == len
    {
      var made;
      ghost var all;
      made, all := MakeLists(len, max);
      buckets := made;
      lists, owns := made[..], all;
      greatest, view := max.Key(), map[max.Key() := max.Value()];
      Own, Kept := {this, made} + Union(all), {max, max.data};
      new;
      Begin(max);
    }

    /** The lists as they are made are one map with one key. */
    lemma Begin(max: Entry.Entry)
      requires buckets[..] == lists && |lists| > 0 && Begun(lists, owns, max) && max.Valid()
      requires Own == {this, buckets} + Union(owns) && Kept == {max, max.data} && Own !! Kept
      requires this !in Union(owns) && buckets !in Union(owns)
      requires greatest == max.Key() && view == map[max.Key() := max.Value()]
      ensures Valid()
    {
      forall i | 0 <= i < |lists| ensures PartAt(i) && Sound(lists[i], owns[i], greatest) && this !in owns[i] && buckets !in owns[i] {
        assert NewAt(lists, owns, max, i);
        assert forall o | o in owns[i] :: o in Union(owns);
      }
      forall k ensures AgreesOn(view, ViewsOf(lists)[Entry.Hash(k) % |lists|], k) {
        assert NewAt(lists, owns, max, Entry.Hash(k) % |lists|);
      }
    }

    /** The list that answers for a key. */
    function Index(hash: nat): nat
      requires buckets.Length > 0
    {
      hash % buckets.Length
    }

    /** The entry bound to the key of `probe`, or null. */
    method Get(probe: Entry.Entry) returns (r: Entry.Entry?)
      requires Valid() && probe.Valid() && probe.Hashed() && !Below(greatest, probe.Key())
      ensures r == null <==> probe.Key() !in view
      ensures r != null ==> r.Valid() && r.Key() == probe.Key() && r.Value() == view[probe.Key()]
    {
      assert OpenedSet(0);
      var i := Index(probe.hash);
      assert Sound(lists[i], owns[i], greatest) && AgreesOn(view, ViewsOf(lists)[i], probe.Key()) && buckets[..][i] == lists[i];
      r := buckets[i].Get(probe.Key());
    }

    method Add(entry: Entry.Entry) returns (ok: bool)
      requires Valid() && entry.Valid() && entry.Hashed() && !Below(greatest, entry.Key())
      requires entry !in Own && entry.data !in Own
      modifies this, Own
      ensures Valid() && ok && old(Own) <= Own && fresh(Own - old(Own)) && Kept == old(Kept) + {entry, old(entry.data)}
      ensures view == old(view[entry.Key() := entry.Value()])
    {
      assert OpenedSet(0);
      var i := Index(entry.hash);
      ghost var key, value := entry.Key(), entry.Value();
      AgreesAfter(view, ViewsOf(lists), key, value);
      ok := AddTo(i, entry);
      Bind(key, value);
    }

    ghost method Bind(key: Bytes, value: Bytes)
      requires Buckets() && Agrees(view[key := value], ViewsOf(lists))
      modifies this`view
      ensures Valid() && view == old(view)[key := value]
    {
      assert forall i | 0 <= i < |lists| :: PartAt(i) ==> lists[i] in Own;
      view := view[key := value];
    }

    method AddTo(i: nat, entry: Entry.Entry) returns (ok: bool)
      requires Buckets() && i < |lists| && entry.Valid() && !Below(greatest, entry.Key())
      requires entry !in Own && entry.data !in Own
      modifies this`owns, this`Own, this`Kept, Own - {this}
      ensures Buckets() && ok && old(Own) <= Own && fresh(Own - old(Own)) && Kept == old(Kept) + {entry, old(entry.data)}
      ensures ViewsOf(lists) == old(ViewsOf(lists)[i := lists[i].View()[entry.Key() := entry.Value()]])
    {
      ghost var block := entry.data;
      Others(i);
      assert PartAt(i) && Sound(lists[i], owns[i], greatest);
      ok := AddAt(i, entry);
      Absorb(i, {entry, block});
    }

    lemma Others(i: nat)
      requires i < |lists| == |owns| && Disjoint(owns) && Own !! Kept && forall j | 0 <= j < |lists| :: PartAt(j)
      ensures forall j | 0 <= j < |lists| && j != i :: OtherPart(i, j)
    {
      forall j | 0 <= j < |lists| && j != i ensures OtherPart(i, j) {
        assert PartAt(i) && PartAt(j);
        assert j < i ==> owns[j] !! owns[i];
        assert i < j ==> owns[i] !! owns[j];
      }
    }

    /** List `j` has nothing that list `i` may change. */
    ghost predicate OtherPart(i: nat, j: nat)
      requires i < |lists| == |owns| && j < |lists|
      reads this`owns, lists
    {
      lists[j] in owns[j] && owns[j] !! owns[i] && lists[j].Kept !! owns[i]
    }

    /** The step itself, in one list. */
    method AddAt(i: nat, entry: Entry.Entry) returns (ok: bool)
      requires buckets[..] == lists && |lists| == |owns| && i < |lists| && entry.Valid() && !Below(greatest, entry.Key())
      requires entry !in owns[i] && entry.data !in owns[i]
      requires lists[i] in owns[i] && this !in owns[i] && buckets !in owns[i]
      requires forall j | 0 <= j < |lists| :: Sound(lists[j], owns[j], greatest)
      requires forall j | 0 <= j < |lists| && j != i :: OtherPart(i, j)
      modifies owns[i]
      ensures ok && fresh(lists[i].Own - old(owns[i])) && Sound(lists[i], lists[i].Own, greatest) && lists[i] in lists[i].Own
      ensures lists[i].Kept == old(lists[i].Kept) + {entry, old(entry.data)}
      ensures forall j | 0 <= j < |lists| && j != i :: Sound(lists[j], owns[j], greatest) && unchanged(lists[j])
      ensures ViewsOf(lists) == old(ViewsOf(lists)[i := lists[i].View()[entry.Key() := entry.Value()]])
    {
      assert Sound(lists[i], owns[i], greatest) && buckets[..][i] == lists[i];
      ok := buckets[i].Add(entry);
      forall j | 0 <= j < |lists| && j != i ensures Sound(lists[j], owns[j], greatest) && unchanged(lists[j]) {
        assert old(Sound(lists[j], owns[j], greatest)) && old(OtherPart(i, j));
      }
    }

    /** Takes note of what list `i` has become. */
    ghost method Absorb(i: nat, more: set<object>)
      requires this in Own && buckets in Own && Own !! Kept && more !! Own
      requires buckets[..] == lists && |lists| == |owns| && i < |lists| && Disjoint(owns)
      requires forall j | 0 <= j < |lists| && j != i :: PartAt(j) && this !in owns[j] && buckets !in owns[j]
      requires forall j | 0 <= j < |lists| && j != i :: PartAt(j) && Sound(lists[j], owns[j], greatest)
      requires Sound(lists[i], lists[i].Own, greatest) && lists[i] in lists[i].Own
      requires owns[i] <= Own && (lists[i].Own - owns[i]) !! Own && (lists[i].Own - owns[i]) !! Kept + more
      requires this !in lists[i].Own && buckets !in lists[i].Own
      requires lists[i].Kept <= Kept + more
      modifies this`owns, this`Own, this`Kept
      ensures Buckets() && Own == old(Own) + lists[i].Own && Kept == old(Kept) + more
    {
      ghost var mine := lists[i].Own;
      assert forall j | 0 <= j < |lists| && j != i :: PartAt(j) ==> owns[j] <= Own;
      DisjointGrows(owns, i, mine, Own);
      owns, Own, Kept := owns[i := mine], Own + mine, Kept + more;
      assert forall j | 0 <= j < |lists| && j != i :: old(PartAt(j)) ==> PartAt(j);
    }
  }

  // ---- The lists at the start --------------------------------------------------------------------------

  ghost predicate NewAt(ls: seq<SortedList>, owns: seq<set<object>>, max: Entry.Entry, k: nat)
    requires k < |ls| == |owns|
    reads ls, Union(owns), max, max.data
  {
    && ls[k] in owns[k] && ls[k].Own == owns[k] && ls[k].Kept == {max, max.data} && max.Valid()
    && Sound(ls[k], owns[k], max.Key()) && ls[k].View() == map[max.Key() := max.Value()]
  }

  ghost predicate Begun(ls: seq<SortedList>, owns: seq<set<object>>, max: Entry.Entry)
    reads ls, Union(owns), max, max.data
  {
    && |ls| == |owns| && Disjoint(owns)
    && forall k | 0 <= k < |ls| :: NewAt(ls, owns, max, k)
  }

  /** One more list, with the greatest entry at its tail. */
  method MakeList(max: Entry.Entry, ghost ls: seq<SortedList>, ghost owns: seq<set<object>>) returns (list: SortedList)
    requires max.Valid() && Begun(ls, owns, max)
    ensures fresh(list.Own) && Begun(ls + [list], owns + [list.Own], max)
  {
    assert forall k | 0 <= k < |ls| :: NewAt(ls, owns, max, k);
    list := new SortedList(max);
    ghost var more, mores := ls + [list], owns + [list.Own];
    forall k | 0 <= k < |more| ensures NewAt(more, mores, max, k) {
      if k < |ls| { assert old(NewAt(ls, owns, max, k)); }
    }
  }

  method MakeLists(len: nat, max: Entry.Entry) returns (made: array<SortedList>, ghost owns: seq<set<object>>)
    requires len > 0 && max.Valid()
    ensures fresh(made) && made.Length == len && fresh(Union(owns)) && made !in Union(owns)
    ensures Begun(made[..], owns, max)
  {
    owns := [];
    var first := MakeList(max, [], owns);
    ghost var ls := [first];
    owns := [first.Own];
    assert [] + [first] == ls && [] + [first.Own] == owns;
    made := new SortedList[len](_ => first);
    var i := 1;
    while i < len
      invariant 1 <= i <= len && fresh(made) && made[..i] == ls
      invariant fresh(Union(owns)) && made !in Union(owns)
      invariant Begun(ls, owns, max)
    {
      var list := MakeList(max, ls, owns);
      made[i] := list;
      UnionMore(owns, list.Own);
      owns, ls := owns + [list.Own], ls + [list];
      i := i + 1;
    }
    assert made[..len] == made[..];
  }
}
