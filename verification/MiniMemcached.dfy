/** The sharded store: the hash of a key picks a shard, and once more a list within it; together they are one map. */
module MiniMemcached {
  import opened Bytes
  import opened ByteOrder
  import opened Footprints
  import opened Sharding
  import Entry
  import HashSet

  const NUM_SHARDS: nat := 1700
  const NUM_BUCKETS: nat := 2010

  /** The greatest key: a hundred times `z`. */
  const MAX_KEY: Bytes := Repeated(122, 100)

  function Repeated(b: Byte, n: nat): Bytes {
    seq(n, _ => b)
  }

  /** A key beyond the greatest has no place in the store. */
  predicate TooGreat(key: Bytes) {
    IsBelow(MAX_KEY, key)
  }

  /** A shard in good order, with this for its own. */
  ghost predicate Sound(s: HashSet.HashSet, own: set<object>)
    reads s, s.Own, s.Kept
  {
    s.Own == own && s.Valid() && s.greatest == MAX_KEY
  }

  ghost function ViewsOf(sets: seq<HashSet.HashSet>): seq<map<Bytes, Bytes>>
    reads sets
  {
    seq(|sets|, i requires 0 <= i < |sets| reads sets => sets[i].view)
  }

  predicate OpenedStore(k: int) { true }

  class MiniMemcached {
    const shards: array<HashSet.HashSet>
    ghost const sets: seq<HashSet.HashSet>
    ghost var view: map<Bytes, Bytes>   // the store as a map from keys to values
    ghost var owns: seq<set<object>>    // what each shard may change
    ghost var Own: set<object>          // what the store may change
    ghost var Kept: set<object>         // what it only reads
    ghost var Repr: set<object>         // both

    /** The footprint of one shard is part of the whole. */
    ghost predicate PartAt(i: nat)
      requires i < |sets| == |owns|
      reads this`owns, this`Own, this`Kept, sets
    {
      sets[i] in owns[i] && sets[i].Own == owns[i] <= Own && sets[i].Kept <= Kept
    }

    /** The shards, each sound and none owning anything of another. */
    ghost predicate Shards()
      reads this`owns, this`Own, this`Kept, shards, sets, Own, Kept
    {
      && this in Own && shards in Own && Own !! Kept
      && shards[..] == sets && |sets| == |owns| == NUM_SHARDS && Disjoint(owns)
      && (forall i | 0 <= i < |sets| :: PartAt(i) && this !in owns[i] && shards !in owns[i])
      && forall i | 0 <= i < |sets| :: PartAt(i) && Sound(sets[i], owns[i])
    }

    /** `Shards`, and agreement on every key; spelled out only where `OpenedStore` is named. */
    ghost predicate Valid()
      reads this, Repr
    {
      forall o | OpenedStore(o) ::
        && Repr == Own + Kept
        && shards in Own && (forall s | s in sets :: s in Own)
        && Shards() && Agrees(view, ViewsOf(sets))
    }

    constructor ()
      ensures Valid() && fresh(Repr) && view == map[MAX_KEY := []]
    {
      var greatest := new Entry.Entry(MAX_KEY, 256);
      var made;
      ghost var all;
      made, all := MakeShards(greatest);
      shards := made;
      sets, owns := made[..], all;
      view := map[MAX_KEY := []];
      Own, Kept := {this, made} + Union(all), {greatest, greatest.data};
      Repr := {this, made} + Union(all) + {greatest, greatest.data};
      new;
      Begin(greatest);
    }

    /** The shards as they are made are one map with one key. */
    lemma Begin(max: Entry.Entry)
      requires shards[..] == sets && |sets| == NUM_SHARDS && Begun(sets, owns, max)
      requires max.Valid() && max.Key() == MAX_KEY && max.Value() == []
      requires Own == {this, shards} + Union(owns) && Kept == {max, max.data} && Own !! Kept && Repr == Own + Kept
      requires this !in Union(owns) && shards !in Union(owns)
      requires view == map[MAX_KEY := []]
      ensures Valid()
    {
      forall i | 0 <= i < |sets| ensures PartAt(i) && Sound(sets[i], owns[i]) && this !in owns[i] && shards !in owns[i] {
        assert NewAt(sets, owns, max, i);
        assert forall o | o in owns[i] :: o in Union(owns);
      }
      forall k ensures AgreesOn(view, ViewsOf(sets)[Entry.Hash(k) % |sets|], k) {
        assert NewAt(sets, owns, max, Entry.Hash(k) % |sets|);
      }
    }

    /** The entry last set for the key of `probe`, or null. */
    method Get(probe: Entry.Entry) returns (r: Entry.Entry?)
      requires Valid() && probe.Valid() && probe.Hashed() && !TooGreat(probe.Key())
      ensures r == null <==> probe.Key() !in view
      ensures r != null ==> r.Valid() && r.Key() == probe.Key() && r.Value() == view[probe.Key()]
    {
      assert OpenedStore(0);
      var i := probe.hash % NUM_SHARDS;
      assert Sound(sets[i], owns[i]) && AgreesOn(view, ViewsOf(sets)[i], probe.Key()) && shards[..][i] == sets[i];
      r := shards[i].Get(probe);
    }

    /** Binds the entry's key to its value; the entry must not be the store's already. */
    method Set(entry: Entry.Entry)
      requires Valid() && entry.Valid() && entry.Hashed() && !TooGreat(entry.Key())
      requires entry !in Repr && entry.data !in Repr
      modifies Repr
      ensures Valid() && fresh(Repr - old(Repr) - {entry, old(entry.data)})
      ensures view == old(view[entry.Key() := entry.Value()])
    {
      assert OpenedStore(0);
      var i := entry.hash % NUM_SHARDS;
      ghost var key, value := entry.Key(), entry.Value();
      AgreesAfter(view, ViewsOf(sets), key, value);
      AddTo(i, entry);
      Bind(key, value);
    }

    ghost method Bind(key: Bytes, value: Bytes)
      requires Shards() && Agrees(view[key := value], ViewsOf(sets))
      modifies this`view, this`Repr
      ensures Valid() && view == old(view)[key := value] && Repr == Own + Kept
    {
      assert forall i | 0 <= i < |sets| :: PartAt(i) ==> sets[i] in Own;
      view := view[key := value];
      Repr := Own + Kept;
    }

    method AddTo(i: nat, entry: Entry.Entry)
      requires Shards() && i < |sets| && entry.Valid() && entry.Hashed() && !TooGreat(entry.Key())
      requires entry !in Own && entry.data !in Own
      modifies this`owns, this`Own, this`Kept, Own - {this}
      ensures Shards() && old(Own) <= Own && fresh(Own - old(Own)) && Kept == old(Kept) + {entry, old(entry.data)}
      ensures ViewsOf(sets) == old(ViewsOf(sets)[i := sets[i].view[entry.Key() := entry.Value()]])
    {
      ghost var block := entry.data;
      Others(i);
      assert PartAt(i) && Sound(sets[i], owns[i]);
      AddAt(i, entry);
      Absorb(i, {entry, block});
    }

    lemma Others(i: nat)
      requires i < |sets| == |owns| && Disjoint(owns) && Own !! Kept && forall j | 0 <= j < |sets| :: PartAt(j)
      ensures forall j | 0 <= j < |sets| && j != i :: OtherPart(i, j)
    {
      forall j | 0 <= j < |sets| && j != i ensures OtherPart(i, j) {
        assert PartAt(i) && PartAt(j);
        assert j < i ==> owns[j] !! owns[i];
        assert i < j ==> owns[i] !! owns[j];
      }
    }

    /** Shard `j` has nothing that shard `i` may change. */
    ghost predicate OtherPart(i: nat, j: nat)
      requires i < |sets| == |owns| && j < |sets|
      reads this`owns, sets
    {
      sets[j] in owns[j] && owns[j] !! owns[i] && sets[j].Kept !! owns[i]
    }

    /** The step itself, in one shard. */
    method AddAt(i: nat, entry: Entry.Entry)
      requires shards[..] == sets && |sets| == |owns| && i < |sets|
      requires entry.Valid() && entry.Hashed() && !TooGreat(entry.Key()) && entry !in owns[i] && entry.data !in owns[i]
      requires sets[i] in owns[i] && this !in owns[i] && shards !in owns[i]
      requires forall j | 0 <= j < |sets| :: Sound(sets[j], owns[j])
      requires forall j | 0 <= j < |sets| && j != i :: OtherPart(i, j)
      modifies owns[i]
      ensures fresh(sets[i].Own - old(owns[i])) && Sound(sets[i], sets[i].Own) && sets[i] in sets[i].Own
      ensures sets[i].Kept == old(sets[i].Kept) + {entry, old(entry.data)} && old(owns[i]) <= sets[i].Own
      ensures forall j | 0 <= j < |sets| && j != i :: Sound(sets[j], owns[j]) && unchanged(sets[j])
      ensures ViewsOf(sets) == old(ViewsOf(sets)[i := sets[i].view[entry.Key() := entry.Value()]])
    {
      assert Sound(sets[i], owns[i]) && shards[..][i] == sets[i];
      var ok := shards[i].Add(entry);
      forall j | 0 <= j < |sets| && j != i ensures Sound(sets[j], owns[j]) && unchanged(sets[j]) {
        assert old(Sound(sets[j], owns[j])) && old(OtherPart(i, j));
      }
    }

    /** Takes note of what shard `i` has become. */
    ghost method Absorb(i: nat, more: set<object>)
      requires this in Own && shards in Own && Own !! Kept && more !! Own
      requires shards[..] == sets && |sets| == |owns| == NUM_SHARDS && i < |sets| && Disjoint(owns)
      requires forall j | 0 <= j < |sets| && j != i :: PartAt(j) && this !in owns[j] && shards !in owns[j]
      requires forall j | 0 <= j < |sets| && j != i :: PartAt(j) && Sound(sets[j], owns[j])
      requires Sound(sets[i], sets[i].Own) && sets[i] in sets[i].Own
      requires owns[i] <= Own && (sets[i].Own - owns[i]) !! Own && (sets[i].Own - owns[i]) !! Kept + more
      requires this !in sets[i].Own && shards !in sets[i].Own
      requires sets[i].Kept <= Kept + more
      modifies this`owns, this`Own, this`Kept
      ensures Shards() && Own == old(Own) + sets[i].Own && Kept == old(Kept) + more
    {
      ghost var mine := sets[i].Own;
      assert forall j | 0 <= j < |sets| && j != i :: PartAt(j) ==> owns[j] <= Own;
      DisjointGrows(owns, i, mine, Own);
      owns, Own, Kept := owns[i := mine], Own + mine, Kept + more;
      assert forall j | 0 <= j < |sets| && j != i :: old(PartAt(j)) ==> PartAt(j);
    }
  }

  // ---- The shards at the start -------------------------------------------------------------------------

  ghost predicate NewAt(ls: seq<HashSet.HashSet>, owns: seq<set<object>>, max: Entry.Entry, k: nat)
    requires k < |ls| == |owns|
    reads ls, Union(owns), max, max.data
  {
    && ls[k] in owns[k] && ls[k].Own == owns[k] && ls[k].Kept == {max, max.data} && max.Valid()
    && Sound(ls[k], owns[k]) && ls[k].view == map[max.Key() := max.Value()]
  }

  ghost predicate Begun(ls: seq<HashSet.HashSet>, owns: seq<set<object>>, max: Entry.Entry)
    reads ls, Union(owns), max, max.data
  {
    && |ls| == |owns| && Disjoint(owns)
    && forall k | 0 <= k < |ls| :: NewAt(ls, owns, max, k)
  }

  /** One more shard. */
  method MakeShard(max: Entry.Entry, ghost ls: seq<HashSet.HashSet>, ghost owns: seq<set<object>>) returns (shard: HashSet.HashSet)
    requires max.Valid() && max.Key() == MAX_KEY && Begun(ls, owns, max)
    ensures fresh(shard.Own) && Begun(ls + [shard], owns + [shard.Own], max)
  {
    assert forall k | 0 <= k < |ls| :: NewAt(ls, owns, max, k);
    shard := new HashSet.HashSet(NUM_BUCKETS, max);
    ghost var more, mores := ls + [shard], owns + [shard.Own];
    forall k | 0 <= k < |more| ensures NewAt(more, mores, max, k) {
      if k < |ls| { assert old(NewAt(ls, owns, max, k)); }
    }
  }

  /** The shards at the start, all with the same greatest entry. */
  method MakeShards(max: Entry.Entry) returns (made: array<HashSet.HashSet>, ghost owns: seq<set<object>>)
    requires max.Valid() && max.Key() == MAX_KEY
    ensures fresh(made) && made.Length == NUM_SHARDS && fresh(Union(owns)) && made !in Union(owns)
    ensures Begun(made[..], owns, max)
  {
    owns := [];
    var first := MakeShard(max, [], owns);
    ghost var ls := [first];
    owns := [first.Own];
    assert [] + [first] == ls && [] + [first.Own] == owns;
    made := new HashSet.HashSet[NUM_SHARDS](_ => first);
    var i := 1;
    while i < NUM_SHARDS
      invariant 1 <= i <= NUM_SHARDS && fresh(made) && made[..i] == ls
      invariant fresh(Union(owns)) && made !in Union(owns)
      invariant Begun(ls, owns, max)
    {
      var shard := MakeShard(max, ls, owns);
      made[i] := shard;
      UnionMore(owns, shard.Own);
      owns, ls := owns + [shard.Own], ls + [shard];
      i := i + 1;
    }
    assert made[..NUM_SHARDS] == made[..];
  }
}
