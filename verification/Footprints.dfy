/** What the parts of a structure own, part by part. */
module Footprints {
  /** No two of the sets overlap. */
  ghost predicate Disjoint<T>(sets: seq<set<T>>) {
    forall i, j | 0 <= i < j < |sets| :: sets[i] !! sets[j]
  }

  /** One set may grow by what is in none of the others. */
  lemma DisjointGrows<T>(sets: seq<set<T>>, i: nat, more: set<T>, all: set<T>)
    requires Disjoint(sets) && i < |sets| && (forall j | 0 <= j < |sets| :: sets[j] <= all)
    requires (more - sets[i]) !! all
    ensures Disjoint(sets[i := more])
  {
    var after := sets[i := more];
    forall a, b | 0 <= a < b < |after| ensures after[a] !! after[b] {
      assert sets[a] !! sets[b] && sets[a] <= all && sets[b] <= all;
    }
  }

  ghost function Union<T>(sets: seq<set<T>>): set<T> {
    set i, x | 0 <= i < |sets| && x in sets[i] :: x
  }

  lemma UnionMore<T>(sets: seq<set<T>>, more: set<T>)
    ensures Union(sets + [more]) == Union(sets) + more
  {
    var after := sets + [more];
    forall x | x in Union(sets) + more ensures x in Union(after) {
      if x in more {
        assert x in after[|sets|];
      } else {
        var i :| 0 <= i < |sets| && x in sets[i];
        assert x in after[i];
      }
    }
  }
}
