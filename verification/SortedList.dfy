/** A bucket of the store: the sorted list, changed in place, as one thread at a time uses it.

    Locks and validation have nothing to do here; what several threads make of the same list is the subject of LazyList.
    The tail holds the greatest key and is an element like any other, except that nothing may be beyond it. */
module SortedList {
  import opened Bytes
  import opened ByteOrder
  import Entry

  class Node {
    var entry: Entry.Entry?
    var next: Node?
    var marked: bool

    constructor (entry: Entry.Entry?)
      ensures this.entry == entry && next == null && !marked
    {
      this.entry, next, marked := entry, null, false;
    }
  }

  /** Keys from first to last, each below the next. */
  ghost predicate Ascending(keys: seq<Bytes>) {
    forall i, j | 0 <= i < j < |keys| :: Below(keys[i], keys[j])
  }

  ghost function PlaceOf(keys: seq<Bytes>, key: Bytes): (i: nat)
    requires key in keys
    ensures i < |keys| && keys[i] == key
  {
    var i :| 0 <= i < |keys| && keys[i] == key;
    i
  }

  /** What a list binds: the key at each place to the value there. */
  ghost function MapOf(keys: seq<Bytes>, values: seq<Bytes>): map<Bytes, Bytes>
    requires |keys| == |values|
  {
    map k | k in keys :: values[PlaceOf(keys, k)]
  }

  lemma MapOfAt(keys: seq<Bytes>, values: seq<Bytes>, i: nat)
    requires |keys| == |values| && Ascending(keys) && i < |keys|
    ensures keys[i] in MapOf(keys, values) && MapOf(keys, values)[keys[i]] == values[i]
  {
    var j := PlaceOf(keys, keys[i]);
    Trichotomy(keys[i], keys[j]);
    Trichotomy(keys[j], keys[i]);
  }

  /** A map is determined by where its keys are. */
  lemma MapOfIs(keys: seq<Bytes>, values: seq<Bytes>, m: map<Bytes, Bytes>)
    requires |keys| == |values| && Ascending(keys)
    requires forall k :: k in m <==> k in keys
    requires forall i | 0 <= i < |keys| :: keys[i] in m && m[keys[i]] == values[i]
    ensures MapOf(keys, values) == m
  {
    forall k | k in m ensures MapOf(keys, values)[k] == m[k] {
      var i :| 0 <= i < |keys| && keys[i] == k;
      MapOfAt(keys, values, i);
    }
  }

  /** `i` is where a walk for `key` stops: at the first key not below it. */
  ghost predicate Stops(keys: seq<Bytes>, key: Bytes, i: nat) {
    i < |keys| && !Below(keys[i], key) && forall j | 0 <= j < i :: Below(keys[j], key)
  }

  /** The place where a walk stops decides: the key is there or nowhere. */
  lemma StopDecides(keys: seq<Bytes>, key: Bytes, i: nat)
    requires Ascending(keys) && Stops(keys, key, i)
    ensures key in keys <==> keys[i] == key
    ensures keys[i] == key <==> !Below(key, keys[i])
  {
    Trichotomy(keys[i], key);
    forall j | 0 <= j < |keys| && keys[j] == key ensures j == i {
      Trichotomy(key, key);
      Trichotomy(keys[i], keys[j]);
    }
  }

  lemma OverwriteMap(keys: seq<Bytes>, values: seq<Bytes>, i: nat, v: Bytes)
    requires |keys| == |values| && Ascending(keys) && i < |keys|
    ensures MapOf(keys, values[i := v]) == MapOf(keys, values)[keys[i] := v]
  {
    forall j | 0 <= j < |keys| ensures MapOf(keys, values)[keys[i] := v][keys[j]] == values[i := v][j] {
      MapOfAt(keys, values, j);
      Trichotomy(keys[i], keys[j]);
      Trichotomy(keys[j], keys[i]);
    }
    MapOfIs(keys, values[i := v], MapOf(keys, values)[keys[i] := v]);
  }

  function Inserted<T>(s: seq<T>, i: nat, x: T): seq<T>
    requires i <= |s|
  {
    s[..i] + [x] + s[i..]
  }

  function Dropped<T>(s: seq<T>, i: nat): seq<T>
    requires i < |s|
  {
    s[..i] + s[i + 1..]
  }

  lemma InsertedIs<T>(s: seq<T>, i: nat, x: T)
    requires i <= |s|
    ensures |Inserted(s, i, x)| == |s| + 1
    ensures forall j {:trigger Inserted(s, i, x)[j]} | 0 <= j <= |s| :: Inserted(s, i, x)[j] == if j < i then s[j] else if j == i then x else s[j - 1]
    ensures forall y :: y in Inserted(s, i, x) <==> y == x || y in s
  {
    assert s == s[..i] + s[i..];
  }

  lemma DroppedIs<T>(s: seq<T>, i: nat)
    requires i < |s|
    ensures |Dropped(s, i)| == |s| - 1
    ensures forall j {:trigger Dropped(s, i)[j]} | 0 <= j < |s| - 1 :: Dropped(s, i)[j] == if j < i then s[j] else s[j + 1]
    ensures forall y :: y in s <==> y == s[i] || y in Dropped(s, i)
  {
    assert s == s[..i] + [s[i]] + s[i + 1..];
  }

  ghost predicate Distinct<T>(s: seq<T>) {
    forall i, j | 0 <= i < j < |s| :: s[i] != s[j]
  }

  lemma InsertedDistinct<T>(s: seq<T>, i: nat, x: T)
    requires i <= |s| && Distinct(s) && x !in s
    ensures Distinct(Inserted(s, i, x))
  {
    InsertedIs(s, i, x);
  }

  lemma DroppedDistinct<T>(s: seq<T>, i: nat)
    requires i < |s| && Distinct(s)
    ensures Distinct(Dropped(s, i)) && s[i] !in Dropped(s, i)
  {
    DroppedIs(s, i);
  }

  lemma InsertAscends(keys: seq<Bytes>, key: Bytes, i: nat)
    requires Ascending(keys) && Stops(keys, key, i) && keys[i] != key
    ensures Ascending(Inserted(keys, i, key))
  {
    StopDecides(keys, key, i);
    var after := Inserted(keys, i, key);
    forall a, b | 0 <= a < b < |after| ensures Below(after[a], after[b]) {
      if a == i && i + 1 < b {
        assert after[b] == keys[b - 1];
        Transitive(key, keys[i], keys[b - 1]);
      } else if a == i {
        assert after[b] == keys[i];
      } else if b != i {
        assert after[a] == keys[if a < i then a else a - 1] && after[b] == keys[if b < i then b else b - 1];
      }
    }
  }

  lemma InsertMap(keys: seq<Bytes>, values: seq<Bytes>, key: Bytes, v: Bytes, i: nat)
    requires |keys| == |values| && Ascending(keys) && Stops(keys, key, i) && keys[i] != key
    ensures MapOf(Inserted(keys, i, key), Inserted(values, i, v)) == MapOf(keys, values)[key := v]
  {
    InsertAscends(keys, key, i);
    StopDecides(keys, key, i);
    InsertedIs(keys, i, key);
    InsertedIs(values, i, v);
    var after, m := Inserted(keys, i, key), MapOf(keys, values)[key := v];
    forall j | 0 <= j < |after| ensures after[j] in m && m[after[j]] == Inserted(values, i, v)[j] {
      if j != i { MapOfAt(keys, values, if j < i then j else j - 1); }
    }
    MapOfIs(after, Inserted(values, i, v), m);
  }

  lemma DropAscends(keys: seq<Bytes>, i: nat)
    requires Ascending(keys) && i < |keys|
    ensures Ascending(Dropped(keys, i))
  {
    DroppedIs(keys, i);
  }

  lemma DroppedKey(keys: seq<Bytes>, i: nat)
    requires Ascending(keys) && i < |keys|
    ensures keys[i] !in Dropped(keys, i)
  {
    DroppedIs(keys, i);
    forall j | 0 <= j < |keys| && j != i ensures keys[j] != keys[i] {
      Trichotomy(keys[i], keys[j]);
      Trichotomy(keys[j], keys[i]);
    }
  }

  lemma DropMap(keys: seq<Bytes>, values: seq<Bytes>, i: nat)
    requires |keys| == |values| && Ascending(keys) && i < |keys|
    ensures Ascending(Dropped(keys, i))
    ensures MapOf(Dropped(keys, i), Dropped(values, i)) == MapOf(keys, values) - {keys[i]}
  {
    DropAscends(keys, i);
    DroppedIs(keys, i);
    DroppedIs(values, i);
    var after, m := Dropped(keys, i), MapOf(keys, values) - {keys[i]};
    DroppedKey(keys, i);
    forall j | 0 <= j < |after| ensures after[j] in m && m[after[j]] == Dropped(values, i)[j] {
      MapOfAt(keys, values, if j < i then j else j + 1);
      assert after[j] in after;
    }
    MapOfIs(after, Dropped(values, i), m);
  }

  ghost predicate NodeIs(n: Node, next: Node?, e: Entry.Entry?)
    reads n
  {
    !n.marked && n.next == next && n.entry == e
  }

  ghost predicate NodeAt(c: seq<Node>, es: seq<Entry.Entry>, i: nat)
    requires i < |c| == |es| + 1
    reads c
  {
    NodeIs(c[i], if i + 1 < |c| then c[i + 1] else null, if i == 0 then null else es[i - 1])
  }

  /** The nodes `c` are linked one to the next, none of them is marked, and all but the first hold the entries `es`. */
  ghost predicate Linked(c: seq<Node>, es: seq<Entry.Entry>)
    reads c
  {
    |c| == |es| + 1 && forall i | 0 <= i < |c| :: NodeAt(c, es, i)
  }

  method LinkOut(pred: Node, curr: Node, ghost c: seq<Node>, ghost es: seq<Entry.Entry>, ghost i: nat)
    requires Linked(c, es) && Distinct(c) && i + 1 < |c| && pred == c[i] && curr == c[i + 1]
    modifies pred, curr
    ensures Linked(Dropped(c, i + 1), Dropped(es, i))
  {
    DroppedIs(c, i + 1);
    DroppedIs(es, i);
    assert NodeAt(c, es, i + 1) && NodeAt(c, es, i);
    curr.marked := true;
    pred.next := curr.next;
    ghost var d, fs := Dropped(c, i + 1), Dropped(es, i);
    forall j | 0 <= j < |d| ensures NodeAt(d, fs, j) {
      assert old(NodeAt(c, es, if j <= i then j else j + 1));
    }
  }

  ghost predicate EntryAt(es: seq<Entry.Entry>, ks: seq<Bytes>, vs: seq<Bytes>, i: nat)
    requires i < |es| == |ks| == |vs|
    reads es, set e | e in es :: e.data
  {
    es[i].Valid() && es[i].Key() == ks[i] && es[i].Value() == vs[i]
  }

  /** The entries have these keys and these values. */
  ghost predicate EntriesAt(es: seq<Entry.Entry>, ks: seq<Bytes>, vs: seq<Bytes>)
    reads es, set e | e in es :: e.data
  {
    |es| == |ks| == |vs| && forall i | 0 <= i < |es| :: EntryAt(es, ks, vs, i)
  }

  lemma InsertedEntries(es: seq<Entry.Entry>, ks: seq<Bytes>, vs: seq<Bytes>, i: nat, e: Entry.Entry)
    requires EntriesAt(es, ks, vs) && i <= |es| && e.Valid()
    ensures EntriesAt(Inserted(es, i, e), Inserted(ks, i, e.Key()), Inserted(vs, i, e.Value()))
  {
    InsertedIs(es, i, e);
    InsertedIs(ks, i, e.Key());
    InsertedIs(vs, i, e.Value());
    var es', ks', vs' := Inserted(es, i, e), Inserted(ks, i, e.Key()), Inserted(vs, i, e.Value());
    forall j | 0 <= j < |es'| ensures EntryAt(es', ks', vs', j) {
      if j != i { assert EntryAt(es, ks, vs, if j < i then j else j - 1); }
    }
  }

  /** A new node between two neighbours. */
  method LinkIn(pred: Node, curr: Node, e: Entry.Entry, ghost c: seq<Node>, ghost es: seq<Entry.Entry>,
                ghost ks: seq<Bytes>, ghost vs: seq<Bytes>, ghost i: nat) returns (node: Node)
    requires Linked(c, es) && EntriesAt(es, ks, vs) && Distinct(c) && i + 1 < |c| && pred == c[i] && curr == c[i + 1]
    requires e.Valid()
    modifies pred
    ensures fresh(node)
    ensures Linked(Inserted(c, i + 1, node), Inserted(es, i, e))
    ensures EntriesAt(Inserted(es, i, e), Inserted(ks, i, e.Key()), Inserted(vs, i, e.Value()))
  {
    InsertedEntries(es, ks, vs, i, e);
    node := new Node(e);
    node.next := curr;
    assert node !in c;
    InsertedIs(c, i + 1, node);
    InsertedIs(es, i, e);
    pred.next := node;
    ghost var d, fs := Inserted(c, i + 1, node), Inserted(es, i, e);
    forall j | 0 <= j < |d| ensures NodeAt(d, fs, j) {
      if j != i + 1 { assert old(NodeAt(c, es, if j <= i then j else j - 1)); }
    }
  }

  /** Another entry with the same key in its place. */
  method Replace(curr: Node, e: Entry.Entry, ghost c: seq<Node>, ghost es: seq<Entry.Entry>, ghost ks: seq<Bytes>,
                 ghost vs: seq<Bytes>, ghost i: nat)
    requires Linked(c, es) && EntriesAt(es, ks, vs) && Distinct(c) && i < |es| && curr == c[i + 1]
    requires e.Valid() && e.Key() == ks[i]
    modifies curr
    ensures Linked(c, es[i := e]) && EntriesAt(es[i := e], ks, vs[i := e.Value()])
  {
    assert NodeAt(c, es, i + 1);
    ghost var es', vs' := es[i := e], vs[i := e.Value()];
    forall j | 0 <= j < |es| ensures EntryAt(es', ks, vs', j) { assert EntryAt(es, ks, vs, j); }
    curr.entry := e;
    forall j | 0 <= j < |c| ensures NodeAt(c, es', j) {
      assert old(NodeAt(c, es, j));
    }
  }

  lemma DroppedEntries(es: seq<Entry.Entry>, ks: seq<Bytes>, vs: seq<Bytes>, i: nat)
    requires EntriesAt(es, ks, vs) && i < |es|
    ensures EntriesAt(Dropped(es, i), Dropped(ks, i), Dropped(vs, i))
  {
    DroppedIs(es, i);
    DroppedIs(ks, i);
    DroppedIs(vs, i);
    var es', ks', vs' := Dropped(es, i), Dropped(ks, i), Dropped(vs, i);
    forall j | 0 <= j < |es'| ensures EntryAt(es', ks', vs', j) {
      assert EntryAt(es, ks, vs, if j < i then j else j + 1);
    }
  }

  /** From the head to the tail, with the keys and entries in between and at the tail. */
  ghost predicate Shape(c: seq<Node>, ks: seq<Bytes>, es: seq<Entry.Entry>, head: Node, tail: Node) {
    && |ks| == |es| == |c| - 1 > 0
    && c[0] == head && c[|c| - 1] == tail
    && Distinct(c) && Ascending(ks)
  }

  lemma InsertShape(c: seq<Node>, ks: seq<Bytes>, es: seq<Entry.Entry>, head: Node, tail: Node, i: nat, n: Node, k: Bytes,
                    e: Entry.Entry)
    requires Shape(c, ks, es, head, tail) && n !in c && Stops(ks, k, i) && ks[i] != k
    ensures Shape(Inserted(c, i + 1, n), Inserted(ks, i, k), Inserted(es, i, e), head, tail)
    ensures forall m :: m in Inserted(c, i + 1, n) <==> m == n || m in c
    ensures forall f :: f in Inserted(es, i, e) <==> f == e || f in es
    ensures Inserted(ks, i, k)[|ks|] == ks[|ks| - 1]
  {
    InsertAscends(ks, k, i);
    InsertedDistinct(c, i + 1, n);
    InsertedIs(c, i + 1, n);
    InsertedIs(ks, i, k);
    InsertedIs(es, i, e);
  }

  predicate Opened(k: int) { true }

  class SortedList {
    const head: Node
    const tail: Node
    ghost var chain: seq<Node>            // the head, then a node for each entry
    ghost var keys: seq<Bytes>
    ghost var values: seq<Bytes>
    ghost var entries: seq<Entry.Entry>
    ghost var Own: set<object>            // what the list may change: itself and its nodes
    ghost var Kept: set<object>           // what it only reads: entries and their blocks

    ghost predicate Shaped()
      reads this
    {
      Shape(chain, keys, entries, head, tail)
    }

    ghost predicate Owned()
      reads this, Kept
    {
      && this in Own && Own !! Kept
      && (forall n | n in chain :: n in Own)
      && (forall e | e in entries :: e in Kept && e.data in Kept)
    }

    ghost predicate Intact()
      reads this, Own, Kept
    {
      && Shaped() && Owned()
      && Linked(chain, entries)
      && EntriesAt(entries, keys, values)
    }

    /** `Intact`, spelled out only where `Opened` is named. */
    ghost predicate Valid()
      reads this, Own, Kept
    {
      forall k | Opened(k) :: Intact()
    }

    /** What the list binds. */
    ghost function View(): map<Bytes, Bytes>
      reads this
    {
      if |keys| == |values| then MapOf(keys, values) else map[]
    }

    ghost function Greatest(): Bytes
      reads this
    {
      if keys == [] then [] else keys[|keys| - 1]
    }

    constructor (greatest: Entry.Entry)
      requires greatest.Valid()
      ensures Valid() && fresh(Own) && this in Own && Kept == {greatest, greatest.data}
      ensures View() == map[greatest.Key() := greatest.Value()] && Greatest() == greatest.Key()
    {
      head := new Node(null);
      tail := new Node(greatest);
      new;
      head.next := tail;
      Begin(greatest);
    }

    ghost method Begin(greatest: Entry.Entry)
      requires NodeIs(head, tail, null) && NodeIs(tail, null, greatest) && head != tail && greatest.Valid()
      modifies this
      ensures Intact() && Own == {this, head, tail} && Kept == {greatest, greatest.data}
      ensures View() == map[greatest.Key() := greatest.Value()] && Greatest() == greatest.Key()
    {
      chain, keys, values, entries := [head, tail], [greatest.Key()], [greatest.Value()], [greatest];
      Own, Kept := {this, head, tail}, {greatest, greatest.data};
      assert NodeAt(chain, entries, 0) && NodeAt(chain, entries, 1) && EntryAt(entries, keys, values, 0);
    }

    /** The walk: the first node whose key is not below `key`, and the one before it. */
    method Walk(key: Bytes) returns (pred: Node, curr: Node, ghost i: nat)
      requires Intact() && !Below(Greatest(), key)
      ensures Stops(keys, key, i) && pred == chain[i] && curr == chain[i + 1]
      ensures curr.entry != null && curr.entry == entries[i]
    {
      assert NodeAt(chain, entries, 0) && NodeAt(chain, entries, 1) && EntryAt(entries, keys, values, 0);
      pred, curr, i := head, head.next, 0;
      while IsBelow(curr.entry.Key(), key)
        invariant i < |keys| && pred == chain[i] && curr == chain[i + 1]
        invariant curr.entry == entries[i] && EntryAt(entries, keys, values, i)
        invariant forall j | 0 <= j < i :: Below(keys[j], key)
        decreases |keys| - i
      {
        assert NodeAt(chain, entries, i + 1) && NodeAt(chain, entries, i + 2) && EntryAt(entries, keys, values, i + 1);
        pred := curr;
        curr := curr.next;
        i := i + 1;
      }
    }

    /** The walk, and whether it found the key. */
    method Find(key: Bytes) returns (pred: Node, curr: Node, found: bool, ghost i: nat)
      requires Intact() && !Below(Greatest(), key)
      ensures Stops(keys, key, i) && pred == chain[i] && curr == chain[i + 1]
      ensures !curr.marked && curr.entry == entries[i] && EntryAt(entries, keys, values, i)
      ensures found <==> keys[i] == key
      ensures found <==> key in keys
    {
      pred, curr, i := Walk(key);
      assert NodeAt(chain, entries, i + 1) && EntryAt(entries, keys, values, i);
      StopDecides(keys, key, i);
      found := !IsBelow(curr.entry.Key(), key) && !IsBelow(key, curr.entry.Key());
    }

    /** The entry bound to the key, or null. */
    method Get(key: Bytes) returns (r: Entry.Entry?)
      requires Valid() && !Below(Greatest(), key)
      ensures r == null <==> key !in View()
      ensures r != null ==> r.Valid() && r.Key() == key && r.Value() == View()[key]
    {
      assert Opened(0);
      var pred, curr, found;
      ghost var i;
      pred, curr, found, i := Find(key);
      MapOfAt(keys, values, i);
      r := if curr.marked || !found then null else curr.entry;
    }

    /** Binds the entry's key to it, whatever it was bound to. */
    method Add(entry: Entry.Entry) returns (ok: bool)
      requires Valid() && entry.Valid() && !Below(Greatest(), entry.Key()) && entry !in Own && entry.data !in Own
      modifies this, Own
      ensures Valid() && ok && old(Own) <= Own && fresh(Own - old(Own))
      ensures Kept == old(Kept) + {entry, old(entry.data)}
      ensures View() == old(View()[entry.Key() := entry.Value()]) && Greatest() == old(Greatest())
    {
      assert Opened(0);
      var pred, curr, found;
      ghost var i;
      pred, curr, found, i := Find(entry.Key());
      if found {
        Overwrite(curr, entry, i);
      } else {
        Insert(pred, curr, entry, i);
      }
      ok := true;
    }

    method Overwrite(curr: Node, entry: Entry.Entry, ghost i: nat)
      requires Intact() && entry.Valid() && entry !in Own && entry.data !in Own && i < |keys| && curr == chain[i + 1] && keys[i] == entry.Key()
      modifies this, Own
      ensures Intact() && Own == old(Own)
      ensures Kept == old(Kept) + {entry, old(entry.data)}
      ensures View() == old(View()[entry.Key() := entry.Value()]) && Greatest() == old(Greatest())
    {
      OverwriteMap(keys, values, i, entry.Value());
      Replace(curr, entry, chain, entries, keys, values, i);
      Note(chain, keys, values[i := entry.Value()], entries[i := entry], curr, entry);
    }

    method Insert(pred: Node, curr: Node, entry: Entry.Entry, ghost i: nat)
      requires Intact() && entry.Valid() && entry !in Own && entry.data !in Own && Stops(keys, entry.Key(), i) && keys[i] != entry.Key()
      requires pred == chain[i] && curr == chain[i + 1]
      modifies this, Own
      ensures Intact() && old(Own) <= Own && fresh(Own - old(Own))
      ensures Kept == old(Kept) + {entry, old(entry.data)}
      ensures View() == old(View()[entry.Key() := entry.Value()]) && Greatest() == old(Greatest())
    {
      ghost var key := entry.Key();
      InsertMap(keys, values, key, entry.Value(), i);
      var node := LinkIn(pred, curr, entry, chain, entries, keys, values, i);
      assert node !in chain;
      InsertShape(chain, keys, entries, head, tail, i, node, key, entry);
      Note(Inserted(chain, i + 1, node), Inserted(keys, i, key), Inserted(values, i, entry.Value()), Inserted(entries, i, entry), node, entry);
    }

    /** Takes note of what the list has become. */
    ghost method Note(c: seq<Node>, ks: seq<Bytes>, vs: seq<Bytes>, es: seq<Entry.Entry>, n: Node, e: Entry.Entry)
      requires Shape(c, ks, es, head, tail) && Linked(c, es) && EntriesAt(es, ks, vs)
      requires Owned() && (forall m | m in c :: m == n || m in Own) && n !in Kept
      requires (forall f | f in es :: f == e || f in entries) && e !in Own && e.data !in Own
      modifies this
      ensures Intact() && chain == c && keys == ks && values == vs
      ensures Own == old(Own) + {n} && Kept == old(Kept) + {e, e.data}
    {
      chain, keys, values, entries := c, ks, vs, es;
      Own, Kept := Own + {n}, Kept + {e, e.data};
    }

    /** Unbinds the key, if it is bound. */
    method Remove(key: Bytes) returns (found: bool)
      requires Valid() && Below(key, Greatest())
      modifies this, Own
      ensures Valid() && Own <= old(Own) && Kept == old(Kept) && Greatest() == old(Greatest())
      ensures found <==> key in old(View())
      ensures View() == old(View()) - {key}
    {
      Trichotomy(Greatest(), key);
      Trichotomy(key, Greatest());
      assert Opened(0);
      var pred, curr;
      ghost var i;
      pred, curr, found, i := Find(key);
      if !found { return; }
      DropMap(keys, values, i);
      Unlink(pred, curr, i);
    }

    method Unlink(pred: Node, curr: Node, ghost i: nat)
      requires Intact() && i + 1 < |keys| && pred == chain[i] && curr == chain[i + 1]
      modifies this, Own
      ensures Intact() && Own <= old(Own) && Kept == old(Kept)
      ensures keys == Dropped(old(keys), i) && values == Dropped(old(values), i)
      ensures Greatest() == old(Greatest())
    {
      LinkOut(pred, curr, chain, entries, i);
      DroppedEntries(entries, keys, values, i);
      DropAscends(keys, i);
      DroppedIs(keys, i);
      DroppedIs(entries, i);
      DroppedIs(chain, i + 1);
      DroppedDistinct(chain, i + 1);
      chain, keys, values, entries := Dropped(chain, i + 1), Dropped(keys, i), Dropped(values, i), Dropped(entries, i);
      Own := Own - {curr};
    }
  }
}
