/** The five steps that write a node, each against the chain and against what a running call has seen. */
module LazyListHeap {
  import opened LazyList
  import opened LazyListInvariant

  /** Nothing written, nothing new to see. */
  lemma LookSettles(nodes: seq<Node>, g: Ghost, x: Seen, k: nat)
    requires Sized(nodes, g) && SeenInv(nodes, g, x, k)
    ensures Look(x, nodes, g.on, k) == x
  {
  }

  lemma BoundNowHas(nodes: seq<Node>, on: set<int>, k: nat, i: int)
    requires Live(nodes, on, i, k)
    ensures nodes[i].entry in BoundNow(nodes, on, k)
  {
  }

  /** A call that begins now has seen exactly the present chain. */
  lemma FreshSeen(nodes: seq<Node>, g: Ghost, k: nat)
    requires HeapInv(nodes, g) && k < Pos(nodes, TAIL)
    ensures SeenInv(nodes, g, Look(NOTHING, nodes, g.on, k), k)
  {
    MarkedMeansAbsent(nodes, g, k);
  }

  /** Keys on the chain are distinct, so a marked chained node leaves its key unbound. */
  lemma MarkedMeansAbsent(nodes: seq<Node>, g: Ghost, k: nat)
    requires HeapInv(nodes, g)
    ensures forall i | i in g.on && Pos(nodes, i) == k && nodes[i].marked :: Absent(nodes, g.on, k)
  {
    assert forall j | Live(nodes, g.on, j, k) :: Pos(nodes, j) == k;
  }

  /** A link of the chain that jumps over a key shows the key to be unbound. */
  lemma GapMeansAbsent(nodes: seq<Node>, g: Ghost, i: int, k: nat)
    requires HeapInv(nodes, g)
    requires i in g.on && i != TAIL && Pos(nodes, i) < k < Pos(nodes, Nx(nodes, i))
    ensures Absent(nodes, g.on, k)
  {
    assert forall j | Live(nodes, g.on, j, k) :: Pos(nodes, j) == k;
  }

  /** Two heaps that differ at most in the link of `p`. */
  ghost predicate SameBut(nodes: seq<Node>, nodes': seq<Node>, p: int) {
    && |nodes| <= |nodes'|
    && (forall i {:trigger Pos(nodes', i)} | 0 <= i < |nodes| :: Pos(nodes', i) == Pos(nodes, i))
    && (forall i {:trigger Nx(nodes', i)} | 0 <= i < |nodes| && i != p :: Nx(nodes', i) == Nx(nodes, i))
  }

  // ---- Mark ---------------------------------------------------------------------------------

  lemma MarkHeap(nodes: seq<Node>, g: Ghost, c: int)
    requires HeapInv(nodes, g) && c in g.on && 2 <= c
    ensures HeapInv(nodes[c := nodes[c].(marked := true)], g)
  {
    assert SameBut(nodes, nodes[c := nodes[c].(marked := true)], NULL);
  }

  lemma MarkSeen(nodes: seq<Node>, g: Ghost, c: int, x: Seen, k: nat)
    requires HeapInv(nodes, g) && c in g.on && 2 <= c && k < Pos(nodes, TAIL) && SeenInv(nodes, g, x, k)
    ensures var nodes' := nodes[c := nodes[c].(marked := true)];
            SeenInv(nodes', g, Look(x, nodes', g.on, k), k)
  {
    var nodes' := nodes[c := nodes[c].(marked := true)];
    assert SameBut(nodes, nodes', NULL);
    MarkHeap(nodes, g, c);
    MarkedMeansAbsent(nodes', g, k);
  }

  // ---- Unlink -------------------------------------------------------------------------------

  ghost predicate CanUnlink(nodes: seq<Node>, g: Ghost, p: int, c: int) {
    && HeapInv(nodes, g)
    && p in g.on && c in g.on && p != TAIL && 2 <= c && p != c
    && !nodes[p].marked && nodes[c].marked && Nx(nodes, p) == c
  }

  lemma OnePredecessor(nodes: seq<Node>, g: Ghost, p: int, i: int)
    requires HeapInv(nodes, g) && p in g.on && i in g.on && p != TAIL && i != TAIL && Nx(nodes, i) == Nx(nodes, p)
    ensures i == p
  {
    assert Pos(nodes, i) <= Pos(nodes, p) && Pos(nodes, p) <= Pos(nodes, i);
  }

  lemma UnlinkHeap(nodes: seq<Node>, g: Ghost, p: int, c: int)
    requires CanUnlink(nodes, g, p, c)
    ensures HeapInv(nodes[p := nodes[p].(next := Nx(nodes, c))], g.(on := g.on - {c}))
  {
    var nodes' := nodes[p := nodes[p].(next := Nx(nodes, c))];
    var on' := g.on - {c};
    assert SameBut(nodes, nodes', p);
    assert Nx(nodes', p) == Nx(nodes, c) && Nx(nodes, p) == c;
    forall i | i in on' && i != TAIL ensures Nx(nodes', i) in on' {
      if i != p && Nx(nodes, i) == c { OnePredecessor(nodes, g, p, i); }
    }
    forall i, j | i in on' && i != TAIL && j in on'
      ensures Pos(nodes', j) <= Pos(nodes', i) || Pos(nodes', Nx(nodes', i)) <= Pos(nodes', j)
    {
      if i == p {
        assert Pos(nodes, j) <= Pos(nodes, p) || Pos(nodes, c) <= Pos(nodes, j);
        assert Pos(nodes, j) <= Pos(nodes, c) || Pos(nodes, Nx(nodes, c)) <= Pos(nodes, j);
      } else {
        assert Pos(nodes, j) <= Pos(nodes, i) || Pos(nodes, Nx(nodes, i)) <= Pos(nodes, j);
      }
    }
  }

  /** Taking out a marked node binds nothing and unbinds nothing. */
  lemma UnlinkBinds(nodes: seq<Node>, g: Ghost, p: int, c: int, k: nat)
    requires CanUnlink(nodes, g, p, c)
    ensures var nodes' := nodes[p := nodes[p].(next := Nx(nodes, c))];
            var on' := g.on - {c};
            && (Absent(nodes', on', k) ==> Absent(nodes, g.on, k))
            && BoundNow(nodes', on', k) <= BoundNow(nodes, g.on, k)
  {
    var nodes' := nodes[p := nodes[p].(next := Nx(nodes, c))];
    assert SameBut(nodes, nodes', p);
    assert forall i :: Live(nodes, g.on, i, k) <==> Live(nodes', g.on - {c}, i, k);
  }

  lemma UnlinkSeen(nodes: seq<Node>, g: Ghost, p: int, c: int, x: Seen, k: nat)
    requires CanUnlink(nodes, g, p, c) && k < Pos(nodes, TAIL) && SeenInv(nodes, g, x, k)
    ensures var nodes' := nodes[p := nodes[p].(next := Nx(nodes, c))];
            var g' := g.(on := g.on - {c});
            Sized(nodes', g') && SeenInv(nodes', g', Look(x, nodes', g'.on, k), k)
  {
    var nodes' := nodes[p := nodes[p].(next := Nx(nodes, c))];
    var g' := g.(on := g.on - {c});
    UnlinkHeap(nodes, g, p, c);
    assert SameBut(nodes, nodes', p);
    UnlinkBinds(nodes, g, p, c, k);
    if Pos(nodes, c) < k < Pos(nodes, Nx(nodes, c)) { GapMeansAbsent(nodes, g, c, k); }
  }

  // ---- Overwrite ----------------------------------------------------------------------------

  lemma OverwriteHeap(nodes: seq<Node>, g: Ghost, c: int, e: Entry)
    requires HeapInv(nodes, g) && c in g.on && 2 <= c && e.key == nodes[c].entry.key
    ensures HeapInv(nodes[c := nodes[c].(entry := e)], g)
  {
    var nodes' := nodes[c := nodes[c].(entry := e)];
    assert SameBut(nodes, nodes', NULL);
  }

  lemma OverwriteSeen(nodes: seq<Node>, g: Ghost, c: int, e: Entry, x: Seen, k: nat)
    requires HeapInv(nodes, g) && c in g.on && 2 <= c && e.key == nodes[c].entry.key
    requires SeenInv(nodes, g, x, k)
    ensures var nodes' := nodes[c := nodes[c].(entry := e)];
            SeenInv(nodes', g, Look(x, nodes', g.on, k), k)
  {
    var nodes' := nodes[c := nodes[c].(entry := e)];
    assert SameBut(nodes, nodes', NULL);
    assert forall i :: Live(nodes, g.on, i, k) <==> Live(nodes', g.on, i, k);
  }

  // ---- Alloc --------------------------------------------------------------------------------

  lemma AllocHeap(nodes: seq<Node>, g: Ghost, n: Node)
    requires HeapInv(nodes, g)
    ensures HeapInv(nodes + [n], g) && |nodes| !in g.pub
  {
    assert SameBut(nodes, nodes + [n], NULL);
  }

  lemma AllocSeen(nodes: seq<Node>, g: Ghost, n: Node, x: Seen, k: nat)
    requires HeapInv(nodes, g) && SeenInv(nodes, g, x, k)
    ensures SeenInv(nodes + [n], g, x, k) && Look(x, nodes + [n], g.on, k) == x
  {
    var nodes' := nodes + [n];
    assert SameBut(nodes, nodes', NULL);
    assert forall i :: Live(nodes, g.on, i, k) <==> Live(nodes', g.on, i, k);
    LookSettles(nodes', g, x, k);
  }

  // ---- Link ---------------------------------------------------------------------------------

  ghost predicate CanLink(nodes: seq<Node>, g: Ghost, p: int, f: int) {
    && HeapInv(nodes, g)
    && p in g.on && p != TAIL && !nodes[p].marked
    && 2 <= f < |nodes| && f !in g.pub && !nodes[f].marked
    && Nx(nodes, f) == Nx(nodes, p)
    && Pos(nodes, p) < nodes[f].entry.key < Pos(nodes, Nx(nodes, p))
  }

  ghost function Linked(g: Ghost, f: int): Ghost {
    g.(on := g.on + {f}, pub := g.pub + {f})
  }

  /** The new node's place: every chained key is at most `p`'s or at least that of the node `p` linked to. */
  lemma LinkGap(nodes: seq<Node>, g: Ghost, p: int, f: int, i: int, j: int)
    requires CanLink(nodes, g, p, f) && i in g.on + {f} && i != TAIL && j in g.on + {f}
    ensures var nodes' := nodes[p := nodes[p].(next := f)];
            Nx(nodes', i) in g.on + {f} &&
            (Pos(nodes', j) <= Pos(nodes', i) || Pos(nodes', Nx(nodes', i)) <= Pos(nodes', j))
  {
    var nodes' := nodes[p := nodes[p].(next := f)];
    assert SameBut(nodes, nodes', p);
    assert Nx(nodes', p) == f && Nx(nodes', f) == Nx(nodes, p);
    if i == f {
      assert j != f ==> Pos(nodes, j) <= Pos(nodes, p) || Pos(nodes, Nx(nodes, p)) <= Pos(nodes, j);
    } else if i == p {
      assert j != f ==> Pos(nodes, j) <= Pos(nodes, p) || Pos(nodes, Nx(nodes, p)) <= Pos(nodes, j);
    } else {
      var near := if j == f then p else j;
      assert Pos(nodes, near) <= Pos(nodes, i) || Pos(nodes, Nx(nodes, i)) <= Pos(nodes, near);
      assert Pos(nodes, i) <= Pos(nodes, p) || Pos(nodes, Nx(nodes, p)) <= Pos(nodes, i);
    }
  }

  lemma LinkDistinct(nodes: seq<Node>, g: Ghost, p: int, f: int, i: int)
    requires CanLink(nodes, g, p, f) && i in g.on
    ensures Pos(nodes, i) != Pos(nodes, f)
  {
    assert Pos(nodes, i) <= Pos(nodes, p) || Pos(nodes, Nx(nodes, p)) <= Pos(nodes, i);
  }

  lemma LinkHeap(nodes: seq<Node>, g: Ghost, p: int, f: int)
    requires CanLink(nodes, g, p, f)
    ensures HeapInv(nodes[p := nodes[p].(next := f)], Linked(g, f))
  {
    var nodes' := nodes[p := nodes[p].(next := f)];
    assert SameBut(nodes, nodes', p);
    assert Nx(nodes', p) == f && Nx(nodes', f) == Nx(nodes, p);
    forall i, j | i in g.on + {f} && i != TAIL && j in g.on + {f}
      ensures Nx(nodes', i) in g.on + {f}
      ensures Pos(nodes', j) <= Pos(nodes', i) || Pos(nodes', Nx(nodes', i)) <= Pos(nodes', j)
    {
      LinkGap(nodes, g, p, f, i, j);
    }
    forall i | i in g.on ensures Pos(nodes, i) != Pos(nodes, f) { LinkDistinct(nodes, g, p, f, i); }
  }

  lemma LinkSeen(nodes: seq<Node>, g: Ghost, p: int, f: int, x: Seen, k: nat)
    requires CanLink(nodes, g, p, f) && k < Pos(nodes, TAIL) && SeenInv(nodes, g, x, k)
    ensures var nodes' := nodes[p := nodes[p].(next := f)];
            Sized(nodes', Linked(g, f)) && SeenInv(nodes', Linked(g, f), Look(x, nodes', Linked(g, f).on, k), k)
  {
    var nodes' := nodes[p := nodes[p].(next := f)];
    LinkHeap(nodes, g, p, f);
    assert SameBut(nodes, nodes', p);
    assert forall i | i in g.on :: Live(nodes, g.on, i, k) <==> Live(nodes', g.on + {f}, i, k);
    assert Absent(nodes', g.on + {f}, k) ==> Absent(nodes, g.on, k);
  }
}
