/** What the invariant says about the list as its callers see it. */
module LazyListTheorems {
  import opened LazyList
  import opened LazyListInvariant
  import opened LazyListHeap
  import opened LazyListSteps

  // ---- Runs ---------------------------------------------------------------------------------

  /** How a list is made: how many threads use it, the default value in its head, the sentinel in its tail. */
  datatype Config = Config(threads: nat, default: Entry, max: Entry)

  /** The state after the first `m` events. */
  function StateAt(c: Config, events: seq<Event>, m: nat): State
    requires m <= |events|
  {
    Run(Init(c.threads, c.default, c.max), events[..m])
  }

  lemma StateAtNext(c: Config, events: seq<Event>, m: nat)
    requires m < |events|
    ensures StateAt(c, events, m + 1) == Apply(StateAt(c, events, m), events[m])
  {
    assert events[..m + 1][..m] == events[..m];
  }

  ghost function GhostAt(c: Config, events: seq<Event>, m: nat): (g: Ghost)
    requires m <= |events|
    ensures |g.seen| == |StateAt(c, events, m).threads|
    decreases m
  {
    if m == 0 then AtStart(StateAt(c, events, 0))
    else
      StateAtNext(c, events, m - 1);
      Follow(GhostAt(c, events, m - 1), StateAt(c, events, m - 1), events[m - 1])
  }

  lemma {:induction false} RunHasInv(c: Config, events: seq<Event>, m: nat)
    requires m <= |events|
    ensures Inv(StateAt(c, events, m), GhostAt(c, events, m))
    decreases m
  {
    if m == 0 {
      StartHasInv(c.threads, c.default, c.max);
    } else {
      StateAtNext(c, events, m - 1);
      RunHasInv(c, events, m - 1);
      EventKeepsInv(StateAt(c, events, m - 1), GhostAt(c, events, m - 1), events[m - 1]);
    }
  }

  // ---- The chain ----------------------------------------------------------------------------

  /** The chained nodes from `i` on. */
  ghost function From(nodes: seq<Node>, g: Ghost, i: int): set<int>
    requires Sized(nodes, g) && i in g.on
  {
    set j | j in g.on && Pos(nodes, i) <= Pos(nodes, j)
  }

  lemma FromNext(nodes: seq<Node>, g: Ghost, i: int)
    requires HeapInv(nodes, g) && i in g.on && i != TAIL
    ensures Nx(nodes, i) in g.on && From(nodes, g, Nx(nodes, i)) == From(nodes, g, i) - {i}
  {
    assert Pos(nodes, i) < Pos(nodes, Nx(nodes, i));
    forall j | j in g.on ensures j in From(nodes, g, Nx(nodes, i)) <==> j in From(nodes, g, i) - {i} {
      assert Pos(nodes, j) <= Pos(nodes, i) || Pos(nodes, Nx(nodes, i)) <= Pos(nodes, j);
    }
  }

  /** A chain as the source draws it: linked node to node, keys strictly rising, ending at the tail. */
  predicate Rising(nodes: seq<Node>, c: seq<int>) {
    && (forall a | 0 <= a < |c| :: 0 <= c[a] < |nodes|)
    && (forall a | 0 <= a < |c| - 1 :: nodes[c[a]].next == c[a + 1])
    && (forall a, b | 0 <= a < b < |c| && c[a] != HEAD :: nodes[c[a]].entry.key < nodes[c[b]].entry.key)
    && (forall a, b | 0 <= a < b < |c| :: c[a] != c[b])
  }

  lemma RisingCons(nodes: seq<Node>, i: int, rest: seq<int>)
    requires 0 <= i < |nodes| && Rising(nodes, rest) && |rest| > 0 && nodes[i].next == rest[0]
    requires forall b | 0 <= b < |rest| :: Pos(nodes, i) < Pos(nodes, rest[b])
    ensures Rising(nodes, [i] + rest)
  {
  }

  lemma {:induction false} WalkFrom(nodes: seq<Node>, g: Ghost, i: int, fuel: nat)
    requires HeapInv(nodes, g) && i in g.on && |From(nodes, g, i)| <= fuel
    ensures var c := Walk(nodes, i, fuel);
            && |c| > 0 && c[0] == i && c[|c| - 1] == TAIL && Rising(nodes, c)
            && (forall j :: j in c <==> j in From(nodes, g, i))
    decreases fuel
  {
    assert i in From(nodes, g, i);
    if i == TAIL {
      forall j | j in From(nodes, g, TAIL) ensures j == TAIL { assert Pos(nodes, j) <= Pos(nodes, TAIL); }
      assert Nx(nodes, TAIL) == nodes[TAIL].next;
      assert Walk(nodes, NULL, fuel - 1) == [];
    } else {
      FromNext(nodes, g, i);
      var n := Nx(nodes, i);
      WalkFrom(nodes, g, n, fuel - 1);
      var rest := Walk(nodes, n, fuel - 1);
      assert Walk(nodes, i, fuel) == [i] + rest;
      forall b | 0 <= b < |rest| ensures Pos(nodes, i) < Pos(nodes, rest[b]) { assert rest[b] in From(nodes, g, n); }
      RisingCons(nodes, i, rest);
    }
  }

  /** A set of indices is no larger than the sequence. */
  lemma {:induction false} FewIndices(n: nat, on: set<int>)
    requires forall i | i in on :: 0 <= i < n
    ensures |on| <= n
  {
    if n == 0 {
      assert forall i :: i !in on;
    } else {
      FewIndices(n - 1, on - {n - 1});
      assert |on| <= |on - {n - 1}| + 1;
    }
  }

  /** The chain that the links make is the set the invariant talks about. */
  lemma ChainIs(s: State, g: Ghost)
    requires Inv(s, g)
    ensures var c := Chain(s);
            && |c| > 0 && c[0] == HEAD && c[|c| - 1] == TAIL && Rising(s.nodes, c)
            && (forall j :: j in c <==> j in g.on)
  {
    assert From(s.nodes, g, HEAD) == g.on;
    FewIndices(|s.nodes|, g.on);
    WalkFrom(s.nodes, g, HEAD, |s.nodes|);
  }

  /** Node `chain[a]`, marked, is being unlinked: who does it, and what it holds. */
  predicate BeingUnlinked(s: State, chain: seq<int>, a: nat)
    requires a < |chain|
  {
    && 0 < a && |s.owner| == |s.nodes| && 0 <= chain[a - 1] < |s.owner| && 0 <= chain[a] < |s.owner|
    && 0 <= s.owner[chain[a]] < |s.threads| && s.owner[chain[a - 1]] == s.owner[chain[a]]
    && var l := s.threads[s.owner[chain[a]]];
    && l.op.Remove? && (l.pc.ReadNext? || l.pc.Unlink?) && l.curr == chain[a] && l.pred == chain[a - 1]
  }

  lemma MarkedIsBeingUnlinked(s: State, g: Ghost, chain: seq<int>, a: nat)
    requires Inv(s, g) && chain == Chain(s) && a < |chain| && 0 <= chain[a] < |s.nodes| && s.nodes[chain[a]].marked
    ensures BeingUnlinked(s, chain, a)
  {
    ChainIs(s, g);
    assert chain[a] in g.on;
    RemoverHolds(s, g, chain[a]);
    assert chain[a - 1] in g.on && Nx(s.nodes, chain[a - 1]) == chain[a];
    OnePredecessor(s.nodes, g, s.threads[s.owner[chain[a]]].pred, chain[a - 1]);
  }

  lemma MakingIsPrivate(s: State, g: Ghost, i: int)
    requires Inv(s, g) && Making(s, i)
    ensures i !in g.pub
  {
    var t :| 0 <= t < |s.threads| && s.threads[t].pc.Link? && s.threads[t].tmp == i;
    assert ThreadInv(s, g, t);
  }

  /** In every reachable state the links from the head run through strictly increasing keys to the tail; every
      unmarked node is on that chain unless the thread that made it has yet to link it; and a marked node still on
      it is locked, together with its predecessor, by the one thread that is unlinking it. */
  lemma ChainShape(c: Config, events: seq<Event>)
    ensures var s := StateAt(c, events, |events|);
            var chain := Chain(s);
            && |chain| > 0 && chain[0] == HEAD && chain[|chain| - 1] == TAIL && Rising(s.nodes, chain)
            && (forall i | 0 <= i < |s.nodes| && !s.nodes[i].marked :: i in chain <==> !Making(s, i))
            && (forall a: nat | a < |chain| && s.nodes[chain[a]].marked :: BeingUnlinked(s, chain, a))
  {
    var s, g := StateAt(c, events, |events|), GhostAt(c, events, |events|);
    var chain := Chain(s);
    RunHasInv(c, events, |events|);
    ChainIs(s, g);
    forall i | 0 <= i < |s.nodes| && Making(s, i) ensures i !in g.pub { MakingIsPrivate(s, g, i); }
    forall a: nat | a < |chain| && s.nodes[chain[a]].marked ensures BeingUnlinked(s, chain, a) {
      MarkedIsBeingUnlinked(s, g, chain, a);
    }
  }

  lemma RemoverHolds(s: State, g: Ghost, i: int)
    requires Inv(s, g) && i in g.on && s.nodes[i].marked
    ensures |s.owner| == |s.nodes| && 0 <= i < |s.owner| && 0 <= s.owner[i] < |s.threads|
    ensures var l := s.threads[s.owner[i]];
            && l.op.Remove? && (l.pc.ReadNext? || l.pc.Unlink?) && l.curr == i
            && l.pred in g.on && l.pred != TAIL && Nx(s.nodes, l.pred) == i && s.owner[l.pred] == s.owner[i]
  {
    var t := s.owner[i];
    Critical(s, g, t);
    assert Holds(s.threads[t], s.threads[t].pred);
  }
}

/** Calls against the abstract map: where each takes effect, and what each read saw. */
module LazyListCalls {
  import opened LazyList
  import opened LazyListInvariant
  import opened LazyListHeap
  import opened LazyListSteps
  import opened LazyListTheorems

  // ---- The abstract map ---------------------------------------------------------------------

  ghost predicate Distinct(nodes: seq<Node>, chain: seq<int>) {
    forall a, b | 0 <= a < b < |chain| && IsLive(nodes, chain[a]) && IsLive(nodes, chain[b]) ::
      nodes[chain[a]].entry.key != nodes[chain[b]].entry.key
  }

  lemma {:induction false} MapOfMeans(nodes: seq<Node>, chain: seq<int>)
    requires Distinct(nodes, chain)
    ensures forall i | i in chain && IsLive(nodes, i) ::
              nodes[i].entry.key in MapOf(nodes, chain) && MapOf(nodes, chain)[nodes[i].entry.key] == nodes[i].entry
    ensures forall k | k in MapOf(nodes, chain) :: exists i :: i in chain && IsLive(nodes, i) && nodes[i].entry.key == k
  {
    if chain != [] {
      var rest := chain[1..];
      MapOfMeans(nodes, rest);
      forall i | i in rest && IsLive(nodes, i) && IsLive(nodes, chain[0])
        ensures nodes[i].entry.key != nodes[chain[0]].entry.key
      {
        var b :| 0 <= b < |rest| && rest[b] == i;
        assert chain[b + 1] == i;
      }
      assert chain == [chain[0]] + rest;
    }
  }

  /** The map binds exactly the keys of the chained unmarked nodes, each to its node's entry. */
  ghost predicate Means(s: State, on: set<int>) {
    && (forall k: nat :: k in Abs(s) <==> !Absent(s.nodes, on, k))
    && (forall i | i in on && IsLive(s.nodes, i) ::
          s.nodes[i].entry.key in Abs(s) && Abs(s)[s.nodes[i].entry.key] == s.nodes[i].entry)
  }

  lemma AbsMeans(s: State, g: Ghost)
    requires Inv(s, g)
    ensures Means(s, g.on)
  {
    ChainIs(s, g);
    var chain := Chain(s);
    MapOfMeans(s.nodes, chain);
    forall k: nat ensures k in Abs(s) <==> !Absent(s.nodes, g.on, k) {
      if k in Abs(s) {
        var i :| i in chain && IsLive(s.nodes, i) && s.nodes[i].entry.key == k;
        assert Live(s.nodes, g.on, i, k);
      } else {
        forall i | i in g.on ensures !Live(s.nodes, g.on, i, k) { assert i in chain; }
      }
    }
  }

  /** Apart from node `w`, the chained entries are the same. */
  ghost predicate SameElsewhere(s: State, on: set<int>, s': State, on': set<int>, w: int) {
    && (forall i | 2 <= i && i != w :: i in on && IsLive(s.nodes, i) <==> i in on' && IsLive(s'.nodes, i))
    && (forall i | i in on && IsLive(s.nodes, i) && i != w :: s'.nodes[i].entry == s.nodes[i].entry)
  }

  lemma AbsSame(s: State, on: set<int>, s': State, on': set<int>)
    requires Means(s, on) && Means(s', on') && SameElsewhere(s, on, s', on', NULL)
    ensures Abs(s') == Abs(s)
  {
    forall k: nat ensures k in Abs(s) <==> k in Abs(s') {
      assert forall i :: Live(s.nodes, on, i, k) <==> Live(s'.nodes, on', i, k);
    }
    forall k | k in Abs(s) ensures Abs(s')[k] == Abs(s)[k] {
      var i :| i in on && Live(s.nodes, on, i, k);
      assert i in on' && IsLive(s'.nodes, i);
    }
  }

  /** Node `w` is the only one to change: marked away, or made to hold the new entry, its key held by no other. */
  ghost predicate Committed(s: State, on: set<int>, s': State, on': set<int>, w: int, op: Op) {
    && SameElsewhere(s, on, s', on', w) && Updates(op)
    && (w in on && IsLive(s.nodes, w) ==> s.nodes[w].entry.key == KeyOf(op))
    && (if op.Add? then w in on' && IsLive(s'.nodes, w) && s'.nodes[w].entry == op.entry
        else w in on && IsLive(s.nodes, w) && !IsLive(s'.nodes, w))
    && (forall i | i in on' && i != w && IsLive(s'.nodes, i) :: s'.nodes[i].entry.key != KeyOf(op))
  }

  lemma AbsCommitted(s: State, on: set<int>, s': State, on': set<int>, w: int, op: Op)
    requires Means(s, on) && Means(s', on') && Committed(s, on, s', on', w, op)
    ensures Abs(s') == Effect(op, Abs(s))
    ensures op.Remove? ==> op.at in Abs(s)
  {
    var m := Effect(op, Abs(s));
    forall k: nat ensures k in Abs(s') <==> k in m {
      if k != KeyOf(op) {
        assert forall i :: Live(s.nodes, on, i, k) <==> Live(s'.nodes, on', i, k);
      } else if op.Add? {
        assert Live(s'.nodes, on', w, k);
      }
    }
    forall k | k in Abs(s') ensures Abs(s')[k] == m[k] {
      var i :| i in on' && Live(s'.nodes, on', i, k);
      assert i != w ==> i in on && IsLive(s.nodes, i);
    }
  }

  /** The steps at which an update takes effect. */
  predicate Commits(pc: Pc) {
    pc.Mark? || pc.Overwrite? || pc.Link?
  }

  lemma UnlinkShape(s: State, g: Ghost, t: nat)
    requires InCritical(s, g, t) && s.threads[t].pc.Unlink?
    ensures SameElsewhere(s, g.on, Step(s, t), FollowOn(g, s, Tick(t)), NULL)
  {
  }

  lemma QuietShape(s: State, g: Ghost, e: Event)
    requires Sized(s.nodes, g)
    requires e.Tick? && e.t < |s.threads| ==> !Commits(s.threads[e.t].pc) && !s.threads[e.t].pc.Unlink?
    ensures SameElsewhere(s, g.on, Apply(s, e), FollowOn(g, s, e), NULL)
  {
  }

  lemma QuietEffect(s: State, g: Ghost, e: Event)
    requires Inv(s, g)
    requires e.Tick? && e.t < |s.threads| ==> !Commits(s.threads[e.t].pc)
    ensures Abs(Apply(s, e)) == Abs(s)
  {
    EventKeepsInv(s, g, e);
    AbsMeans(s, g);
    AbsMeans(Apply(s, e), Follow(g, s, e));
    if e.Tick? && e.t < |s.threads| && s.threads[e.t].pc.Unlink? {
      Critical(s, g, e.t);
      UnlinkShape(s, g, e.t);
    } else {
      QuietShape(s, g, e);
    }
    AbsSame(s, g.on, Apply(s, e), FollowOn(g, s, e));
  }

  lemma OthersDiffer(nodes: seq<Node>, g: Ghost, w: int, i: int)
    requires HeapInv(nodes, g) && w in g.on && i in g.on && 2 <= i && 2 <= w && i != w
    ensures nodes[i].entry.key != nodes[w].entry.key
  {
    assert Pos(nodes, i) != Pos(nodes, w);
  }

  lemma CommitShape(s: State, g: Ghost, t: nat, s': State, g': Ghost)
    requires InCritical(s, g, t) && Commits(s.threads[t].pc) && Ticks(s, g, t, s', g') && HeapInv(s'.nodes, g')
    ensures var l := s.threads[t];
            Committed(s, g.on, s', g'.on, if l.pc.Link? then l.tmp else l.curr, l.op)
  {
    var l := s.threads[t];
    var w := if l.pc.Link? then l.tmp else l.curr;
    assert w in g'.on && s'.nodes[w].entry.key == KeyOf(l.op);
    forall i | i in g'.on && i != w && IsLive(s'.nodes, i) ensures s'.nodes[i].entry.key != KeyOf(l.op) {
      OthersDiffer(s'.nodes, g', w, i);
    }
  }

  /** A committing step is the sequential operation, done at once. */
  lemma CommitEffect(s: State, g: Ghost, t: nat)
    requires Inv(s, g) && t < |s.threads| && Commits(s.threads[t].pc)
    ensures Abs(Apply(s, Tick(t))) == Effect(s.threads[t].op, Abs(s))
    ensures s.threads[t].op.Remove? ==> s.threads[t].op.at in Abs(s)
  {
    var s', g', l := Apply(s, Tick(t)), Follow(g, s, Tick(t)), s.threads[t];
    EventKeepsInv(s, g, Tick(t));
    Critical(s, g, t);
    AbsMeans(s, g);
    AbsMeans(s', g');
    CommitShape(s, g, t, s', g');
    AbsCommitted(s, g.on, s', g'.on, if l.pc.Link? then l.tmp else l.curr, l.op);
  }

  // ---- One call -----------------------------------------------------------------------------

  /** Event `i` is a call of `op` by thread `t`, which is accepted and is still running after every later event
      before the `j`th. */
  ghost predicate Running(c: Config, events: seq<Event>, t: nat, op: Op, i: nat, j: nat) {
    && i < j <= |events| && events[i] == Call(t, op) && Accepts(StateAt(c, events, i), t, op)
    && (forall m | i < m < j :: t < |StateAt(c, events, m).threads| && Active(StateAt(c, events, m).threads[t]))
  }

  /** A call's outcome, returned by event `j - 1`. */
  ghost predicate Returns(c: Config, events: seq<Event>, t: nat, op: Op, i: nat, j: nat, out: Outcome) {
    && Running(c, events, t, op, i, j)
    && t < |StateAt(c, events, j).threads|
    && StateAt(c, events, j).threads[t].pc.Done? && StateAt(c, events, j).threads[t].out == out
  }

  ghost predicate AbsentAt(c: Config, events: seq<Event>, m: nat, k: nat)
    requires m <= |events|
  {
    k !in Abs(StateAt(c, events, m))
  }

  ghost predicate BoundAt(c: Config, events: seq<Event>, m: nat, k: nat, e: Entry)
    requires m <= |events|
  {
    k in Abs(StateAt(c, events, m)) && Abs(StateAt(c, events, m))[k] == e
  }

  /** At some moment after event `i` and up to event `j` the key was unbound, or bound to `e`. */
  ghost predicate SawAbsent(c: Config, events: seq<Event>, i: nat, j: nat, k: nat)
    requires j <= |events|
  {
    exists m | i < m <= j :: AbsentAt(c, events, m, k)
  }

  ghost predicate SawBound(c: Config, events: seq<Event>, i: nat, j: nat, k: nat, e: Entry)
    requires j <= |events|
  {
    exists m | i < m <= j :: BoundAt(c, events, m, k, e)
  }

  /** What a running thread's record gains with one event is what holds after it. */
  lemma SeenStep(s: State, g: Ghost, e: Event, t: nat, k: nat)
    requires Inv(s, g) && t < |s.threads|
    requires if Active(s.threads[t]) then k == KeyOf(s.threads[t].op)
             else e.Call? && e.t == t && Accepts(s, t, e.op) && k == KeyOf(e.op)
    ensures var s', x, x' := Apply(s, e), g.seen[t], Follow(g, s, e).seen[t];
            && (x'.absent ==> k !in Abs(s') || (Active(s.threads[t]) && x.absent))
            && (forall b | b in x'.bound :: (k in Abs(s') && Abs(s')[k] == b) || (Active(s.threads[t]) && b in x.bound))
  {
    var s', g' := Apply(s, e), Follow(g, s, e);
    EventKeepsInv(s, g, e);
    AbsMeans(s', g');
    assert g'.seen[t] == FollowSeen(g, s, e, t);
  }

  lemma StepKeepsOps(s: State, t: nat)
    requires Runs(s, t)
    ensures Step(s, t).threads == s.threads[t := Step(s, t).threads[t]]
    ensures Step(s, t).threads[t].op == s.threads[t].op
  {
  }

  lemma OpStays(s: State, e: Event, t: nat)
    requires t < |s.threads| && (Active(s.threads[t]) || (e.Call? && e.t == t && Accepts(s, t, e.op)))
    ensures |Apply(s, e).threads| == |s.threads|
    ensures Apply(s, e).threads[t].op == if Active(s.threads[t]) then s.threads[t].op else e.op
  {
    if e.Tick? && Runs(s, e.t) { StepKeepsOps(s, e.t); }
  }

  lemma OnlyTicksMove(s: State, e: Event, t: nat)
    requires t < |s.threads| && Active(s.threads[t]) && e != Tick(t)
    ensures t < |Apply(s, e).threads| && Apply(s, e).threads[t] == s.threads[t]
  {
    if e.Tick? && Runs(s, e.t) { StepKeepsOps(s, e.t); }
  }

  lemma SawMore(c: Config, events: seq<Event>, i: nat, j: nat, k: nat, e: Entry)
    requires i < j < |events|
    ensures SawAbsent(c, events, i, j, k) ==> SawAbsent(c, events, i, j + 1, k)
    ensures SawBound(c, events, i, j, k, e) ==> SawBound(c, events, i, j + 1, k, e)
  {
    if SawAbsent(c, events, i, j, k) { var m :| i < m <= j && AbsentAt(c, events, m, k); }
    if SawBound(c, events, i, j, k, e) { var m :| i < m <= j && BoundAt(c, events, m, k, e); }
  }

  lemma SeenStepAt(c: Config, events: seq<Event>, t: nat, op: Op, i: nat, p: nat, e: Entry)
    requires Running(c, events, t, op, i, p + 1)
    requires p > i ==> StateAt(c, events, p).threads[t].op == op
    ensures t < |StateAt(c, events, p).threads| == |StateAt(c, events, p + 1).threads|
    ensures StateAt(c, events, p + 1).threads[t].op == op
    ensures var x, x' := GhostAt(c, events, p).seen[t], GhostAt(c, events, p + 1).seen[t];
            && (x'.absent ==> AbsentAt(c, events, p + 1, KeyOf(op)) || (p > i && x.absent))
            && (e in x'.bound ==> BoundAt(c, events, p + 1, KeyOf(op), e) || (p > i && e in x.bound))
  {
    StateAtNext(c, events, p);
    RunHasInv(c, events, p);
    OpStays(StateAt(c, events, p), events[p], t);
    SeenStep(StateAt(c, events, p), GhostAt(c, events, p), events[p], t, KeyOf(op));
  }

  /** The running thread keeps its operation. */
  lemma {:induction false} OpIsKept(c: Config, events: seq<Event>, t: nat, op: Op, i: nat, j: nat)
    requires Running(c, events, t, op, i, j)
    ensures t < |StateAt(c, events, j).threads| && StateAt(c, events, j).threads[t].op == op
    decreases j
  {
    StateAtNext(c, events, j - 1);
    if j - 1 > i { OpIsKept(c, events, t, op, i, j - 1); }
    OpStays(StateAt(c, events, j - 1), events[j - 1], t);
  }

  /** What a call's record says it has seen did happen during the call. */
  lemma {:induction false} SeenIsHistory(c: Config, events: seq<Event>, t: nat, op: Op, i: nat, j: nat, e: Entry)
    requires Running(c, events, t, op, i, j)
    ensures t < |StateAt(c, events, j).threads|
    ensures GhostAt(c, events, j).seen[t].absent ==> SawAbsent(c, events, i, j, KeyOf(op))
    ensures e in GhostAt(c, events, j).seen[t].bound ==> SawBound(c, events, i, j, KeyOf(op), e)
    decreases j
  {
    var k, p := KeyOf(op), j - 1;
    if p > i {
      SeenIsHistory(c, events, t, op, i, p, e);
      OpIsKept(c, events, t, op, i, p);
      SawMore(c, events, i, p, k, e);
    }
    SeenStepAt(c, events, t, op, i, p, e);
  }

  // ---- Reads --------------------------------------------------------------------------------

  /** A lock-free `get` answers with something true of the list at a moment of its call: no entry for the key, or
      exactly the entry it returns. */
  lemma GetByHindsight(c: Config, events: seq<Event>, t: nat, k: nat, i: nat, j: nat, out: Outcome)
    requires Returns(c, events, t, Get(k), i, j, out)
    ensures match out
            case Missing => exists m | i < m <= j :: AbsentAt(c, events, m, k)
            case Found(e) => exists m | i < m <= j :: BoundAt(c, events, m, k, e)
            case _ => false
  {
    SeenIsHistory(c, events, t, Get(k), i, j, if out.Found? then out.entry else c.default);
    OpIsKept(c, events, t, Get(k), i, j);
    RunHasInv(c, events, j);
    assert ThreadInv(StateAt(c, events, j), GhostAt(c, events, j), t);
    if out.Found? { assert SawBound(c, events, i, j, k, out.entry); } else { assert SawAbsent(c, events, i, j, k); }
  }

  /** `contains` starts at the head and compares the head's own default value. Above that value it answers like
      `get`; at or below it the answer is the same whatever the list holds. */
  lemma ContainsByHindsight(c: Config, events: seq<Event>, t: nat, k: nat, i: nat, j: nat, out: Outcome)
    requires Returns(c, events, t, Contains(k), i, j, out)
    ensures out.Answer?
    ensures c.default.key < k ==> exists m | i < m <= j :: AbsentAt(c, events, m, k) == !out.ok
    ensures k <= c.default.key ==> out.ok == (k == c.default.key)
  {
    SeenIsHistory(c, events, t, Contains(k), i, j, c.default);
    OpIsKept(c, events, t, Contains(k), i, j);
    RunHasInv(c, events, j);
    HeadStays(c, events, j);
    assert ThreadInv(StateAt(c, events, j), GhostAt(c, events, j), t);
    if c.default.key < k {
      if out.ok {
        var e :| e in GhostAt(c, events, j).seen[t].bound;
        SeenIsHistory(c, events, t, Contains(k), i, j, e);
        var m :| i < m <= j && BoundAt(c, events, m, k, e);
        assert !AbsentAt(c, events, m, k);
      } else {
        assert SawAbsent(c, events, i, j, k);
      }
    }
  }

  /** No update reaches the head's entry. */
  lemma {:induction false} HeadStays(c: Config, events: seq<Event>, m: nat)
    requires m <= |events|
    ensures |StateAt(c, events, m).nodes| >= 2 && StateAt(c, events, m).nodes[HEAD].entry == c.default
    decreases m
  {
    RunHasInv(c, events, m);
    if m > 0 {
      HeadStays(c, events, m - 1);
      StateAtNext(c, events, m - 1);
      RunHasInv(c, events, m - 1);
      HeadKept(StateAt(c, events, m - 1), GhostAt(c, events, m - 1), events[m - 1]);
    }
  }

  lemma HeadKept(s: State, g: Ghost, e: Event)
    requires Inv(s, g)
    ensures |Apply(s, e).nodes| >= 2 && Apply(s, e).nodes[HEAD].entry == s.nodes[HEAD].entry
  {
    if e.Tick? && e.t < |s.threads| && Validated(s.threads[e.t].pc) { Critical(s, g, e.t); }
  }

  // ---- Updates ------------------------------------------------------------------------------

  /** The call has changed the map already. */
  predicate Past(l: Local) {
    l.pc.ReadNext? || l.pc.Unlink? || l.out == Answer(true)
  }

  /** Event `m - 1` is the step of `t` that changes the map. */
  ghost predicate CommitAt(c: Config, events: seq<Event>, t: nat, m: nat)
    requires m <= |events|
  {
    && 0 < m && events[m - 1] == Tick(t)
    && t < |StateAt(c, events, m - 1).threads| && Commits(StateAt(c, events, m - 1).threads[t].pc)
  }

  lemma PastStep(s: State, g: Ghost, t: nat)
    requires Inv(s, g) && t < |s.threads| && Active(s.threads[t]) && Updates(s.threads[t].op)
    ensures t < |Apply(s, Tick(t)).threads|
    ensures var l, l' := s.threads[t], Apply(s, Tick(t)).threads[t];
            if Commits(l.pc) then !Past(l) && Past(l') else Past(l') == Past(l)
    ensures var l, l' := s.threads[t], Apply(s, Tick(t)).threads[t];
            l'.out == Answer(false) && l.out != Answer(false) ==> l.pc.Compare?
  {
    PointersAreValid(s, g, t);
    assert ThreadInv(s, g, t);
  }

  lemma CompareSawAbsent(s: State, g: Ghost, t: nat)
    requires Inv(s, g) && t < |s.threads| && s.threads[t].pc.Compare?
    requires Apply(s, Tick(t)).threads[t].out == Answer(false)
    ensures KeyOf(s.threads[t].op) !in Abs(s)
  {
    Critical(s, g, t);
    AbsMeans(s, g);
    GapMeansAbsent(s.nodes, g, s.threads[t].pred, KeyOf(s.threads[t].op));
  }

  ghost predicate NoCommit(c: Config, events: seq<Event>, t: nat, i: nat, j: nat)
    requires j <= |events|
  {
    forall m | i < m <= j :: !CommitAt(c, events, t, m)
  }

  ghost predicate OneCommit(c: Config, events: seq<Event>, t: nat, i: nat, j: nat, m: nat)
    requires j <= |events|
  {
    i < m <= j && CommitAt(c, events, t, m) && forall q | i < q <= j && CommitAt(c, events, t, q) :: q == m
  }

  /** One event of a running update: it passes its commit exactly when it makes the committing step, and it decides
      to answer false only while it compares, with the key unbound. */
  lemma PastStepAt(c: Config, events: seq<Event>, t: nat, op: Op, i: nat, p: nat)
    requires Running(c, events, t, op, i, p + 1) && Updates(op)
    ensures t < |StateAt(c, events, p).threads| == |StateAt(c, events, p + 1).threads|
    ensures var l, l' := StateAt(c, events, p).threads[t], StateAt(c, events, p + 1).threads[t];
            && (p > i ==> Past(l') == (Past(l) || CommitAt(c, events, t, p + 1)))
            && (p > i ==> !(Past(l) && CommitAt(c, events, t, p + 1)))
            && (p == i ==> !Past(l') && !CommitAt(c, events, t, p + 1) && l'.out.Retry?)
            && (p > i && l'.out == Answer(false) && l.out != Answer(false) ==>
                  l.pc.Compare? && AbsentAt(c, events, p, KeyOf(op)))
  {
    StateAtNext(c, events, p);
    if p > i {
      OpIsKept(c, events, t, op, i, p);
      RunHasInv(c, events, p);
      var s, g := StateAt(c, events, p), GhostAt(c, events, p);
      if events[p] == Tick(t) {
        PastStep(s, g, t);
        if s.threads[t].pc.Compare? && Apply(s, Tick(t)).threads[t].out == Answer(false) { CompareSawAbsent(s, g, t); }
      } else {
        OnlyTicksMove(s, events[p], t);
      }
    }
  }

  /** A running update has had its one committing step, or none yet. */
  lemma {:induction false} CommitsOnce(c: Config, events: seq<Event>, t: nat, op: Op, i: nat, j: nat)
    requires Running(c, events, t, op, i, j) && Updates(op)
    ensures t < |StateAt(c, events, j).threads|
    ensures if Past(StateAt(c, events, j).threads[t]) then exists m: nat :: OneCommit(c, events, t, i, j, m)
            else NoCommit(c, events, t, i, j)
    decreases j
  {
    var p := j - 1;
    PastStepAt(c, events, t, op, i, p);
    if p > i {
      CommitsOnce(c, events, t, op, i, p);
      if Past(StateAt(c, events, p).threads[t]) {
        var m: nat :| OneCommit(c, events, t, i, p, m);
        assert OneCommit(c, events, t, i, j, m);
      } else if CommitAt(c, events, t, j) {
        assert OneCommit(c, events, t, i, j, j);
      }
    }
  }

  /** After `m` events `t`, holding both locks and validated, was about to compare, and the key was unbound. */
  ghost predicate ComparedAbsent(c: Config, events: seq<Event>, t: nat, k: nat, i: nat, j: nat, m: nat) {
    && i < m < j <= |events| && t < |StateAt(c, events, m).threads|
    && StateAt(c, events, m).threads[t].pc.Compare? && AbsentAt(c, events, m, k)
  }

  /** A `remove` answers false only after a moment, under both locks and validated, when its key was unbound. */
  lemma {:induction false} FalseWasAbsent(c: Config, events: seq<Event>, t: nat, op: Op, i: nat, j: nat)
    requires Running(c, events, t, op, i, j) && Updates(op)
    requires t < |StateAt(c, events, j).threads| && StateAt(c, events, j).threads[t].out == Answer(false)
    ensures exists m: nat :: ComparedAbsent(c, events, t, KeyOf(op), i, j, m)
    decreases j
  {
    var p := j - 1;
    PastStepAt(c, events, t, op, i, p);
    if p > i && StateAt(c, events, p).threads[t].out == Answer(false) {
      FalseWasAbsent(c, events, t, op, i, p);
      var m: nat :| ComparedAbsent(c, events, t, KeyOf(op), i, p, m);
      assert ComparedAbsent(c, events, t, KeyOf(op), i, j, m);
    } else {
      assert ComparedAbsent(c, events, t, KeyOf(op), i, j, p);
    }
  }

  /** Only a committing step changes the map, and it changes it as its operation says. */
  lemma MapChange(c: Config, events: seq<Event>, m: nat)
    requires m < |events|
    ensures var before, after := StateAt(c, events, m), StateAt(c, events, m + 1);
            if events[m].Tick? && events[m].t < |before.threads| && Commits(before.threads[events[m].t].pc)
            then
              var op := before.threads[events[m].t].op;
              Abs(after) == Effect(op, Abs(before)) && (op.Remove? ==> op.at in Abs(before))
            else Abs(after) == Abs(before)
  {
    StateAtNext(c, events, m);
    RunHasInv(c, events, m);
    var s, g := StateAt(c, events, m), GhostAt(c, events, m);
    if events[m].Tick? && events[m].t < |s.threads| && Commits(s.threads[events[m].t].pc) {
      CommitEffect(s, g, events[m].t);
    } else {
      QuietEffect(s, g, events[m]);
    }
  }

  /** The steps of `t` in its call that are not event `m - 1` leave the map alone. */
  ghost predicate OnlyChange(c: Config, events: seq<Event>, t: nat, i: nat, j: nat, m: nat)
    requires j <= |events|
  {
    forall q | i < q <= j && q != m && events[q - 1] == Tick(t) ::
      Abs(StateAt(c, events, q)) == Abs(StateAt(c, events, q - 1))
  }

  /** Event `m - 1`, a step of `t`, did to the map what `op` does. */
  ghost predicate TookEffectAt(c: Config, events: seq<Event>, t: nat, op: Op, m: nat)
    requires m <= |events|
  {
    && 0 < m && events[m - 1] == Tick(t)
    && Abs(StateAt(c, events, m)) == Effect(op, Abs(StateAt(c, events, m - 1)))
    && (op.Remove? ==> op.at in Abs(StateAt(c, events, m - 1)))
  }

  /** A finished `add` or successful `remove` took effect at exactly one of its steps, as the sequential operation; a
      `remove` that answers false changed nothing, and held both locks on a validated gap when its key was unbound. */
  lemma UpdateTakesEffectOnce(c: Config, events: seq<Event>, t: nat, op: Op, i: nat, j: nat, out: Outcome)
    requires Returns(c, events, t, op, i, j, out) && Updates(op)
    ensures out.Answer? && (op.Add? ==> out.ok)
    ensures out.ok ==>
              exists m | i < m <= j :: TookEffectAt(c, events, t, op, m) && OnlyChange(c, events, t, i, j, m)
    ensures !out.ok ==>
              OnlyChange(c, events, t, i, j, i) && exists m: nat :: ComparedAbsent(c, events, t, KeyOf(op), i, j, m)
  {
    AnswerOf(c, events, t, op, i, j, out);
    CommitsOnce(c, events, t, op, i, j);
    if out.ok {
      var m: nat :| OneCommit(c, events, t, i, j, m);
      MapChange(c, events, m - 1);
      CommitHasOp(c, events, t, op, i, m);
      OthersQuiet(c, events, t, i, j, m);
      assert TookEffectAt(c, events, t, op, m);
    } else {
      FalseWasAbsent(c, events, t, op, i, j);
      OthersQuiet(c, events, t, i, j, i);
    }
  }

  lemma AnswerOf(c: Config, events: seq<Event>, t: nat, op: Op, i: nat, j: nat, out: Outcome)
    requires Returns(c, events, t, op, i, j, out) && Updates(op)
    ensures out.Answer? && (op.Add? ==> out.ok)
  {
    OpIsKept(c, events, t, op, i, j);
    RunHasInv(c, events, j);
    assert ThreadInv(StateAt(c, events, j), GhostAt(c, events, j), t);
  }

  lemma CommitHasOp(c: Config, events: seq<Event>, t: nat, op: Op, i: nat, m: nat)
    requires i < m <= |events| && CommitAt(c, events, t, m) && (m - 1 > i ==> Running(c, events, t, op, i, m - 1))
    requires events[i].Call?
    ensures StateAt(c, events, m - 1).threads[t].op == op
  {
    if m - 1 > i { OpIsKept(c, events, t, op, i, m - 1); }
  }

  lemma OthersQuiet(c: Config, events: seq<Event>, t: nat, i: nat, j: nat, m: nat)
    requires i < j <= |events| && forall q | i < q <= j && CommitAt(c, events, t, q) :: q == m
    ensures OnlyChange(c, events, t, i, j, m)
  {
    forall q | i < q <= j && q != m && events[q - 1] == Tick(t)
      ensures Abs(StateAt(c, events, q)) == Abs(StateAt(c, events, q - 1))
    {
      assert !CommitAt(c, events, t, q);
      MapChange(c, events, q - 1);
    }
  }

  // ---- Waiting ------------------------------------------------------------------------------

  /** Thread `t` spins on a lock that thread `u` holds. */
  predicate WaitsFor(s: State, t: nat, u: nat) {
    && t < |s.threads| && |s.owner| == |s.nodes| && PointersValid(s, s.threads[t])
    && var l := s.threads[t];
       (l.pc.LockPred? && s.owner[l.pred] == u) || (l.pc.LockCurr? && s.owner[l.curr] == u)
  }

  predicate Blocked(s: State, t: nat) {
    exists u | 0 <= u < |s.threads| :: WaitsFor(s, t, u)
  }

  /** The place of the node whose lock a thread wants second. */
  ghost function Wanted(s: State, t: nat): int
    requires t < |s.threads|
  {
    if PointersValid(s, s.threads[t]) then Pos(s.nodes, s.threads[t].curr) else -1
  }

  /** A thread that waits and is waited for holds the lower of its two nodes and wants the higher. */
  lemma WaitClimbs(s: State, g: Ghost, t: nat, u: nat)
    requires Inv(s, g) && u < |s.threads| && WaitsFor(s, t, u)
    ensures Active(s.threads[u]) && Updates(s.threads[u].op) && !s.threads[u].pc.LockPred?
    ensures s.threads[u].pc.LockCurr? && s.threads[t].pc.LockCurr? ==> Wanted(s, t) < Wanted(s, u) <= Pos(s.nodes, TAIL)
  {
    var l, h := s.threads[t], s.threads[u];
    assert Holds(h, if l.pc.LockPred? then l.pred else l.curr);
    HolderShape(s, g, u);
  }

  lemma HolderShape(s: State, g: Ghost, u: nat)
    requires Inv(s, g) && u < |s.threads| && HoldsPred(s.threads[u].pc)
    ensures Active(s.threads[u]) && Updates(s.threads[u].op) && PointersValid(s, s.threads[u])
    ensures Pos(s.nodes, s.threads[u].pred) < Pos(s.nodes, s.threads[u].curr) == Wanted(s, u) <= Pos(s.nodes, TAIL)
  {
    assert ThreadInv(s, g, u);
    PointersAreValid(s, g, u);
    TailIsLast(s.nodes, g, s.threads[u].curr);
  }

  lemma TailIsLast(nodes: seq<Node>, g: Ghost, i: int)
    requires HeapInv(nodes, g)
    ensures i in g.pub ==> Pos(nodes, i) <= Pos(nodes, TAIL)
  {
  }

  predicate WaitLink(s: State, ts: seq<nat>, a: nat) {
    a + 1 < |ts| && ts[a + 1] < |s.threads| && WaitsFor(s, ts[a], ts[a + 1])
  }

  lemma {:induction false} ChainClimbs(s: State, g: Ghost, ts: seq<nat>, n: nat)
    requires Inv(s, g) && 0 < n < |ts|
    requires forall a: nat | a < |ts| - 1 :: WaitLink(s, ts, a)
    requires forall a | 0 <= a < |ts| :: ts[a] < |s.threads| && s.threads[ts[a]].pc.LockCurr?
    ensures Wanted(s, ts[0]) < Wanted(s, ts[n])
  {
    if n > 1 { ChainClimbs(s, g, ts, n - 1); }
    assert WaitLink(s, ts, n - 1);
    WaitClimbs(s, g, ts[n - 1], ts[n]);
  }

  /** In a circle each thread is also waited for, so each has its first lock and wants its second. */
  lemma CircleWantsCurr(s: State, g: Ghost, ts: seq<nat>, a: nat)
    requires Inv(s, g) && a < |ts| && |ts| >= 2 && ts[0] == ts[|ts| - 1]
    requires forall b: nat | b < |ts| - 1 :: WaitLink(s, ts, b)
    ensures ts[a] < |s.threads| && s.threads[ts[a]].pc.LockCurr?
  {
    var before := if a == 0 then |ts| - 2 else a - 1;
    var after := if a == |ts| - 1 then 0 else a;
    assert WaitLink(s, ts, before) && WaitLink(s, ts, after) && ts[after] == ts[a] == ts[before + 1];
    WaitClimbs(s, g, ts[before], ts[a]);
  }

  /** No reachable state has threads waiting for one another in a circle. */
  lemma NoWaitingCircle(c: Config, events: seq<Event>, ts: seq<nat>)
    requires |ts| >= 2 && ts[0] == ts[|ts| - 1]
    ensures exists a: nat | a < |ts| - 1 :: !WaitLink(StateAt(c, events, |events|), ts, a)
  {
    var s, g := StateAt(c, events, |events|), GhostAt(c, events, |events|);
    RunHasInv(c, events, |events|);
    if forall a: nat | a < |ts| - 1 :: WaitLink(s, ts, a) {
      forall a | 0 <= a < |ts| ensures ts[a] < |s.threads| && s.threads[ts[a]].pc.LockCurr? {
        CircleWantsCurr(s, g, ts, a);
      }
      ChainClimbs(s, g, ts, |ts| - 1);
    }
  }

  lemma {:induction false} HolderRuns(s: State, g: Ghost, t: nat) returns (u: nat)
    requires Inv(s, g) && t < |s.threads| && Blocked(s, t)
    ensures u < |s.threads| && Active(s.threads[u]) && !Blocked(s, u)
    decreases s.threads[t].pc.LockPred?, Pos(s.nodes, TAIL) - Wanted(s, t)
  {
    u :| 0 <= u < |s.threads| && WaitsFor(s, t, u);
    WaitClimbs(s, g, t, u);
    if Blocked(s, u) { u := HolderRuns(s, g, u); }
  }

  /** Whenever a call is running, some running call is not waiting for a lock, and its next step changes the state. */
  lemma SomeoneMoves(c: Config, events: seq<Event>, t: nat)
    requires t < |StateAt(c, events, |events|).threads| && Active(StateAt(c, events, |events|).threads[t])
    ensures var s := StateAt(c, events, |events|);
            exists u | 0 <= u < |s.threads| :: Active(s.threads[u]) && !Blocked(s, u) && Apply(s, Tick(u)) != s
  {
    var s, g := StateAt(c, events, |events|), GhostAt(c, events, |events|);
    RunHasInv(c, events, |events|);
    var u := t;
    if Blocked(s, t) { u := HolderRuns(s, g, t); }
    UnblockedMoves(s, g, u);
  }

  lemma UnblockedMoves(s: State, g: Ghost, u: nat)
    requires Inv(s, g) && u < |s.threads| && Active(s.threads[u]) && !Blocked(s, u)
    ensures Apply(s, Tick(u)) != s
  {
    PointersAreValid(s, g, u);
    assert ThreadInv(s, g, u);
    var l, l' := s.threads[u], Apply(s, Tick(u)).threads[u];
    assert l.pc.LockPred? && s.owner[l.pred] != FREE ==> WaitsFor(s, u, s.owner[l.pred]);
    assert l.pc.LockCurr? && s.owner[l.curr] != FREE ==> WaitsFor(s, u, s.owner[l.curr]);
    assert l'.pc != l.pc;
  }

  /** In every reachable state, every thread's next step dereferences only existing nodes. */
  lemma NoNullIsFollowed(c: Config, events: seq<Event>, t: nat)
    requires t < |StateAt(c, events, |events|).threads|
    ensures Runs(StateAt(c, events, |events|), t)
  {
    RunHasInv(c, events, |events|);
    PointersAreValid(StateAt(c, events, |events|), GhostAt(c, events, |events|), t);
  }
}
