/** Every event keeps the invariant, one group of program counters at a time. */
module LazyListSteps {
  import opened LazyList
  import opened LazyListInvariant
  import opened LazyListHeap

  ghost predicate Ready(s: State, g: Ghost, t: nat) {
    Inv(s, g) && t < |s.threads|
  }

  /** Inside the invariant no pointer a thread is about to follow is null. */
  lemma PointersAreValid(s: State, g: Ghost, t: nat)
    requires Ready(s, g, t)
    ensures Shaped(s) && PointersValid(s, s.threads[t])
  {
    assert ThreadInv(s, g, t);
  }

  /** A step of `t` leaves the new nodes of the others theirs. */
  lemma StillMaking(s: State, t: nat, s': State)
    requires t < |s.threads| == |s'.threads| && s'.threads == s.threads[t := s'.threads[t]]
    ensures forall i | Making(s, i) :: Making(s', i) || (s.threads[t].pc.Link? && s.threads[t].tmp == i)
  {
    forall i | Making(s, i) ensures Making(s', i) || (s.threads[t].pc.Link? && s.threads[t].tmp == i) {
      var u :| 0 <= u < |s.threads| && s.threads[u].pc.Link? && s.threads[u].tmp == i;
      assert u != t ==> s'.threads[u] == s.threads[u];
    }
  }

  // ---- The threads that do not move ---------------------------------------------------------

  /** An event that writes no node shows a running call nothing it has not seen. */
  lemma SettledSeen(s: State, g: Ghost, e: Event, u: nat)
    requires Inv(s, g) && u < |s.threads| && Apply(s, e).nodes == s.nodes && FollowOn(g, s, e) == g.on
    requires e.Call? && e.t == u ==> !Accepts(s, u, e.op)
    ensures FollowSeen(g, s, e, u) == g.seen[u]
  {
    assert ThreadInv(s, g, u);
    if Active(s.threads[u]) { LookSettles(s.nodes, g, g.seen[u], KeyOf(s.threads[u].op)); }
  }

  lemma FollowQuiet(s: State, g: Ghost, t: nat)
    requires Ready(s, g, t) && !Writes(s.threads[t].pc)
    ensures Follow(g, s, Tick(t)) == g
  {
    PointersAreValid(s, g, t);
    assert Apply(s, Tick(t)).nodes == s.nodes;
    forall u | 0 <= u < |g.seen| ensures FollowSeen(g, s, Tick(t), u) == g.seen[u] { SettledSeen(s, g, Tick(t), u); }
    assert Follow(g, s, Tick(t)).seen == g.seen;
  }

  /** What a write of node `w` may do, seen by threads that do not hold its lock. */
  ghost predicate ForeignWrite(nodes: seq<Node>, nodes': seq<Node>, g: Ghost, g': Ghost, w: int) {
    && HeapInv(nodes, g) && HeapInv(nodes', g')
    && w in g.on && |nodes'| == |nodes| && nodes' == nodes[w := nodes'[w]]
    && nodes'[w].entry.key == nodes[w].entry.key
    && (nodes'[w].entry == nodes[w].entry || (2 <= w && !nodes'[w].marked && w in g'.on))
    && g.pub <= g'.pub
  }

  lemma BystanderOfWrite(s: State, g: Ghost, s': State, g': Ghost, u: nat, w: int)
    requires ForeignWrite(s.nodes, s'.nodes, g, g', w)
    requires u < |s.threads| == |s'.threads| == |g.seen| == |g'.seen| && s'.threads[u] == s.threads[u]
    requires ThreadInv(s, g, u) && !Holds(s.threads[u], w)
    requires forall c | c in g.on && c !in g'.on :: !Holds(s.threads[u], c)
    requires s.threads[u].pc.Link? ==> s.threads[u].tmp !in g'.pub
    requires !Active(s.threads[u]) ==> g'.seen[u] == g.seen[u]
    requires Active(s.threads[u]) ==>
               && g'.seen[u] == Look(g.seen[u], s'.nodes, g'.on, KeyOf(s.threads[u].op))
               && SeenInv(s'.nodes, g', g'.seen[u], KeyOf(s.threads[u].op))
    ensures ThreadInv(s', g', u)
  {
    var l := s.threads[u];
    assert SameBut(s.nodes, s'.nodes, w);
    if Active(l) && !Updates(l.op) && (l.pc.GetCompare? || l.pc.GetEntry?) && l.curr == w
       && s'.nodes[w].entry != s.nodes[w].entry && Pos(s.nodes, w) == KeyOf(l.op) {
      BoundNowHas(s'.nodes, g'.on, KeyOf(l.op), w);
    }
  }

  // ---- The thread that moves ----------------------------------------------------------------

  ghost predicate Reads(pc: Pc) {
    !pc.LockPred? && !pc.LockCurr? && !pc.UnlockCurr? && !pc.UnlockPred? && !Writes(pc)
  }

  ghost predicate Writes(pc: Pc) {
    pc.Mark? || pc.Unlink? || pc.Overwrite? || pc.Alloc? || pc.Link?
  }

  lemma WalkStep(nodes: seq<Node>, g: Ghost, l: Local, x: Seen)
    requires HeapInv(nodes, g) && LocalInv(nodes, g, l, x)
    requires l.pc.Start? || l.pc.Test? || l.pc.Advance?
    ensures LocalInv(nodes, g, Read(nodes, l), x)
  {
    if !l.pc.Test? {
      var i := if l.pc.Start? then HEAD else l.curr;
      FollowLink(nodes, g, i, x, KeyOf(l.op));
    }
  }

  /** Following a link: the next node is published and further up, and a running call that has reached `i`
      has then reached the next node too, or has seen that nothing lies between. */
  lemma FollowLink(nodes: seq<Node>, g: Ghost, i: int, x: Seen, k: nat)
    requires HeapInv(nodes, g) && i in g.pub && i != TAIL && Pos(nodes, i) < k && SeenInv(nodes, g, x, k)
    ensures nodes[i].next in g.pub && Pos(nodes, i) < Pos(nodes, nodes[i].next) && nodes[i].next != HEAD
    ensures i in x.reached ==> nodes[i].next in x.reached && (k < Pos(nodes, nodes[i].next) ==> x.absent)
  {
    assert Nx(nodes, i) == nodes[i].next;
    if i in g.on && k < Pos(nodes, Nx(nodes, i)) { GapMeansAbsent(nodes, g, i, k); }
  }

  /** Validation: each check that succeeds adds its fact, each that fails sends the thread back to unlock. */
  lemma ValidateStep(nodes: seq<Node>, g: Ghost, l: Local)
    requires Sized(nodes, g) && l.pred in g.pub && l.curr in g.pub && UpdaterInv(nodes, g, l)
    requires l.pc.CheckPred? || l.pc.CheckCurr? || l.pc.CheckLink? || l.pc.Compare? || l.pc.ReadNext?
    ensures UpdaterInv(nodes, g, Read(nodes, l))
  {
  }

  lemma CompareStep(nodes: seq<Node>, g: Ghost, l: Local, x: Seen)
    requires HeapInv(nodes, g) && l.pred in g.pub && l.curr in g.pub && UpdaterInv(nodes, g, l)
    requires SeenInv(nodes, g, x, KeyOf(l.op)) && l.pc.Compare?
    ensures Read(nodes, l).out == Answer(false) && l.out != Answer(false) ==> x.absent
  {
    assert Nx(nodes, l.pred) == l.curr;
    if KeyOf(l.op) < Pos(nodes, l.curr) { GapMeansAbsent(nodes, g, l.pred, KeyOf(l.op)); }
  }

  lemma AnswerStep(nodes: seq<Node>, g: Ghost, l: Local, x: Seen)
    requires HeapInv(nodes, g) && LocalInv(nodes, g, l, x) && Reading(l.pc)
    ensures LocalInv(nodes, g, Read(nodes, l), x)
  {
    var k := KeyOf(l.op);
    if !nodes[l.curr].marked && 2 <= l.curr && nodes[l.curr].entry.key == k { BoundNowHas(nodes, g.on, k, l.curr); }
  }

  lemma ReadStep(nodes: seq<Node>, g: Ghost, l: Local, x: Seen)
    requires HeapInv(nodes, g) && LocalInv(nodes, g, l, x) && Reads(l.pc)
    ensures LocalInv(nodes, g, Read(nodes, l), x)
  {
    if l.pc.Start? || l.pc.Test? || l.pc.Advance? { WalkStep(nodes, g, l, x); }
    else if Reading(l.pc) { AnswerStep(nodes, g, l, x); }
    else if Active(l) {
      ValidateStep(nodes, g, l);
      if l.pc.Compare? { CompareStep(nodes, g, l, x); }
    }
  }

  lemma ReadControl(s: State, g: Ghost, t: nat)
    requires Sized(s.nodes, g) && ControlInv(s, g) && t < |s.threads|
    requires PointersValid(s, s.threads[t]) && Reads(s.threads[t].pc)
    ensures ControlInv(SetLocal(s, t, Read(s.nodes, s.threads[t])), g)
  {
    StillMaking(s, t, SetLocal(s, t, Read(s.nodes, s.threads[t])));
    var l' := Read(s.nodes, s.threads[t]);
    assert forall i :: Holds(l', i) == Holds(s.threads[t], i);
  }

  lemma ReadKeepsInv(s: State, g: Ghost, t: nat)
    requires Ready(s, g, t) && Reads(s.threads[t].pc)
    ensures Inv(Apply(s, Tick(t)), Follow(g, s, Tick(t)))
  {
    FollowQuiet(s, g, t);
    PointersAreValid(s, g, t);
    assert ThreadInv(s, g, t);
    ReadStep(s.nodes, g, s.threads[t], g.seen[t]);
    ReadControl(s, g, t);
    var s' := Apply(s, Tick(t));
    forall u | 0 <= u < |s'.threads| ensures ThreadInv(s', g, u) { assert ThreadInv(s, g, u); }
  }

  // ---- Lock and unlock ----------------------------------------------------------------------

  lemma LockOwners(s: State, t: nat)
    requires Shaped(s) && LockInv(s) && t < |s.threads|
    requires PointersValid(s, s.threads[t]) && !Reads(s.threads[t].pc) && !Writes(s.threads[t].pc)
    requires s.threads[t].pred != s.threads[t].curr
    ensures LockInv(Step(s, t))
  {
    var s' := Step(s, t);
    var l := s.threads[t];
    var i := if l.pc.LockPred? || l.pc.UnlockPred? then l.pred else l.curr;
    assert Holds(l, i) <==> s.owner[i] == t;
    assert forall j | j != i :: Holds(s'.threads[t], j) == Holds(l, j);
  }

  /** A node being removed stays locked by its remover. */
  lemma LockRemoval(s: State, g: Ghost, t: nat)
    requires Sized(s.nodes, g) && ControlInv(s, g) && t < |s.threads|
    requires PointersValid(s, s.threads[t]) && !Reads(s.threads[t].pc) && !Writes(s.threads[t].pc)
    requires s.threads[t].pred != s.threads[t].curr
    ensures RemovalInv(Step(s, t), g) && PrivateInv(Step(s, t), g)
  {
    StillMaking(s, t, Step(s, t));
    var l := s.threads[t];
    assert l.pc.UnlockPred? ==> s.owner[l.pred] == t by { assert l.pc.UnlockPred? ==> Holds(l, l.pred); }
    assert l.pc.UnlockCurr? ==> s.owner[l.curr] == t by { assert l.pc.UnlockCurr? ==> Holds(l, l.curr); }
  }

  lemma LockLocal(nodes: seq<Node>, g: Ghost, l: Local, x: Seen, pc: Pc)
    requires HeapInv(nodes, g) && LocalInv(nodes, g, l, x) && Active(l)
    requires match l.pc
             case LockPred => pc.LockCurr?
             case LockCurr => pc.CheckPred?
             case UnlockCurr => pc.UnlockPred?
             case UnlockPred => pc == if l.out.Retry? then Start else Done
             case _ => false
    ensures LocalInv(nodes, g, l.(pc := pc), x) && l.pred != l.curr
  {
  }

  /** Only the lock, and the mover's program counter, change. */
  lemma LockShape(s: State, g: Ghost, t: nat)
    requires Ready(s, g, t) && !Reads(s.threads[t].pc) && !Writes(s.threads[t].pc)
    ensures Shaped(s) && PointersValid(s, s.threads[t]) && s.threads[t].pred != s.threads[t].curr
    ensures Step(s, t).nodes == s.nodes && LocalInv(s.nodes, g, Step(s, t).threads[t], g.seen[t])
    ensures Step(s, t).threads == s.threads[t := Step(s, t).threads[t]]
  {
    PointersAreValid(s, g, t);
    assert ThreadInv(s, g, t);
    var l := s.threads[t];
    LockLocal(s.nodes, g, l, g.seen[t],
              if l.pc.LockPred? then LockCurr else if l.pc.LockCurr? then CheckPred
              else if l.pc.UnlockCurr? then UnlockPred else if l.out.Retry? then Start else Done);
  }

  lemma LockKeepsInv(s: State, g: Ghost, t: nat)
    requires Ready(s, g, t) && !Reads(s.threads[t].pc) && !Writes(s.threads[t].pc)
    ensures Inv(Apply(s, Tick(t)), Follow(g, s, Tick(t)))
  {
    FollowQuiet(s, g, t);
    LockShape(s, g, t);
    LockOwners(s, t);
    LockRemoval(s, g, t);
    var s' := Step(s, t);
    forall u | 0 <= u < |s'.threads| ensures ThreadInv(s', g, u) { assert ThreadInv(s, g, u); }
  }

  // ---- The five writes ----------------------------------------------------------------------

  /** Two threads never hold the same node. */
  lemma HoldersDiffer(s: State, t: nat, u: nat, i: int)
    requires LockInv(s) && t < |s.threads| && u < |s.threads| && t != u && 0 <= i < |s.nodes|
    requires Holds(s.threads[t], i)
    ensures !Holds(s.threads[u], i)
  {
    assert s.owner[i] == t;
  }

  /** Thread `t` went from `s` to `s'` by writing node `w`, which it holds; every node it took off the chain
      it holds as well, and the only node it may have published is the one it made. */
  ghost predicate WriteBy(s: State, g: Ghost, t: nat, s': State, g': Ghost, w: int) {
    && Ready(s, g, t) && |s'.threads| == |s.threads| == |g'.seen|
    && ForeignWrite(s.nodes, s'.nodes, g, g', w) && Holds(s.threads[t], w)
    && (forall c | c in g.on && c !in g'.on :: Holds(s.threads[t], c))
    && (forall i | i in g'.pub && i !in g.pub :: s.threads[t].pc.Link? && i == s.threads[t].tmp)
    && s'.threads == s.threads[t := s'.threads[t]]
    && (forall u | 0 <= u < |s.threads| :: g'.seen[u] == Recorded(g, s.threads[u], u, s'.nodes, g'.on))
  }

  ghost predicate SeenAfter(s: State, s': State, g': Ghost, u: nat)
    requires u < |g'.seen| == |s.threads| && Sized(s'.nodes, g')
  {
    Active(s.threads[u]) ==> SeenInv(s'.nodes, g', g'.seen[u], KeyOf(s.threads[u].op))
  }

  lemma Bystander(s: State, g: Ghost, t: nat, s': State, g': Ghost, w: int, u: nat)
    requires WriteBy(s, g, t, s', g', w) && u < |s.threads| && u != t && SeenAfter(s, s', g', u)
    ensures ThreadInv(s', g', u)
  {
    assert ThreadInv(s, g, u);
    HoldersDiffer(s, t, u, w);
    forall c | c in g.on && c !in g'.on ensures !Holds(s.threads[u], c) { HoldersDiffer(s, t, u, c); }
    BystanderOfWrite(s, g, s', g', u, w);
  }

  lemma WriteKeepsInv(s: State, g: Ghost, t: nat, s': State, g': Ghost, w: int)
    requires WriteBy(s, g, t, s', g', w)
    requires forall u {:trigger SeenAfter(s, s', g', u)} | 0 <= u < |s.threads| :: SeenAfter(s, s', g', u)
    requires ControlInv(s', g') && LocalInv(s'.nodes, g', s'.threads[t], g'.seen[t])
    ensures Inv(s', g')
  {
    forall u | 0 <= u < |s'.threads| ensures ThreadInv(s', g', u) {
      if u != t {
        assert SeenAfter(s, s', g', u);
        Bystander(s, g, t, s', g', w, u);
      }
    }
  }

  /** Inside the critical section both nodes are chained, neighbours and held. */
  ghost predicate InCritical(s: State, g: Ghost, t: nat) {
    && Ready(s, g, t) && Runs(s, t)
    && var l := s.threads[t];
    && Validated(l.pc) && l.pred in g.pub && l.curr in g.pub && UpdaterInv(s.nodes, g, l) && KeyOf(l.op) < Pos(s.nodes, TAIL)
    && l.pred in g.on && l.curr in g.on && l.pred != l.curr && l.pred != TAIL && l.curr != HEAD
    && Nx(s.nodes, l.pred) == l.curr
    && (Pos(s.nodes, l.curr) == KeyOf(l.op) ==> 2 <= l.curr)
    && Holds(l, l.pred) && Holds(l, l.curr)
  }

  lemma Critical(s: State, g: Ghost, t: nat)
    requires Ready(s, g, t) && Validated(s.threads[t].pc)
    ensures InCritical(s, g, t)
  {
    PointersAreValid(s, g, t);
    assert ThreadInv(s, g, t);
  }

  /** The state, and what has been seen, after a tick of `t`. */
  ghost predicate Ticks(s: State, g: Ghost, t: nat, s': State, g': Ghost) {
    |g.seen| == |s.threads| && Runs(s, t) && s' == Step(s, t) && g' == Follow(g, s, Tick(t))
  }

  /** What `u` has seen after a write, from the write's own lemma. */
  ghost predicate Recorder(s: State, g: Ghost, s': State, g': Ghost, u: nat) {
    && u < |s.threads| == |g.seen| == |g'.seen| && Sized(s.nodes, g) && HeapInv(s.nodes, g) && ThreadInv(s, g, u)
    && g'.seen[u] == Recorded(g, s.threads[u], u, s'.nodes, g'.on)
  }

  lemma RecorderOfTick(s: State, g: Ghost, t: nat, s': State, g': Ghost, u: nat)
    requires Ready(s, g, t) && Ticks(s, g, t, s', g') && u < |s.threads|
    ensures Recorder(s, g, s', g', u)
  {
    assert g'.seen[u] == FollowSeen(g, s, Tick(t), u);
    assert ThreadInv(s, g, u);
  }

  lemma MarkSeenAfter(s: State, g: Ghost, s': State, g': Ghost, u: nat, c: int)
    requires Recorder(s, g, s', g', u) && c in g.on && 2 <= c
    requires s'.nodes == s.nodes[c := s.nodes[c].(marked := true)]
    requires g'.on == g.on && g'.pub == g.pub
    ensures Sized(s'.nodes, g') && SeenAfter(s, s', g', u)
  {
    MarkHeap(s.nodes, g, c);
    if Active(s.threads[u]) { MarkSeen(s.nodes, g, c, g.seen[u], KeyOf(s.threads[u].op)); }
  }

  lemma MarkControl(s: State, g: Ghost, t: nat, g': Ghost)
    requires InCritical(s, g, t) && s.threads[t].pc.Mark? && Ticks(s, g, t, Step(s, t), g')
    ensures Sized(Step(s, t).nodes, g') && ControlInv(Step(s, t), g')
  {
    StillMaking(s, t, Step(s, t));
    var l := s.threads[t];
    assert s.owner[l.curr] == t;
    assert forall i :: Holds(Step(s, t).threads[t], i) == Holds(l, i);
  }

  lemma MarkIsWrite(s: State, g: Ghost, t: nat, s': State, g': Ghost)
    requires InCritical(s, g, t) && s.threads[t].pc.Mark? && Ticks(s, g, t, s', g')
    ensures WriteBy(s, g, t, s', g', s.threads[t].curr)
  {
    var l := s.threads[t];
    MarkHeap(s.nodes, g, l.curr);
    assert forall u | 0 <= u < |s.threads| :: g'.seen[u] == FollowSeen(g, s, Tick(t), u);
  }

  lemma MarkMover(s: State, g: Ghost, t: nat, s': State, g': Ghost)
    requires InCritical(s, g, t) && s.threads[t].pc.Mark? && Ticks(s, g, t, s', g') && Sized(s'.nodes, g')
    ensures UpdaterInv(s'.nodes, g', s'.threads[t])
  {
  }

  lemma MarkKeepsInv(s: State, g: Ghost, t: nat)
    requires Ready(s, g, t) && s.threads[t].pc.Mark?
    ensures Inv(Apply(s, Tick(t)), Follow(g, s, Tick(t)))
  {
    Critical(s, g, t);
    var s', g', l := Step(s, t), Follow(g, s, Tick(t)), s.threads[t];
    MarkControl(s, g, t, g');
    MarkIsWrite(s, g, t, s', g');
    MarkMover(s, g, t, s', g');
    forall u | 0 <= u < |s.threads| ensures SeenAfter(s, s', g', u) {
      RecorderOfTick(s, g, t, s', g', u);
      MarkSeenAfter(s, g, s', g', u, l.curr);
    }
    WriteDone(s, g, t, s', g', l.curr);
  }

  lemma UnlinkSeenAfter(s: State, g: Ghost, s': State, g': Ghost, u: nat, p: int, c: int)
    requires Recorder(s, g, s', g', u) && CanUnlink(s.nodes, g, p, c)
    requires s'.nodes == s.nodes[p := s.nodes[p].(next := Nx(s.nodes, c))]
    requires g'.on == g.on - {c} && g'.pub == g.pub
    ensures Sized(s'.nodes, g') && SeenAfter(s, s', g', u)
  {
    UnlinkHeap(s.nodes, g, p, c);
    if Active(s.threads[u]) { UnlinkSeen(s.nodes, g, p, c, g.seen[u], KeyOf(s.threads[u].op)); }
  }

  lemma UnlinkControl(s: State, g: Ghost, t: nat, g': Ghost)
    requires InCritical(s, g, t) && s.threads[t].pc.Unlink? && Ticks(s, g, t, Step(s, t), g')
    ensures Sized(Step(s, t).nodes, g') && ControlInv(Step(s, t), g')
  {
    StillMaking(s, t, Step(s, t));
    var l := s.threads[t];
    assert s.owner[l.curr] == t;
    assert forall i :: Holds(Step(s, t).threads[t], i) == Holds(l, i);
  }

  lemma UnlinkIsWrite(s: State, g: Ghost, t: nat, s': State, g': Ghost)
    requires InCritical(s, g, t) && s.threads[t].pc.Unlink? && Ticks(s, g, t, s', g')
    ensures WriteBy(s, g, t, s', g', s.threads[t].pred)
  {
    var l := s.threads[t];
    UnlinkHeap(s.nodes, g, l.pred, l.curr);
    assert forall u | 0 <= u < |s.threads| :: g'.seen[u] == FollowSeen(g, s, Tick(t), u);
  }

  lemma UnlinkMover(s: State, g: Ghost, t: nat, s': State, g': Ghost)
    requires InCritical(s, g, t) && s.threads[t].pc.Unlink? && Ticks(s, g, t, s', g') && Sized(s'.nodes, g')
    ensures UpdaterInv(s'.nodes, g', s'.threads[t])
  {
  }

  lemma UnlinkKeepsInv(s: State, g: Ghost, t: nat)
    requires Ready(s, g, t) && s.threads[t].pc.Unlink?
    ensures Inv(Apply(s, Tick(t)), Follow(g, s, Tick(t)))
  {
    Critical(s, g, t);
    var s', g', l := Step(s, t), Follow(g, s, Tick(t)), s.threads[t];
    UnlinkControl(s, g, t, g');
    UnlinkIsWrite(s, g, t, s', g');
    UnlinkMover(s, g, t, s', g');
    forall u | 0 <= u < |s.threads| ensures SeenAfter(s, s', g', u) {
      RecorderOfTick(s, g, t, s', g', u);
      UnlinkSeenAfter(s, g, s', g', u, l.pred, l.curr);
    }
    WriteDone(s, g, t, s', g', l.pred);
  }

  lemma OverwriteSeenAfter(s: State, g: Ghost, s': State, g': Ghost, u: nat, c: int, e: Entry)
    requires Recorder(s, g, s', g', u) && c in g.on && 2 <= c && e.key == s.nodes[c].entry.key
    requires s'.nodes == s.nodes[c := s.nodes[c].(entry := e)]
    requires g'.on == g.on && g'.pub == g.pub
    ensures Sized(s'.nodes, g') && SeenAfter(s, s', g', u)
  {
    OverwriteHeap(s.nodes, g, c, e);
    if Active(s.threads[u]) { OverwriteSeen(s.nodes, g, c, e, g.seen[u], KeyOf(s.threads[u].op)); }
  }

  lemma OverwriteControl(s: State, g: Ghost, t: nat, g': Ghost)
    requires InCritical(s, g, t) && s.threads[t].pc.Overwrite? && Ticks(s, g, t, Step(s, t), g')
    ensures Sized(Step(s, t).nodes, g') && ControlInv(Step(s, t), g')
  {
    StillMaking(s, t, Step(s, t));
    var l := s.threads[t];
    assert forall i :: Holds(Step(s, t).threads[t], i) == Holds(l, i);
  }

  lemma OverwriteIsWrite(s: State, g: Ghost, t: nat, s': State, g': Ghost)
    requires InCritical(s, g, t) && s.threads[t].pc.Overwrite? && Ticks(s, g, t, s', g')
    ensures WriteBy(s, g, t, s', g', s.threads[t].curr)
  {
    var l := s.threads[t];
    OverwriteHeap(s.nodes, g, l.curr, l.op.entry);
    assert forall u | 0 <= u < |s.threads| :: g'.seen[u] == FollowSeen(g, s, Tick(t), u);
  }

  lemma OverwriteMover(s: State, g: Ghost, t: nat, s': State, g': Ghost)
    requires InCritical(s, g, t) && s.threads[t].pc.Overwrite? && Ticks(s, g, t, s', g') && Sized(s'.nodes, g')
    ensures UpdaterInv(s'.nodes, g', s'.threads[t])
  {
  }

  lemma OverwriteKeepsInv(s: State, g: Ghost, t: nat)
    requires Ready(s, g, t) && s.threads[t].pc.Overwrite?
    ensures Inv(Apply(s, Tick(t)), Follow(g, s, Tick(t)))
  {
    Critical(s, g, t);
    var s', g', l := Step(s, t), Follow(g, s, Tick(t)), s.threads[t];
    OverwriteControl(s, g, t, g');
    OverwriteIsWrite(s, g, t, s', g');
    OverwriteMover(s, g, t, s', g');
    forall u | 0 <= u < |s.threads| ensures SeenAfter(s, s', g', u) {
      RecorderOfTick(s, g, t, s', g', u);
      OverwriteSeenAfter(s, g, s', g', u, l.curr, l.op.entry);
    }
    WriteDone(s, g, t, s', g', l.curr);
  }

  lemma LinkSeenAfter(s: State, g: Ghost, s': State, g': Ghost, u: nat, p: int, f: int)
    requires Recorder(s, g, s', g', u) && CanLink(s.nodes, g, p, f)
    requires s'.nodes == s.nodes[p := s.nodes[p].(next := f)]
    requires g'.on == g.on + {f} && g'.pub == g.pub + {f}
    ensures Sized(s'.nodes, g') && SeenAfter(s, s', g', u)
  {
    LinkHeap(s.nodes, g, p, f);
    if Active(s.threads[u]) { LinkSeen(s.nodes, g, p, f, g.seen[u], KeyOf(s.threads[u].op)); }
  }

  lemma LinkControl(s: State, g: Ghost, t: nat, g': Ghost)
    requires InCritical(s, g, t) && s.threads[t].pc.Link? && Ticks(s, g, t, Step(s, t), g')
    ensures Sized(Step(s, t).nodes, g') && ControlInv(Step(s, t), g')
  {
    StillMaking(s, t, Step(s, t));
    var l := s.threads[t];
    assert forall i :: Holds(Step(s, t).threads[t], i) == Holds(l, i);
  }

  lemma LinkIsWrite(s: State, g: Ghost, t: nat, s': State, g': Ghost)
    requires InCritical(s, g, t) && s.threads[t].pc.Link? && Ticks(s, g, t, s', g')
    ensures WriteBy(s, g, t, s', g', s.threads[t].pred)
  {
    var l := s.threads[t];
    LinkHeap(s.nodes, g, l.pred, l.tmp);
    assert forall u | 0 <= u < |s.threads| :: g'.seen[u] == FollowSeen(g, s, Tick(t), u);
  }

  lemma LinkMover(s: State, g: Ghost, t: nat, s': State, g': Ghost)
    requires InCritical(s, g, t) && s.threads[t].pc.Link? && Ticks(s, g, t, s', g') && Sized(s'.nodes, g')
    ensures UpdaterInv(s'.nodes, g', s'.threads[t])
  {
  }

  lemma LinkKeepsInv(s: State, g: Ghost, t: nat)
    requires Ready(s, g, t) && s.threads[t].pc.Link?
    ensures Inv(Apply(s, Tick(t)), Follow(g, s, Tick(t)))
  {
    Critical(s, g, t);
    var s', g', l := Step(s, t), Follow(g, s, Tick(t)), s.threads[t];
    LinkControl(s, g, t, g');
    LinkIsWrite(s, g, t, s', g');
    LinkMover(s, g, t, s', g');
    forall u | 0 <= u < |s.threads| ensures SeenAfter(s, s', g', u) {
      RecorderOfTick(s, g, t, s', g', u);
      LinkSeenAfter(s, g, s', g', u, l.pred, l.tmp);
    }
    WriteDone(s, g, t, s', g', l.pred);
  }

  /** The mover leaves its write with both nodes still published. */
  lemma MoverDone(s: State, g: Ghost, t: nat, s': State, g': Ghost, w: int)
    requires InCritical(s, g, t) && WriteBy(s, g, t, s', g', w) && SeenAfter(s, s', g', t)
    requires var l, l' := s.threads[t], s'.threads[t];
             l'.op == l.op && l'.pred == l.pred && l'.curr == l.curr && UpdaterInv(s'.nodes, g', l') && Active(l')
             && l'.out != Answer(false)
    ensures LocalInv(s'.nodes, g', s'.threads[t], g'.seen[t])
  {
    assert SameBut(s.nodes, s'.nodes, w);
  }

  lemma WriteDone(s: State, g: Ghost, t: nat, s': State, g': Ghost, w: int)
    requires InCritical(s, g, t) && WriteBy(s, g, t, s', g', w) && ControlInv(s', g')
    requires forall u {:trigger SeenAfter(s, s', g', u)} | 0 <= u < |s.threads| :: SeenAfter(s, s', g', u)
    requires var l, l' := s.threads[t], s'.threads[t];
             l'.op == l.op && l'.pred == l.pred && l'.curr == l.curr && UpdaterInv(s'.nodes, g', l') && Active(l')
             && l'.out != Answer(false)
    ensures Inv(s', g')
  {
    assert SeenAfter(s, s', g', t);
    MoverDone(s, g, t, s', g', w);
    WriteKeepsInv(s, g, t, s', g', w);
  }

  // ---- Alloc and call -----------------------------------------------------------------------

  lemma AllocLocal(nodes: seq<Node>, g: Ghost, n: Node, l: Local, x: Seen)
    requires HeapInv(nodes, g) && LocalInv(nodes, g, l, x)
    ensures HeapInv(nodes + [n], g) && LocalInv(nodes + [n], g, l, x)
    ensures Active(l) ==> Look(x, nodes + [n], g.on, KeyOf(l.op)) == x
  {
    AllocHeap(nodes, g, n);
    if Active(l) { AllocSeen(nodes, g, n, x, KeyOf(l.op)); }
    assert SameBut(nodes, nodes + [n], NULL);
  }

  lemma AllocControl(s: State, g: Ghost, t: nat)
    requires InCritical(s, g, t) && s.threads[t].pc.Alloc?
    ensures Sized(Step(s, t).nodes, g) && ControlInv(Step(s, t), g)
  {
    StillMaking(s, t, Step(s, t));
    assert Step(s, t).threads[t].tmp == |s.nodes|;
    var s' := Step(s, t);
    assert forall i | 0 <= i < |s.nodes| :: Holds(s'.threads[t], i) == Holds(s.threads[t], i);
    forall u | 0 <= u < |s.threads| ensures !Holds(s'.threads[u], |s.nodes|) {
      assert ThreadInv(s, g, u);
    }
    forall u | 0 <= u < |s.threads| && s.threads[u].pc.Link? ensures s.threads[u].tmp < |s.nodes| {
      assert ThreadInv(s, g, u);
    }
  }

  lemma AllocThread(s: State, g: Ghost, t: nat, u: nat)
    requires InCritical(s, g, t) && s.threads[t].pc.Alloc? && u < |s.threads|
    ensures HeapInv(Step(s, t).nodes, g) && LocalInv(Step(s, t).nodes, g, s.threads[u], g.seen[u])
    ensures FollowSeen(g, s, Tick(t), u) == g.seen[u]
  {
    assert ThreadInv(s, g, u);
    AllocLocal(s.nodes, g, Node(s.threads[t].op.entry, s.threads[t].curr, false), s.threads[u], g.seen[u]);
  }

  lemma MadeLocal(nodes: seq<Node>, g: Ghost, l: Local, x: Seen, i: int)
    requires HeapInv(nodes, g) && LocalInv(nodes, g, l, x) && l.pc.Alloc?
    requires 2 <= i < |nodes| && i !in g.pub && nodes[i] == Node(l.op.entry, l.curr, false)
    ensures LocalInv(nodes, g, l.(tmp := i, pc := Link), x)
  {
  }

  lemma AllocMover(s: State, g: Ghost, t: nat)
    requires InCritical(s, g, t) && s.threads[t].pc.Alloc?
    ensures HeapInv(Step(s, t).nodes, g) && LocalInv(Step(s, t).nodes, g, Step(s, t).threads[t], g.seen[t])
  {
    AllocThread(s, g, t, t);
    assert ThreadInv(s, g, t);
    MadeLocal(Step(s, t).nodes, g, s.threads[t], g.seen[t], |s.nodes|);
  }

  lemma AllocKeepsInv(s: State, g: Ghost, t: nat)
    requires Ready(s, g, t) && s.threads[t].pc.Alloc?
    ensures Inv(Apply(s, Tick(t)), Follow(g, s, Tick(t)))
  {
    Critical(s, g, t);
    AllocControl(s, g, t);
    AllocMover(s, g, t);
    var s', g' := Step(s, t), Follow(g, s, Tick(t));
    forall u | 0 <= u < |s'.threads| ensures g'.seen[u] == g.seen[u] && ThreadInv(s', g, u) { AllocThread(s, g, t, u); }
    assert g' == g;
  }

  lemma CallControl(s: State, g: Ghost, t: nat, op: Op)
    requires Sized(s.nodes, g) && ControlInv(s, g) && Accepts(s, t, op)
    ensures ControlInv(Apply(s, Call(t, op)), g)
  {
    StillMaking(s, t, Apply(s, Call(t, op)));
    assert forall i :: Holds(Begin(op), i) == Holds(s.threads[t], i);
  }

  lemma CallLocal(nodes: seq<Node>, g: Ghost, op: Op)
    requires HeapInv(nodes, g) && KeyOf(op) < Pos(nodes, TAIL)
    ensures LocalInv(nodes, g, Begin(op), Look(NOTHING, nodes, g.on, KeyOf(op)))
  {
    FreshSeen(nodes, g, KeyOf(op));
  }

  lemma CallThread(s: State, g: Ghost, t: nat, op: Op, u: nat)
    requires Inv(s, g) && Accepts(s, t, op) && u < |s.threads|
    ensures LocalInv(s.nodes, g, Apply(s, Call(t, op)).threads[u], FollowSeen(g, s, Call(t, op), u))
  {
    if u == t {
      CallLocal(s.nodes, g, op);
    } else {
      SettledSeen(s, g, Call(t, op), u);
      assert ThreadInv(s, g, u);
    }
  }

  lemma LocalInvReads(nodes: seq<Node>, g: Ghost, g': Ghost, l: Local, x: Seen)
    requires Sized(nodes, g) && g'.on == g.on && g'.pub == g.pub && LocalInv(nodes, g, l, x)
    ensures LocalInv(nodes, g', l, x)
  {
  }

  lemma CallKeepsInv(s: State, g: Ghost, t: nat, op: Op)
    requires Inv(s, g) && Accepts(s, t, op)
    ensures Inv(Apply(s, Call(t, op)), Follow(g, s, Call(t, op)))
  {
    var e := Call(t, op);
    var s', g' := Apply(s, e), Follow(g, s, e);
    CallControl(s, g, t, op);
    forall u | 0 <= u < |s'.threads| ensures ThreadInv(s', g', u) {
      CallThread(s, g, t, op, u);
      LocalInvReads(s.nodes, g, g', s'.threads[u], g'.seen[u]);
    }
  }

  /** A refused call, or a tick of a thread that does not exist. */
  lemma StutterKeepsInv(s: State, g: Ghost, e: Event)
    requires Inv(s, g) && (if e.Call? then !Accepts(s, e.t, e.op) else e.t >= |s.threads|)
    ensures Inv(Apply(s, e), Follow(g, s, e))
  {
    forall u | 0 <= u < |s.threads| ensures Follow(g, s, e).seen[u] == g.seen[u] { SettledSeen(s, g, e, u); }
    assert Follow(g, s, e) == g;
  }

  /** One event, any event. */
  lemma EventKeepsInv(s: State, g: Ghost, e: Event)
    requires Inv(s, g)
    ensures Inv(Apply(s, e), Follow(g, s, e))
  {
    if e.Call? {
      if Accepts(s, e.t, e.op) { CallKeepsInv(s, g, e.t, e.op); } else { StutterKeepsInv(s, g, e); }
    } else if e.t < |s.threads| {
      match s.threads[e.t].pc
      case Mark => MarkKeepsInv(s, g, e.t);
      case Unlink => UnlinkKeepsInv(s, g, e.t);
      case Overwrite => OverwriteKeepsInv(s, g, e.t);
      case Link => LinkKeepsInv(s, g, e.t);
      case Alloc => AllocKeepsInv(s, g, e.t);
      case LockPred => LockKeepsInv(s, g, e.t);
      case LockCurr => LockKeepsInv(s, g, e.t);
      case UnlockCurr => LockKeepsInv(s, g, e.t);
      case UnlockPred => LockKeepsInv(s, g, e.t);
      case _ => ReadKeepsInv(s, g, e.t);
    } else {
      StutterKeepsInv(s, g, e);
    }
  }

  lemma StartHasInv(threads: nat, default: Entry, max: Entry)
    ensures Inv(Init(threads, default, max), AtStart(Init(threads, default, max)))
  {
  }
}
