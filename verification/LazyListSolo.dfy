/** A call that nobody disturbs: it returns, and what it returns is the sequential answer. */
module LazyListSolo {
  import opened LazyList
  import opened LazyListInvariant
  import opened LazyListHeap
  import opened LazyListSteps
  import opened LazyListTheorems
  import opened LazyListCalls

  /** Thread `t` takes `k` steps and nobody else any. */
  function Solo(s: State, t: nat, k: nat): State
    decreases k
  {
    if k == 0 then s else Solo(Apply(s, Tick(t)), t, k - 1)
  }

  /** No other thread holds a lock. */
  predicate NoneElse(s: State, t: nat) {
    forall i | 0 <= i < |s.owner| :: s.owner[i] == FREE || s.owner[i] == t
  }

  predicate Walking(pc: Pc) {
    pc.Start? || pc.Test? || pc.Advance?
  }

  /** The walk is over and validation is not. */
  predicate Locking(pc: Pc) {
    pc.LockPred? || pc.LockCurr? || pc.CheckPred? || pc.CheckCurr? || pc.CheckLink?
  }

  predicate Unlocking(pc: Pc) {
    pc.UnlockCurr? || pc.UnlockPred?
  }

  /** An update's two nodes are neighbours on the chain. */
  ghost predicate Neighbours(nodes: seq<Node>, g: Ghost, l: Local)
    requires Sized(nodes, g)
  {
    l.pred in g.on && l.curr in g.on && Nx(nodes, l.pred) == l.curr
  }

  /** Validation is bound to succeed, and no call is going to try again. */
  ghost predicate Smooth(nodes: seq<Node>, g: Ghost, l: Local)
    requires Sized(nodes, g)
  {
    && (l.pc.Test? || l.pc.Advance? ==> l.curr in g.on && (Updates(l.op) ==> Neighbours(nodes, g, l)))
    && (Locking(l.pc) ==> Neighbours(nodes, g, l) && !nodes[l.pred].marked && !nodes[l.curr].marked)
    && (Unlocking(l.pc) ==> !l.out.Retry?)
  }

  ghost predicate Clear(s: State, g: Ghost, t: nat) {
    Inv(s, g) && t < |s.threads| && Active(s.threads[t]) && NoneElse(s, t) && Smooth(s.nodes, g, s.threads[t])
  }

  /** A bound on the steps that are left of an undisturbed call. */
  ghost function Rank(nodes: seq<Node>, l: Local): int
    requires |nodes| >= 2 && 0 <= l.curr < |nodes|
  {
    var top := Pos(nodes, TAIL);
    match l.pc
    case Start => 2 * top + 40
    case Test => 2 * (top - Pos(nodes, l.curr)) + 31
    case Advance => 2 * (top - Pos(nodes, l.curr)) + 30
    case LockPred => 20
    case LockCurr => 19
    case CheckPred => 18
    case CheckCurr => 17
    case CheckLink => 16
    case Compare => 15
    case Mark => 14
    case ReadNext => 13
    case Unlink => 12
    case Overwrite => 11
    case Alloc => 11
    case Link => 10
    case UnlockCurr => 9
    case UnlockPred => 8
    case GetMarked => 7
    case GetCompare => 6
    case GetEntry => 5
    case HasCompare => 7
    case HasMarked => 6
    case _ => 0
  }

  /** A step of an undisturbed call leaves it undisturbed, or done, and nearer its end. */
  ghost predicate GoesOn(s: State, g: Ghost, t: nat, s': State, g': Ghost)
    requires t < |s.threads| && |s.nodes| >= 2 && 0 <= s.threads[t].curr < |s.nodes|
  {
    && t < |s'.threads| && NoneElse(s', t) && Sized(s'.nodes, g') && 0 <= s'.threads[t].curr < |s'.nodes|
    && (Active(s'.threads[t]) ==> Smooth(s'.nodes, g', s'.threads[t]))
    && (s'.threads[t].pc.Done? || Active(s'.threads[t]))
    && Rank(s'.nodes, s'.threads[t]) < Rank(s.nodes, s.threads[t])
  }

  /** With no removal under way every chained node is unmarked. */
  lemma NoneMarked(s: State, g: Ghost, t: nat, i: int)
    requires Clear(s, g, t) && i in g.on && !s.threads[t].pc.ReadNext? && !s.threads[t].pc.Unlink?
    ensures !s.nodes[i].marked
  {
    if s.nodes[i].marked { RemoverHolds(s, g, i); }
  }

  /** The steps that only read. */
  predicate OnlyReads(pc: Pc) {
    Walking(pc) || Reading(pc) || pc.CheckPred? || pc.CheckCurr? || pc.CheckLink?
  }

  lemma ReadStep(s: State, g: Ghost, t: nat)
    requires Inv(s, g) && t < |s.threads| && OnlyReads(s.threads[t].pc)
    ensures PointersValid(s, s.threads[t]) && |s.nodes| >= 2
    ensures Apply(s, Tick(t)) == SetLocal(s, t, Read(s.nodes, s.threads[t]))
    ensures Follow(g, s, Tick(t)).on == g.on && Follow(g, s, Tick(t)).pub == g.pub
  {
    PointersAreValid(s, g, t);
  }

  /** What a reading step makes of a thread's locals. */
  ghost predicate LocalGoesOn(nodes: seq<Node>, g: Ghost, l: Local, l': Local)
    requires Sized(nodes, g) && 0 <= l.curr < |nodes|
  {
    && 0 <= l'.curr < |nodes| && (l'.pc.Done? || (Active(l') && Smooth(nodes, g, l')))
    && Rank(nodes, l') < Rank(nodes, l)
  }

  lemma WalkLocal(nodes: seq<Node>, g: Ghost, l: Local, x: Seen)
    requires HeapInv(nodes, g) && LocalInv(nodes, g, l, x) && Smooth(nodes, g, l) && Walking(l.pc)
    requires forall i | i in g.on :: !nodes[i].marked
    ensures LocalGoesOn(nodes, g, l, Read(nodes, l))
  {
    if l.pc.Start? {
      assert Nx(nodes, HEAD) in g.on;
    } else {
      assert l.pc.Advance? ==> Nx(nodes, l.curr) in g.on && Pos(nodes, l.curr) < Pos(nodes, Nx(nodes, l.curr));
      assert Pos(nodes, l.curr) <= Pos(nodes, TAIL);
    }
  }

  lemma CheckLocal(nodes: seq<Node>, g: Ghost, l: Local)
    requires Sized(nodes, g) && l.pred in g.pub && l.curr in g.pub && Smooth(nodes, g, l)
    requires l.pc.CheckPred? || l.pc.CheckCurr? || l.pc.CheckLink? || Reading(l.pc)
    ensures LocalGoesOn(nodes, g, l, Read(nodes, l))
  {
  }

  lemma ReadGoesOn(s: State, g: Ghost, t: nat)
    requires Clear(s, g, t) && OnlyReads(s.threads[t].pc)
    ensures 0 <= s.threads[t].curr < |s.nodes| && GoesOn(s, g, t, Apply(s, Tick(t)), Follow(g, s, Tick(t)))
  {
    ReadStep(s, g, t);
    assert ThreadInv(s, g, t);
    var l := s.threads[t];
    if Walking(l.pc) {
      forall i | i in g.on ensures !s.nodes[i].marked { NoneMarked(s, g, t, i); }
      WalkLocal(s.nodes, g, l, g.seen[t]);
    } else {
      CheckLocal(s.nodes, g, l);
    }
    SmoothFor(s.nodes, g, Follow(g, s, Tick(t)), Read(s.nodes, l));
  }

  lemma SmoothFor(nodes: seq<Node>, g: Ghost, g': Ghost, l: Local)
    requires Sized(nodes, g) && g'.on == g.on && g'.pub == g.pub
    ensures Sized(nodes, g') && (Smooth(nodes, g', l) <==> Smooth(nodes, g, l))
  {
  }

  /** A lock that no other thread holds is taken at the first try. */
  lemma LockGoesOn(s: State, g: Ghost, t: nat)
    requires Clear(s, g, t) && (s.threads[t].pc.LockPred? || s.threads[t].pc.LockCurr?)
    ensures 0 <= s.threads[t].curr < |s.nodes| && GoesOn(s, g, t, Apply(s, Tick(t)), Follow(g, s, Tick(t)))
  {
    PointersAreValid(s, g, t);
    assert ThreadInv(s, g, t);
    var l := s.threads[t];
    assert Pos(s.nodes, l.pred) < Pos(s.nodes, l.curr);
    assert !Holds(l, if l.pc.LockPred? then l.pred else l.curr);
  }

  lemma WriteGoesOn(s: State, g: Ghost, t: nat)
    requires Clear(s, g, t) && Validated(s.threads[t].pc)
    ensures 0 <= s.threads[t].curr < |s.nodes| && GoesOn(s, g, t, Apply(s, Tick(t)), Follow(g, s, Tick(t)))
  {
    Critical(s, g, t);
    WriteStep(s, g, t);
    EventKeepsInv(s, g, Tick(t));
  }

  lemma WriteStep(s: State, g: Ghost, t: nat)
    requires InCritical(s, g, t) && NoneElse(s, t)
    ensures var s' := Apply(s, Tick(t));
            && t < |s'.threads| && NoneElse(s', t) && |s'.nodes| >= |s.nodes|
            && var l, l' := s.threads[t], s'.threads[t];
               && l'.curr == l.curr && (Validated(l'.pc) || (l'.pc.UnlockCurr? && !l'.out.Retry?))
               && Rank(s'.nodes, l') < Rank(s.nodes, l)
  {
  }

  lemma UnlockGoesOn(s: State, g: Ghost, t: nat)
    requires Clear(s, g, t) && Unlocking(s.threads[t].pc)
    ensures 0 <= s.threads[t].curr < |s.nodes| && GoesOn(s, g, t, Apply(s, Tick(t)), Follow(g, s, Tick(t)))
  {
    PointersAreValid(s, g, t);
  }

  lemma OneStep(s: State, g: Ghost, t: nat)
    requires Clear(s, g, t)
    ensures 0 <= s.threads[t].curr < |s.nodes| && GoesOn(s, g, t, Apply(s, Tick(t)), Follow(g, s, Tick(t)))
  {
    var pc := s.threads[t].pc;
    if OnlyReads(pc) {
      ReadGoesOn(s, g, t);
    } else if Validated(pc) {
      WriteGoesOn(s, g, t);
    } else if Unlocking(pc) {
      UnlockGoesOn(s, g, t);
    } else {
      LockGoesOn(s, g, t);
    }
  }

  // ---- What the call comes to ---------------------------------------------------------------

  /** What is known half-way of a call that began when the map was `was`. */
  ghost predicate Tells(s: State, g: Ghost, t: nat, was: map<nat, Entry>)
    requires t < |s.threads| == |g.seen|
  {
    var l, x := s.threads[t], g.seen[t];
    var k := KeyOf(l.op);
    if Updates(l.op) then
      && (if Past(l) then Abs(s) == Effect(l.op, was) && (l.op.Remove? ==> k in was) else Abs(s) == was)
      && (l.out == Answer(false) ==> k !in was)
    else
      && Abs(s) == was && (x.absent ==> k !in was)
      && (forall b | b in x.bound :: k in was && was[k] == b)
  }

  lemma UpdateTells(s: State, g: Ghost, t: nat, was: map<nat, Entry>)
    requires Inv(s, g) && t < |s.threads| && Active(s.threads[t]) && Tells(s, g, t, was) && Updates(s.threads[t].op)
    ensures t < |Apply(s, Tick(t)).threads| == |Follow(g, s, Tick(t)).seen|
    ensures Tells(Apply(s, Tick(t)), Follow(g, s, Tick(t)), t, was)
  {
    OpStays(s, Tick(t), t);
    PastStep(s, g, t);
    var l := s.threads[t];
    if Commits(l.pc) {
      CommitEffect(s, g, t);
      CommitLeavesAnswer(s, g, t);
    } else {
      QuietEffect(s, g, Tick(t));
      if Apply(s, Tick(t)).threads[t].out == Answer(false) && l.out != Answer(false) {
        CompareSawAbsent(s, g, t);
        assert ThreadInv(s, g, t);
      }
    }
  }

  lemma CommitLeavesAnswer(s: State, g: Ghost, t: nat)
    requires Inv(s, g) && t < |s.threads| && Commits(s.threads[t].pc)
    ensures t < |Apply(s, Tick(t)).threads| && Apply(s, Tick(t)).threads[t].out != Answer(false)
  {
    Critical(s, g, t);
  }

  lemma ReadTells(s: State, g: Ghost, t: nat, was: map<nat, Entry>)
    requires Inv(s, g) && t < |s.threads| && Active(s.threads[t]) && Tells(s, g, t, was) && !Updates(s.threads[t].op)
    ensures t < |Apply(s, Tick(t)).threads| == |Follow(g, s, Tick(t)).seen|
    ensures Tells(Apply(s, Tick(t)), Follow(g, s, Tick(t)), t, was)
  {
    OpStays(s, Tick(t), t);
    assert ThreadInv(s, g, t);
    QuietEffect(s, g, Tick(t));
    SeenStep(s, g, Tick(t), t, KeyOf(s.threads[t].op));
  }

  /** The sequential answer: the operation has its effect on the map, and returns what the map says. */
  ghost predicate IsAnswer(op: Op, out: Outcome, was: map<nat, Entry>, now: map<nat, Entry>, default: nat) {
    && now == Effect(op, was)
    && match op
       case Add(_) => out == Answer(true)
       case Remove(k) => out == Answer(k in was)
       case Get(k) => out == if k in was then Found(was[k]) else Missing
       case Contains(k) => out == Answer(if default < k then k in was else k == default)
  }

  lemma DoneAnswers(s: State, g: Ghost, t: nat, was: map<nat, Entry>)
    requires Inv(s, g) && t < |s.threads| && s.threads[t].pc.Done? && Tells(s, g, t, was)
    ensures Ends(s, t, 0, s.threads[t].op, was, s.nodes[HEAD].entry.key)
  {
    assert ThreadInv(s, g, t);
    var l := s.threads[t];
    if l.op.Remove? && l.out == Answer(false) { assert was - {l.op.at} == was; }
  }

  predicate Ticked(k: int) { true }

  /** `s'` is the state after a tick of `t`; spelled out only where `Ticked` is named. */
  ghost predicate Next(s: State, t: nat, s': State) {
    forall k | Ticked(k) :: s' == Apply(s, Tick(t))
  }

  /** Everything that one step of an undisturbed call keeps. */
  lemma StepAlone(s: State, g: Ghost, t: nat, was: map<nat, Entry>) returns (s': State, g': Ghost)
    requires Clear(s, g, t) && Tells(s, g, t, was)
    ensures 0 <= s.threads[t].curr < |s.nodes|
    ensures Next(s, t, s') && Inv(s', g') && t < |s'.threads| && Tells(s', g', t, was)
    ensures s'.threads[t].pc.Done? || Clear(s', g', t)
    ensures s'.threads[t].op == s.threads[t].op && s'.nodes[HEAD].entry == s.nodes[HEAD].entry
    ensures 0 <= s'.threads[t].curr < |s'.nodes| && Rank(s'.nodes, s'.threads[t]) < Rank(s.nodes, s.threads[t])
  {
    s', g' := Apply(s, Tick(t)), Follow(g, s, Tick(t));
    OneStep(s, g, t);
    EventKeepsInv(s, g, Tick(t));
    HeadKept(s, g, Tick(t));
    OpStays(s, Tick(t), t);
    if Updates(s.threads[t].op) { UpdateTells(s, g, t, was); } else { ReadTells(s, g, t, was); }
  }

  lemma RankIsNat(s: State, g: Ghost, t: nat)
    requires Inv(s, g) && t < |s.threads|
    ensures 0 <= s.threads[t].curr < |s.nodes| && Rank(s.nodes, s.threads[t]) >= 0
  {
    assert ThreadInv(s, g, t);
    assert Pos(s.nodes, s.threads[t].curr) <= Pos(s.nodes, TAIL);
  }

  /** After `k` steps alone the call of `op` has returned, with the sequential answer. */
  ghost predicate Ends(s: State, t: nat, k: nat, op: Op, was: map<nat, Entry>, default: nat) {
    var s' := Solo(s, t, k);
    t < |s'.threads| && s'.threads[t].pc.Done? && IsAnswer(op, s'.threads[t].out, was, Abs(s'), default)
  }

  lemma EndsLater(s: State, t: nat, s': State, k: nat, op: Op, was: map<nat, Entry>, default: nat)
    requires Next(s, t, s') && Ends(s', t, k, op, was, default)
    ensures Ends(s, t, k + 1, op, was, default)
  {
    assert Ticked(0);
    assert Solo(s, t, k + 1) == Solo(Apply(s, Tick(t)), t, k);
  }

  /** Undisturbed, a call returns within the bound, with the sequential answer. */
  lemma {:induction false} AloneReturns(s: State, g: Ghost, t: nat, was: map<nat, Entry>) returns (k: nat)
    requires Clear(s, g, t) && Tells(s, g, t, was)
    ensures 0 <= s.threads[t].curr < |s.nodes| && k <= Rank(s.nodes, s.threads[t])
    ensures Ends(s, t, k, s.threads[t].op, was, s.nodes[HEAD].entry.key)
    decreases if 0 <= s.threads[t].curr < |s.nodes| then Rank(s.nodes, s.threads[t]) else 0
  {
    var s', g' := StepAlone(s, g, t, was);
    RankIsNat(s', g', t);
    k := 0;
    if s'.threads[t].pc.Done? {
      DoneAnswers(s', g', t, was);
    } else {
      k := AloneReturns(s', g', t, was);
    }
    EndsLater(s, t, s', k, s.threads[t].op, was, s.nodes[HEAD].entry.key);
    k := k + 1;
  }

  lemma CallIsClear(s: State, g: Ghost, t: nat, op: Op)
    requires Inv(s, g) && Accepts(s, t, op) && forall i | 0 <= i < |s.owner| :: s.owner[i] == FREE
    ensures var s', g' := Apply(s, Call(t, op)), Follow(g, s, Call(t, op));
            Clear(s', g', t) && Tells(s', g', t, Abs(s))
  {
    EventKeepsInv(s, g, Call(t, op));
    QuietEffect(s, g, Call(t, op));
    SeenStep(s, g, Call(t, op), t, KeyOf(op));
  }

  lemma {:induction false} RunSolo(s: State, events: seq<Event>, t: nat, k: nat)
    ensures Run(s, events + seq(k, _ => Tick(t))) == Solo(Run(s, events), t, k)
    decreases k
  {
    var es := events + seq(k, _ => Tick(t));
    if k > 0 {
      RunSolo(s, events + [Tick(t)], t, k - 1);
      assert es == events + [Tick(t)] + seq(k - 1, _ => Tick(t));
      RunLast(s, events, Tick(t));
    } else {
      assert es == events;
    }
  }

  lemma RunLast(s: State, events: seq<Event>, e: Event)
    ensures Run(s, events + [e]) == Apply(Run(s, events), e)
  {
    assert (events + [e])[..|events + [e]| - 1] == events;
  }

  /** In every reachable state in which no lock is held, a call that is the only one to step from then on returns, within a
      number of steps that the greatest key bounds, with its effect done and the answer the map gives. */
  lemma AloneItReturns(c: Config, events: seq<Event>, t: nat, op: Op) returns (k: nat)
    requires var s := StateAt(c, events, |events|);
             Accepts(s, t, op) && forall i | 0 <= i < |s.owner| :: s.owner[i] == FREE
    ensures k <= 2 * StateAt(c, events, |events|).nodes[TAIL].entry.key + 40
    ensures var s, s' := StateAt(c, events, |events|),
                         Run(Init(c.threads, c.default, c.max), events + [Call(t, op)] + seq(k, _ => Tick(t)));
            && t < |s'.threads| && s'.threads[t].pc.Done?
            && IsAnswer(op, s'.threads[t].out, Abs(s), Abs(s'), c.default.key)
  {
    var s, g := StateAt(c, events, |events|), GhostAt(c, events, |events|);
    assert events[..|events|] == events;
    RunHasInv(c, events, |events|);
    HeadStays(c, events, |events|);
    CallIsClear(s, g, t, op);
    k := AloneReturns(Apply(s, Call(t, op)), Follow(g, s, Call(t, op)), t, Abs(s));
    RunLast(Init(c.threads, c.default, c.max), events, Call(t, op));
    RunSolo(Init(c.threads, c.default, c.max), events + [Call(t, op)], t, k);
  }
}
