/** What every step of every thread keeps.

    Three sets and a few per-thread records follow the run beside the state. They are computed from the
    states and never read by `Apply`: `on` are the nodes the chain passes through, `pub` those ever linked
    into it, and `Seen` is what has been true of the list since a thread's current call began. */
module LazyListInvariant {
  import opened LazyList

  datatype Seen = Seen(reached: set<int>, absent: bool, bound: set<Entry>)

  datatype Ghost = Ghost(on: set<int>, pub: set<int>, seen: seq<Seen>)

  // ---- Following a run ----------------------------------------------------------------------

  ghost predicate Live(nodes: seq<Node>, on: set<int>, i: int, k: nat) {
    i in on && IsLive(nodes, i) && nodes[i].entry.key == k
  }

  ghost predicate Absent(nodes: seq<Node>, on: set<int>, k: nat) {
    forall i | i in on :: !Live(nodes, on, i, k)
  }

  ghost function BoundNow(nodes: seq<Node>, on: set<int>, k: nat): set<Entry> {
    set i | i in on && Live(nodes, on, i, k) :: nodes[i].entry
  }

  ghost function Look(x: Seen, nodes: seq<Node>, on: set<int>, k: nat): Seen {
    Seen(x.reached + on, x.absent || Absent(nodes, on, k), x.bound + BoundNow(nodes, on, k))
  }

  const NOTHING := Seen({}, false, {})

  ghost function FollowOn(g: Ghost, s: State, e: Event): set<int> {
    if e.Tick? && Runs(s, e.t) && s.threads[e.t].pc.Link? then g.on + {s.threads[e.t].tmp}
    else if e.Tick? && Runs(s, e.t) && s.threads[e.t].pc.Unlink? then g.on - {s.threads[e.t].curr}
    else g.on
  }

  ghost function FollowPub(g: Ghost, s: State, e: Event): set<int> {
    if e.Tick? && Runs(s, e.t) && s.threads[e.t].pc.Link? then g.pub + {s.threads[e.t].tmp} else g.pub
  }

  /** Thread `u`'s record after an event that is not a call of its own: frozen when its call is over. */
  ghost function Recorded(g: Ghost, l: Local, u: nat, nodes: seq<Node>, on: set<int>): Seen
    requires u < |g.seen|
  {
    if Active(l) then Look(g.seen[u], nodes, on, KeyOf(l.op)) else g.seen[u]
  }

  ghost function FollowSeen(g: Ghost, s: State, e: Event, u: nat): Seen
    requires u < |s.threads| == |g.seen|
  {
    if e.Call? && e.t == u && Accepts(s, u, e.op) then Look(NOTHING, Apply(s, e).nodes, FollowOn(g, s, e), KeyOf(e.op))
    else Recorded(g, s.threads[u], u, Apply(s, e).nodes, FollowOn(g, s, e))
  }

  ghost function Follow(g: Ghost, s: State, e: Event): Ghost
    requires |s.threads| == |g.seen|
  {
    Ghost(FollowOn(g, s, e), FollowPub(g, s, e), seq(|g.seen|, u requires 0 <= u < |g.seen| => FollowSeen(g, s, e, u)))
  }

  ghost function AtStart(s: State): Ghost {
    Ghost({HEAD, TAIL}, {HEAD, TAIL}, seq(|s.threads|, _ => NOTHING))
  }

  // ---- The heap -----------------------------------------------------------------------------

  /** A node's place in the order: the head is below every key. */
  ghost function Pos(nodes: seq<Node>, i: int): int
    requires 0 <= i < |nodes|
  {
    if i == HEAD then -1 else nodes[i].entry.key
  }

  ghost function Nx(nodes: seq<Node>, i: int): int
    requires 0 <= i < |nodes|
  {
    nodes[i].next
  }

  ghost predicate Sized(nodes: seq<Node>, g: Ghost) {
    && |nodes| >= 2
    && {HEAD, TAIL} <= g.on <= g.pub
    && (forall i | i in g.pub :: 0 <= i < |nodes|)
    && !nodes[HEAD].marked && !nodes[TAIL].marked
  }

  /** Links of published nodes lead to published nodes further up, links of chained nodes along the chain,
      which skips no chained key; every unmarked published node is chained. */
  ghost predicate HeapInv(nodes: seq<Node>, g: Ghost) {
    && Sized(nodes, g) && Nx(nodes, TAIL) == NULL
    && (forall i {:trigger Nx(nodes, i)} | i in g.pub && i != TAIL ::
          Nx(nodes, i) in g.pub && Pos(nodes, i) < Pos(nodes, Nx(nodes, i)))
    && (forall i {:trigger Pos(nodes, i)} | i in g.pub && i != TAIL :: Pos(nodes, i) < Pos(nodes, TAIL))
    && (forall i {:trigger Nx(nodes, i)} | i in g.on && i != TAIL :: Nx(nodes, i) in g.on)
    && (forall i, j {:trigger Nx(nodes, i), Pos(nodes, j)} | i in g.on && i != TAIL && j in g.on ::
          Pos(nodes, j) <= Pos(nodes, i) || Pos(nodes, Nx(nodes, i)) <= Pos(nodes, j))
    && (forall i, j {:trigger Pos(nodes, i), Pos(nodes, j)} | i in g.on && j in g.on && Pos(nodes, i) == Pos(nodes, j) ::
          i == j)
    && (forall i | i in g.pub && !nodes[i].marked :: i in g.on)
  }

  // ---- Locks --------------------------------------------------------------------------------

  predicate HoldsPred(pc: Pc) {
    HoldsCurr(pc) || pc.LockCurr? || pc.UnlockPred?
  }

  predicate HoldsCurr(pc: Pc) {
    pc.CheckPred? || pc.CheckCurr? || Checked(pc) || pc.UnlockCurr?
  }

  /** Between the first successful check and the first unlock. */
  predicate Checked(pc: Pc) {
    pc.CheckLink? || Validated(pc)
  }

  predicate Validated(pc: Pc) {
    pc.Compare? || pc.Mark? || pc.ReadNext? || pc.Unlink? || pc.Overwrite? || pc.Alloc? || pc.Link?
  }

  predicate Reading(pc: Pc) {
    pc.GetMarked? || pc.GetCompare? || pc.GetEntry? || pc.HasCompare? || pc.HasMarked?
  }

  predicate Holds(l: Local, i: int) {
    (HoldsPred(l.pc) && i == l.pred) || (HoldsCurr(l.pc) && i == l.curr)
  }

  ghost predicate LockInv(s: State) {
    && |s.owner| == |s.nodes|
    && (forall i | 0 <= i < |s.owner| :: s.owner[i] == FREE || 0 <= s.owner[i] < |s.threads|)
    && (forall t, i | 0 <= t < |s.threads| && 0 <= i < |s.owner| :: Holds(s.threads[t], i) <==> s.owner[i] == t)
  }

  // ---- One thread ---------------------------------------------------------------------------

  /** An updating thread: where its pointers are, and what validation has established. */
  ghost predicate UpdaterInv(nodes: seq<Node>, g: Ghost, l: Local)
    requires Sized(nodes, g) && l.pred in g.pub && l.curr in g.pub
  {
    var k := KeyOf(l.op);
    && Updates(l.op) && !Reading(l.pc)
    && (l.pc.Start? ||
        (&& Pos(nodes, l.pred) < k && Pos(nodes, l.pred) < Pos(nodes, l.curr)
         && (l.pc.Test? || (if l.pc.Advance? then Pos(nodes, l.curr) < k else k <= Pos(nodes, l.curr)))))
    && (l.pc.CheckCurr? || Checked(l.pc) ==> !nodes[l.pred].marked)
    && (Checked(l.pc) ==> nodes[l.curr].marked == (l.pc.ReadNext? || l.pc.Unlink?))
    && (Validated(l.pc) ==> nodes[l.pred].next == l.curr)
    && (l.pc.Mark? || l.pc.ReadNext? || l.pc.Unlink? ==> l.op.Remove?)
    && (l.pc.Mark? || l.pc.ReadNext? || l.pc.Unlink? || l.pc.Overwrite? ==> Pos(nodes, l.curr) == k)
    && (l.pc.Unlink? ==> l.tmp == nodes[l.curr].next)
    && (l.pc.ReadNext? || l.pc.Unlink? ==> l.curr in g.on)
    && (l.pc.Overwrite? || l.pc.Alloc? || l.pc.Link? ==> l.op.Add?)
    && (l.pc.Alloc? || l.pc.Link? ==> k < Pos(nodes, l.curr))
    && (l.pc.Link? ==>
          2 <= l.tmp < |nodes| && l.tmp !in g.pub && nodes[l.tmp] == Node(l.op.entry, l.curr, false))
    && (l.pc.UnlockCurr? || l.pc.UnlockPred? ==> l.out.Retry? || l.out.Answer?)
    && (!l.out.Retry? ==> l.pc.UnlockCurr? || l.pc.UnlockPred?)
    && (l.out == Answer(false) ==> l.op.Remove?)
  }

  /** What a running or finished call has seen: enough to answer it by hindsight. */
  ghost predicate SeenInv(nodes: seq<Node>, g: Ghost, x: Seen, k: nat)
    requires Sized(nodes, g)
  {
    && g.on <= x.reached <= g.pub
    && (Absent(nodes, g.on, k) ==> x.absent)
    && BoundNow(nodes, g.on, k) <= x.bound
    && (forall i {:trigger Nx(nodes, i)} | i in x.reached && i !in g.on :: Nx(nodes, i) in x.reached)
    && (forall i {:trigger Nx(nodes, i)} | i in x.reached && i !in g.on && Pos(nodes, i) < k ::
          0 <= Nx(nodes, i) < |nodes| && (k < Pos(nodes, Nx(nodes, i)) ==> x.absent))
    && (forall i | i in x.reached && Pos(nodes, i) == k && nodes[i].marked :: x.absent)
  }

  /** A reading thread: its node was on the chain at some moment of the call. */
  ghost predicate ReaderInv(nodes: seq<Node>, g: Ghost, l: Local, x: Seen)
    requires Sized(nodes, g) && l.pred in g.pub && l.curr in g.pub
  {
    var k := KeyOf(l.op);
    && !Updates(l.op)
    && (l.pc.Start? || l.pc.Test? || l.pc.Advance? || Reading(l.pc))
    && l.curr in x.reached
    && (l.curr == HEAD ==> l.pc.Start? || l.op.Contains?) && (l.pc.Start? ==> l.op.Get?)
    && (l.op.Contains? && k <= nodes[HEAD].entry.key ==> l.curr == HEAD && !l.pc.Advance?)
    && (k < Pos(nodes, l.curr) ==> x.absent)
    && (l.pc.Advance? ==> Pos(nodes, l.curr) < k)
    && (l.pc.GetMarked? || l.pc.GetCompare? || l.pc.HasCompare? ==>
          if l.curr == HEAD then k <= nodes[HEAD].entry.key else k <= Pos(nodes, l.curr))
    && (l.pc.GetEntry? || l.pc.HasMarked? ==> nodes[l.curr].entry.key == k)
    && (l.pc.GetMarked? || l.pc.GetCompare? || l.pc.GetEntry? ==> l.op.Get?)
    && (l.pc.HasCompare? || l.pc.HasMarked? ==> l.op.Contains?)
    && (l.pc.GetCompare? || l.pc.GetEntry? ==> Pos(nodes, l.curr) == k ==> nodes[l.curr].entry in x.bound)
  }

  /** A finished call's answer agrees with something seen while it ran. */
  ghost predicate AnswerInv(l: Local, x: Seen, default: nat) {
    match l.op
    case Add(_) => l.out == Answer(true)
    case Remove(_) => l.out == Answer(true) || (l.out == Answer(false) && x.absent)
    case Get(_) => (l.out.Missing? && x.absent) || (l.out.Found? && l.out.entry in x.bound)
    case Contains(k) =>
      if default < k then (l.out == Answer(true) && x.bound != {}) || (l.out == Answer(false) && x.absent)
      else l.out == Answer(k == default)
  }

  ghost predicate LocalInv(nodes: seq<Node>, g: Ghost, l: Local, x: Seen)
    requires Sized(nodes, g)
  {
    && l.pred in g.pub && l.curr in g.pub
    && (l.pc.Done? ==> AnswerInv(l, x, nodes[HEAD].entry.key))
    && (Active(l) ==>
          && KeyOf(l.op) < Pos(nodes, TAIL)
          && SeenInv(nodes, g, x, KeyOf(l.op))
          && if Updates(l.op) then UpdaterInv(nodes, g, l) && (l.out == Answer(false) ==> x.absent)
             else ReaderInv(nodes, g, l, x))
  }

  ghost predicate ThreadInv(s: State, g: Ghost, t: nat)
    requires t < |s.threads| == |g.seen| && Sized(s.nodes, g)
  {
    LocalInv(s.nodes, g, s.threads[t], g.seen[t])
  }

  /** Some thread has made node `i` and is about to link it. */
  ghost predicate Making(s: State, i: int) {
    exists t | 0 <= t < |s.threads| :: s.threads[t].pc.Link? && s.threads[t].tmp == i
  }

  /** A node not yet linked belongs to the one thread that made it. */
  ghost predicate PrivateInv(s: State, g: Ghost) {
    && (forall t, u | 0 <= t < |s.threads| && 0 <= u < |s.threads| && t != u
                      && s.threads[t].pc.Link? && s.threads[u].pc.Link? :: s.threads[t].tmp != s.threads[u].tmp)
    && (forall i | 0 <= i < |s.nodes| && i !in g.pub :: Making(s, i))
  }

  /** A marked node still chained is being unlinked by the thread that holds its lock. */
  ghost predicate RemovalInv(s: State, g: Ghost)
    requires Sized(s.nodes, g)
  {
    forall i | i in g.on && s.nodes[i].marked ::
      && i < |s.owner| && 0 <= s.owner[i] < |s.threads|
      && (s.threads[s.owner[i]].pc.ReadNext? || s.threads[s.owner[i]].pc.Unlink?)
      && s.threads[s.owner[i]].curr == i
  }

  ghost predicate ControlInv(s: State, g: Ghost)
    requires Sized(s.nodes, g)
  {
    LockInv(s) && PrivateInv(s, g) && RemovalInv(s, g)
  }

  ghost predicate Inv(s: State, g: Ghost) {
    && |g.seen| == |s.threads|
    && HeapInv(s.nodes, g)
    && ControlInv(s, g)
    && (forall t {:trigger ThreadInv(s, g, t)} | 0 <= t < |s.threads| :: ThreadInv(s, g, t))
  }
}
