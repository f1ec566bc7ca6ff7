/** The FIFO queue with a dummy node and one lock at each end, as a machine of interleaved threads.

    Each `Tick` makes one shared access. Popped nodes are freed; `pushed` and `popped` log the values in the order in
    which `tail_` and `head_` move past them, and no step reads a log. */
module TwoLockQueue {

  datatype Node = Node(value: int, next: int)

  const NULL := -1
  const FREE := -1

  datatype Op = Push(value: int) | TryPop | WaitPop

  datatype Outcome = Nothing | Empty | Got(value: int)

  datatype Pc =
    | Idle | Done
    | MakeNode | LockTail | WriteValue | WriteNext | MoveTail | UnlockTail
    | LockHead | GetLock | ReadTail | GetUnlock | Compare | UnlockEmpty
    | Waiting | ReadValue | ReadLink | MoveHead | UnlockHead | ReadOut | Free

  datatype Local = Local(pc: Pc, op: Op, node: int, seen: int, out: Outcome)

  datatype State = State(
    nodes: seq<Node>, head: int, tail: int, headLock: int, tailLock: int, threads: seq<Local>,
    freed: set<int>, pushed: seq<int>, popped: seq<int>)

  datatype Event = Call(t: nat, op: Op) | Tick(t: nat)

  function Init(threads: nat): State {
    State([Node(0, NULL)], 0, 0, FREE, FREE, seq(threads, _ => Local(Idle, TryPop, 0, 0, Nothing)), {}, [], [])
  }

  predicate IsNode(s: State, i: int) {
    0 <= i < |s.nodes|
  }

  predicate Shaped(s: State, t: nat) {
    t < |s.threads| && IsNode(s, s.head) && IsNode(s, s.tail) && IsNode(s, s.threads[t].node)
  }

  function SetLocal(s: State, t: nat, l: Local): State
    requires t < |s.threads|
  {
    s.(threads := s.threads[t := l])
  }

  function Step(s: State, t: nat): State
    requires Shaped(s, t)
  {
    var l := s.threads[t];
    match l.pc
    case Idle => s
    case Done => s
    // push
    case MakeNode =>
      SetLocal(s.(nodes := s.nodes + [Node(0, NULL)]), t, l.(node := |s.nodes|, pc := LockTail))
    case LockTail =>
      if s.tailLock == FREE then SetLocal(s.(tailLock := t), t, l.(pc := WriteValue)) else s
    case WriteValue =>
      if l.op.Push? then
        SetLocal(s.(nodes := s.nodes[s.tail := s.nodes[s.tail].(value := l.op.value)]), t, l.(pc := WriteNext))
      else s
    case WriteNext =>
      SetLocal(s.(nodes := s.nodes[s.tail := s.nodes[s.tail].(next := l.node)]), t, l.(pc := MoveTail))
    case MoveTail =>
      SetLocal(s.(tail := s.nodes[s.tail].next, pushed := s.pushed + [s.nodes[s.tail].value]), t, l.(pc := UnlockTail))
    case UnlockTail => SetLocal(s.(tailLock := FREE), t, l.(pc := Done))
    // both pops: under the head lock, look at tail_ under the tail lock
    case LockHead =>
      if s.headLock == FREE then SetLocal(s.(headLock := t), t, l.(pc := GetLock)) else s
    case GetLock =>
      if s.tailLock == FREE then SetLocal(s.(tailLock := t), t, l.(pc := ReadTail)) else s
    case ReadTail => SetLocal(s, t, l.(seen := s.tail, pc := GetUnlock))
    case GetUnlock => SetLocal(s.(tailLock := FREE), t, l.(pc := Compare))
    case Compare =>
      SetLocal(s, t,
               if s.head != l.seen then l.(pc := if l.op.TryPop? then ReadValue else ReadLink)
               else l.(pc := UnlockEmpty))
    case UnlockEmpty =>
      SetLocal(s.(headLock := FREE), t, if l.op.TryPop? then l.(pc := Done, out := Empty) else l.(pc := Waiting))
    case Waiting => SetLocal(s, t, l.(pc := LockHead))
    // tryPop reads the entry before it moves the head, waitAndPop after it has let the lock go
    case ReadValue => SetLocal(s, t, l.(out := Got(s.nodes[s.head].value), pc := ReadLink))
    case ReadLink => SetLocal(s, t, l.(node := s.head, seen := s.nodes[s.head].next, pc := MoveHead))
    case MoveHead =>
      SetLocal(s.(head := l.seen, popped := s.popped + [s.nodes[l.node].value]), t, l.(pc := UnlockHead))
    case UnlockHead => SetLocal(s.(headLock := FREE), t, l.(pc := if l.op.TryPop? then Free else ReadOut))
    case ReadOut => SetLocal(s, t, l.(out := Got(s.nodes[l.node].value), pc := Free))
    case Free => SetLocal(s.(freed := s.freed + {l.node}), t, l.(pc := Done))
  }

  predicate Active(l: Local) {
    !l.pc.Idle? && !l.pc.Done?
  }

  function Apply(s: State, e: Event): State {
    match e
    case Call(t, op) =>
      if t < |s.threads| && !Active(s.threads[t]) then
        SetLocal(s, t, Local(if op.Push? then MakeNode else LockHead, op, 0, 0, Nothing))
      else s
    case Tick(t) => if Shaped(s, t) then Step(s, t) else s
  }

  /** A run: the states it goes through and the events between them. */
  datatype Trace = Trace(states: seq<State>, events: seq<Event>)

  predicate StepAt(r: Trace, m: nat) {
    m < |r.events| && m + 1 < |r.states| && r.states[m + 1] == Apply(r.states[m], r.events[m])
  }

  ghost predicate IsRun(r: Trace) {
    && |r.states| == |r.events| + 1 && (exists threads: nat :: r.states[0] == Init(threads))
    && (forall m: nat {:trigger StepAt(r, m)} | m < |r.events| :: StepAt(r, m))
  }

  /** Every schedule of events has its run. */
  lemma {:induction false} EveryScheduleRuns(threads: nat, events: seq<Event>) returns (r: Trace)
    ensures IsRun(r) && r.events == events && r.states[0] == Init(threads)
  {
    if events == [] {
      r := Trace([Init(threads)], events);
    } else {
      var n := |events| - 1;
      var q := EveryScheduleRuns(threads, events[..n]);
      r := Trace(q.states + [Apply(q.states[n], events[n])], events);
      forall m: nat | m < |events| ensures StepAt(r, m) {
        if m < n { assert StepAt(q, m); }
      }
    }
  }

  /** The values from `head_` up to `tail_`. */
  function Walk(s: State, i: int, fuel: nat): seq<int>
    decreases fuel
  {
    if fuel == 0 || i == s.tail || !IsNode(s, i) then []
    else [s.nodes[i].value] + Walk(s, s.nodes[i].next, fuel - 1)
  }

  function Contents(s: State): seq<int> {
    Walk(s, s.head, |s.nodes|)
  }

  /** The nodes a thread's next step reads or writes. */
  function Touches(s: State, t: nat): set<int>
    requires t < |s.threads|
  {
    var l := s.threads[t];
    match l.pc
    case WriteValue => {s.tail}
    case WriteNext => {s.tail}
    case MoveTail => {s.tail}
    case ReadValue => {s.head}
    case ReadLink => {s.head}
    case MoveHead => {l.node}
    case ReadOut => {l.node}
    case Free => {l.node}
    case _ => {}
  }

  // ---- The invariant ------------------------------------------------------------------------

  predicate HoldsTail(pc: Pc) {
    pc.WriteValue? || pc.WriteNext? || pc.MoveTail? || pc.UnlockTail? || pc.ReadTail? || pc.GetUnlock?
  }

  predicate HoldsHead(pc: Pc) {
    pc.GetLock? || pc.ReadTail? || pc.GetUnlock? || pc.Compare? || pc.UnlockEmpty? || Popping(pc) || pc.UnlockHead?
  }

  /** After `head_ != tail_` was seen and before the head moves. */
  predicate Popping(pc: Pc) {
    pc.ReadValue? || pc.ReadLink? || pc.MoveHead?
  }

  /** A pusher between making its node and publishing it. */
  predicate Pushing(pc: Pc) {
    pc.LockTail? || pc.WriteValue? || pc.WriteNext? || pc.MoveTail?
  }

  /** A popper that owns the node it has taken off. */
  predicate Owning(pc: Pc) {
    pc.UnlockHead? || pc.ReadOut? || pc.Free?
  }

  predicate PushPc(pc: Pc) {
    pc.MakeNode? || Pushing(pc) || pc.UnlockTail?
  }

  /** `order` lists every node that has been the tail, oldest first. */
  ghost predicate QueueInv(s: State, order: seq<int>) {
    && |order| == |s.pushed| + 1 && |s.popped| <= |s.pushed|
    && s.head == order[|s.popped|] && s.tail == order[|s.pushed|]
    && s.popped == s.pushed[..|s.popped|]
    && (forall i | 0 <= i < |order| :: IsNode(s, order[i]))
    && (forall i, j | 0 <= i < j < |order| :: order[i] != order[j])
    && (forall i | 0 <= i < |s.pushed| :: s.nodes[order[i]] == Node(s.pushed[i], order[i + 1]))
  }

  ghost predicate LockInv(s: State) {
    && (forall t | 0 <= t < |s.threads| :: HoldsHead(s.threads[t].pc) <==> s.headLock == t)
    && (forall t | 0 <= t < |s.threads| :: HoldsTail(s.threads[t].pc) <==> s.tailLock == t)
  }

  /** Position `i` of the order is behind the head, and its node is not yet freed. */
  ghost predicate Taken(s: State, order: seq<int>, i: int) {
    0 <= i < |s.popped| < |order| && order[i] !in s.freed
  }

  ghost predicate ThreadInv(s: State, order: seq<int>, l: Local)
    requires QueueInv(s, order)
  {
    && IsNode(s, l.node)
    && (Active(l) ==> (PushPc(l.pc) <==> l.op.Push?))
    && (Pushing(l.pc) ==> l.node !in order)
    && (l.pc.WriteNext? || l.pc.MoveTail? ==> l.op.Push? && s.nodes[s.tail].value == l.op.value)
    && (l.pc.MoveTail? ==> s.nodes[s.tail].next == l.node)
    && (l.pc.GetUnlock? || l.pc.Compare? ==> l.seen != s.head ==> |s.popped| < |s.pushed|)
    && (l.pc.UnlockEmpty? ==> l.seen == s.head)
    && (Popping(l.pc) ==> |s.popped| < |s.pushed|)
    && (l.pc.MoveHead? ==> l.node == s.head && l.seen == s.nodes[s.head].next)
    && (l.op.TryPop? && (l.pc.ReadLink? || l.pc.MoveHead?) ==> l.out == Got(s.pushed[|s.popped|]))
    && (Owning(l.pc) ==> exists i :: Taken(s, order, i) && order[i] == l.node
                                     && (l.op.TryPop? || l.pc.Free? ==> l.out == Got(s.pushed[i])))
    && (Active(l) ==> !l.out.Empty?)
    && (l.pc.ReadValue? ==> l.op.TryPop?) && (l.pc.ReadOut? || l.pc.Waiting? ==> l.op.WaitPop?)
  }

  /** A new node, or one taken off, belongs to one thread. */
  ghost predicate OwnerInv(s: State) {
    forall t, u | 0 <= t < |s.threads| && 0 <= u < |s.threads| && t != u ::
      && (Pushing(s.threads[t].pc) && Pushing(s.threads[u].pc) ==> s.threads[t].node != s.threads[u].node)
      && (Owning(s.threads[t].pc) && Owning(s.threads[u].pc) ==> s.threads[t].node != s.threads[u].node)
  }

  ghost predicate FreedInv(s: State, order: seq<int>)
    requires QueueInv(s, order)
  {
    forall x | x in s.freed :: Behind(s, order, x)
  }

  ghost predicate Behind(s: State, order: seq<int>, x: int) {
    exists i | 0 <= i < |s.popped| && i < |order| :: order[i] == x
  }

  ghost predicate Inv(s: State, order: seq<int>) {
    && QueueInv(s, order) && LockInv(s) && OwnerInv(s) && FreedInv(s, order)
    && (forall t {:trigger ThreadInv(s, order, s.threads[t])} | 0 <= t < |s.threads| :: ThreadInv(s, order, s.threads[t]))
  }

  ghost function Follow(order: seq<int>, s: State, e: Event): seq<int> {
    if e.Tick? && Shaped(s, e.t) && s.threads[e.t].pc.MoveTail? then order + [s.threads[e.t].node] else order
  }

  // ---- Every step keeps it ------------------------------------------------------------------

  /** What the other threads see of a step of `t`: nodes are written only at the tail by its lock's holder, the head
      moves only under its lock, the only node published or freed is `t`'s own. */
  ghost predicate StepOf(s: State, order: seq<int>, t: nat, s': State, order': seq<int>) {
    && t < |s.threads| == |s'.threads| && s'.threads == s.threads[t := s'.threads[t]]
    && (order' == order || (order' == order + [s.threads[t].node] && Pushing(s.threads[t].pc)))
    && s.pushed <= s'.pushed && s.popped <= s'.popped
    && |s.nodes| <= |s'.nodes|
    && (forall i | 0 <= i < |s.nodes| && (i != s.tail || !HoldsTail(s.threads[t].pc)) :: s'.nodes[i] == s.nodes[i])
    && (s'.tail != s.tail ==> HoldsTail(s.threads[t].pc))
    && (s'.head != s.head || s'.popped != s.popped ==> HoldsHead(s.threads[t].pc))
    && (s'.freed == s.freed || (s'.freed == s.freed + {s.threads[t].node} && Owning(s.threads[t].pc)))
  }

  lemma Bystander(s: State, order: seq<int>, t: nat, s': State, order': seq<int>, u: nat)
    requires Inv(s, order) && QueueInv(s', order') && StepOf(s, order, t, s', order') && u < |s.threads| && u != t
    ensures ThreadInv(s', order', s'.threads[u])
  {
    var l := s.threads[u];
    assert ThreadInv(s, order, l);
    assert s'.threads[u] == l;
    assert !(HoldsHead(l.pc) && HoldsHead(s.threads[t].pc)) && !(HoldsTail(l.pc) && HoldsTail(s.threads[t].pc));
    if Owning(l.pc) {
      var i :| Taken(s, order, i) && order[i] == l.node && (l.op.TryPop? || l.pc.Free? ==> l.out == Got(s.pushed[i]));
      assert Taken(s', order', i) && order'[i] == l.node;
    }
  }

  lemma BehindStays(s: State, order: seq<int>, s': State, order': seq<int>, x: int)
    requires Behind(s, order, x) && s.popped <= s'.popped && order <= order'
    ensures Behind(s', order', x)
  {
    var i :| 0 <= i < |s.popped| && i < |order| && order[i] == x;
    assert order'[i] == x;
  }

  lemma FreedStays(s: State, order: seq<int>, s': State, order': seq<int>)
    requires QueueInv(s, order) && QueueInv(s', order') && FreedInv(s, order)
    requires s.popped <= s'.popped && order <= order' && s'.freed == s.freed
    ensures FreedInv(s', order')
  {
    forall x | x in s'.freed ensures Behind(s', order', x) { BehindStays(s, order, s', order', x); }
  }

  lemma Assemble(s: State, order: seq<int>, t: nat, s': State, order': seq<int>)
    requires Inv(s, order) && QueueInv(s', order') && StepOf(s, order, t, s', order')
    requires LockInv(s') && OwnerInv(s') && FreedInv(s', order') && ThreadInv(s', order', s'.threads[t])
    ensures Inv(s', order')
  {
    forall u | 0 <= u < |s'.threads| ensures ThreadInv(s', order', s'.threads[u]) {
      if u != t { Bystander(s, order, t, s', order', u); }
    }
  }

  lemma AlwaysShaped(s: State, order: seq<int>, t: nat)
    requires Inv(s, order) && t < |s.threads|
    ensures Shaped(s, t) && ThreadInv(s, order, s.threads[t])
  {
    assert ThreadInv(s, order, s.threads[t]);
  }

  predicate LockPc(pc: Pc) {
    pc.LockTail? || pc.UnlockTail? || pc.LockHead? || pc.GetLock? || pc.GetUnlock? || pc.UnlockEmpty? || pc.UnlockHead?
  }

  predicate WritePc(pc: Pc) {
    pc.MakeNode? || pc.WriteValue? || pc.WriteNext? || pc.MoveTail? || pc.MoveHead? || pc.Free?
  }

  lemma ReadThread(s: State, order: seq<int>, t: nat)
    requires Inv(s, order) && Shaped(s, t) && !LockPc(s.threads[t].pc) && !WritePc(s.threads[t].pc)
    ensures QueueInv(Step(s, t), order) && ThreadInv(Step(s, t), order, Step(s, t).threads[t])
  {
    var s', l := Step(s, t), s.threads[t];
    assert ThreadInv(s, order, l);
    if l.pc.ReadOut? {
      var i :| Taken(s, order, i) && order[i] == l.node;
      assert Taken(s', order, i) && s.nodes[order[i]] == Node(s.pushed[i], order[i + 1]);
    }
    if l.pc.ReadValue? { assert s.nodes[order[|s.popped|]] == Node(s.pushed[|s.popped|], order[|s.popped| + 1]); }
  }

  lemma ReadKeepsInv(s: State, order: seq<int>, t: nat)
    requires Inv(s, order) && t < |s.threads| && !LockPc(s.threads[t].pc) && !WritePc(s.threads[t].pc)
    ensures Inv(Apply(s, Tick(t)), Follow(order, s, Tick(t)))
  {
    AlwaysShaped(s, order, t);
    ReadThread(s, order, t);
    FreedStays(s, order, Step(s, t), order);
    Assemble(s, order, t, Step(s, t), order);
  }

  lemma LockLocks(s: State, t: nat)
    requires LockInv(s) && Shaped(s, t) && LockPc(s.threads[t].pc)
    ensures LockInv(Step(s, t))
  {
  }

  lemma LockThread(s: State, order: seq<int>, t: nat)
    requires Inv(s, order) && Shaped(s, t) && LockPc(s.threads[t].pc)
    ensures QueueInv(Step(s, t), order) && ThreadInv(Step(s, t), order, Step(s, t).threads[t])
  {
    var s', l := Step(s, t), s.threads[t];
    assert ThreadInv(s, order, l);
    if l.pc.UnlockHead? {
      var i :| Taken(s, order, i) && order[i] == l.node && (l.op.TryPop? || l.pc.Free? ==> l.out == Got(s.pushed[i]));
      assert Taken(s', order, i);
    }
  }

  lemma LockKeepsInv(s: State, order: seq<int>, t: nat)
    requires Inv(s, order) && t < |s.threads| && LockPc(s.threads[t].pc)
    ensures Inv(Apply(s, Tick(t)), Follow(order, s, Tick(t)))
  {
    AlwaysShaped(s, order, t);
    LockLocks(s, t);
    LockThread(s, order, t);
    FreedStays(s, order, Step(s, t), order);
    Assemble(s, order, t, Step(s, t), order);
  }

  lemma MakeKeepsInv(s: State, order: seq<int>, t: nat)
    requires Inv(s, order) && t < |s.threads| && s.threads[t].pc.MakeNode?
    ensures Inv(Apply(s, Tick(t)), Follow(order, s, Tick(t)))
  {
    AlwaysShaped(s, order, t);
    forall u | 0 <= u < |s.threads| ensures s.threads[u].node < |s.nodes| { AlwaysShaped(s, order, u); }
    Assemble(s, order, t, Step(s, t), order);
  }

  lemma WriteKeepsInv(s: State, order: seq<int>, t: nat)
    requires Inv(s, order) && t < |s.threads| && (s.threads[t].pc.WriteValue? || s.threads[t].pc.WriteNext?)
    ensures Inv(Apply(s, Tick(t)), Follow(order, s, Tick(t)))
  {
    AlwaysShaped(s, order, t);
    Assemble(s, order, t, Step(s, t), order);
  }

  lemma MoveTailQueue(s: State, order: seq<int>, t: nat)
    requires Inv(s, order) && Shaped(s, t) && s.threads[t].pc.MoveTail?
    ensures QueueInv(Step(s, t), order + [s.threads[t].node])
  {
    assert ThreadInv(s, order, s.threads[t]);
    var s', order' := Step(s, t), order + [s.threads[t].node];
    forall i | 0 <= i < |s'.pushed| ensures s'.nodes[order'[i]] == Node(s'.pushed[i], order'[i + 1]) {
      if i < |s.pushed| { assert s.nodes[order[i]] == Node(s.pushed[i], order[i + 1]); }
    }
  }

  lemma MoveTailKeepsInv(s: State, order: seq<int>, t: nat)
    requires Inv(s, order) && t < |s.threads| && s.threads[t].pc.MoveTail?
    ensures Inv(Apply(s, Tick(t)), Follow(order, s, Tick(t)))
  {
    AlwaysShaped(s, order, t);
    MoveTailQueue(s, order, t);
    FreedStays(s, order, Step(s, t), order + [s.threads[t].node]);
    Assemble(s, order, t, Step(s, t), order + [s.threads[t].node]);
  }

  lemma MoveHeadKeepsInv(s: State, order: seq<int>, t: nat)
    requires Inv(s, order) && t < |s.threads| && s.threads[t].pc.MoveHead?
    ensures Inv(Apply(s, Tick(t)), Follow(order, s, Tick(t)))
  {
    AlwaysShaped(s, order, t);
    var s' := Step(s, t);
    assert order[|s.popped|] == s.head && s.nodes[s.head] == Node(s.pushed[|s.popped|], order[|s.popped| + 1]);
    assert order[|s.popped|] !in s.freed && Taken(s', order, |s.popped|);
    forall u | 0 <= u < |s.threads| && Owning(s.threads[u].pc) ensures s.threads[u].node != s.head {
      AlwaysShaped(s, order, u);
    }
    FreedStays(s, order, s', order);
    Assemble(s, order, t, s', order);
  }

  lemma FreeKeepsInv(s: State, order: seq<int>, t: nat)
    requires Inv(s, order) && t < |s.threads| && s.threads[t].pc.Free?
    ensures Inv(Apply(s, Tick(t)), Follow(order, s, Tick(t)))
  {
    AlwaysShaped(s, order, t);
    Assemble(s, order, t, Step(s, t), order);
  }

  lemma CallKeepsInv(s: State, order: seq<int>, e: Event)
    requires Inv(s, order) && (e.Call? || e.t >= |s.threads|)
    ensures Inv(Apply(s, e), order)
  {
    var s' := Apply(s, e);
    if s' != s {
      assert IsNode(s, 0);
      Assemble(s, order, e.t, s', order);
    }
  }

  lemma EventKeepsInv(s: State, order: seq<int>, e: Event)
    requires Inv(s, order)
    ensures Inv(Apply(s, e), Follow(order, s, e))
  {
    if e.Call? || e.t >= |s.threads| {
      CallKeepsInv(s, order, e);
    } else {
      match s.threads[e.t].pc
      case MakeNode => MakeKeepsInv(s, order, e.t);
      case WriteValue => WriteKeepsInv(s, order, e.t);
      case WriteNext => WriteKeepsInv(s, order, e.t);
      case MoveTail => MoveTailKeepsInv(s, order, e.t);
      case MoveHead => MoveHeadKeepsInv(s, order, e.t);
      case Free => FreeKeepsInv(s, order, e.t);
      case _ => if LockPc(s.threads[e.t].pc) { LockKeepsInv(s, order, e.t); } else { ReadKeepsInv(s, order, e.t); }
    }
  }

  ghost function OrderAt(r: Trace, m: nat): seq<int>
    requires m < |r.states| == |r.events| + 1
  {
    if m == 0 then [0] else Follow(OrderAt(r, m - 1), r.states[m - 1], r.events[m - 1])
  }

  lemma {:induction false} RunHasInv(r: Trace, m: nat)
    requires IsRun(r) && m < |r.states|
    ensures Inv(r.states[m], OrderAt(r, m))
  {
    if m > 0 {
      RunHasInv(r, m - 1);
      assert StepAt(r, m - 1);
      EventKeepsInv(r.states[m - 1], OrderAt(r, m - 1), r.events[m - 1]);
    }
  }

  // ---- First in, first out ------------------------------------------------------------------

  lemma {:induction false} WalkIs(s: State, order: seq<int>, i: nat, fuel: nat)
    requires QueueInv(s, order) && i < |order| && fuel >= |s.pushed| - i
    ensures Walk(s, order[i], fuel) == s.pushed[i..]
    decreases fuel
  {
    if i < |s.pushed| {
      assert s.nodes[order[i]] == Node(s.pushed[i], order[i + 1]);
      WalkIs(s, order, i + 1, fuel - 1);
      assert s.pushed[i..] == [s.pushed[i]] + s.pushed[i + 1..];
    }
  }

  /** Distinct indices are no more than there are nodes. */
  lemma {:induction false} FewDistinct(order: seq<int>, n: nat)
    requires forall i | 0 <= i < |order| :: 0 <= order[i] < n
    requires forall i, j | 0 <= i < j < |order| :: order[i] != order[j]
    ensures |order| <= n
  {
    if |order| > 0 {
      assert 0 <= order[0] < n;
      if n - 1 in order {
        var k :| 0 <= k < |order| && order[k] == n - 1;
        var rest := order[..k] + order[k + 1..];
        forall i, j | 0 <= i < j < |rest| ensures rest[i] != rest[j] && rest[i] != n - 1 && rest[j] != n - 1 {
          assert rest[i] == order[if i < k then i else i + 1] && rest[j] == order[if j < k then j else j + 1];
        }
        assert |rest| == 1 ==> rest[0] == order[if 0 < k then 0 else 1];
        FewDistinct(rest, n - 1);
      } else {
        FewDistinct(order, n - 1);
      }
    }
  }

  lemma ContentsIs(s: State, order: seq<int>)
    requires Inv(s, order)
    ensures s.popped + Contents(s) == s.pushed && Contents(s) == s.pushed[|s.popped|..]
  {
    FewDistinct(order, |s.nodes|);
    WalkIs(s, order, |s.popped|, |s.nodes|);
  }

  /** In every reachable state the values popped, followed by those from the head to the tail, are exactly the values
      pushed, in the order of the pushes. */
  lemma FirstInFirstOut(r: Trace, m: nat)
    requires IsRun(r) && m < |r.states|
    ensures r.states[m].popped + Contents(r.states[m]) == r.states[m].pushed
  {
    RunHasInv(r, m);
    ContentsIs(r.states[m], OrderAt(r, m));
  }

  /** No step of any thread reads, writes or frees a freed node. */
  lemma NothingFreedIsTouched(r: Trace, m: nat, t: nat)
    requires IsRun(r) && m < |r.states| && t < |r.states[m].threads|
    ensures Touches(r.states[m], t) !! r.states[m].freed
  {
    var s, order := r.states[m], OrderAt(r, m);
    RunHasInv(r, m);
    AlwaysShaped(s, order, t);
    assert s.head !in s.freed && s.tail !in s.freed;
  }

  /** A pop that has moved the head past the node has yet to free it. */
  ghost predicate Owned(s: State, x: int) {
    exists t | 0 <= t < |s.threads| :: Owning(s.threads[t].pc) && s.threads[t].node == x
  }

  /** Every node that the head has passed is freed or about to be. */
  ghost predicate Released(s: State, order: seq<int>) {
    |s.popped| <= |order| && forall i | 0 <= i < |s.popped| :: order[i] in s.freed || Owned(s, order[i])
  }

  lemma OwnerGoesOn(s: State, order: seq<int>, e: Event, u: nat)
    requires Inv(s, order) && u < |s.threads| && Owning(s.threads[u].pc)
    ensures u < |Apply(s, e).threads| && s.freed <= Apply(s, e).freed
    ensures var l, l' := s.threads[u], Apply(s, e).threads[u];
            (Owning(l'.pc) && l'.node == l.node) || l.node in Apply(s, e).freed
  {
    AlwaysShaped(s, order, u);
    if e.Tick? && e.t < |s.threads| { AlwaysShaped(s, order, e.t); }
  }

  lemma HeadGoesOn(s: State, order: seq<int>, e: Event)
    requires Inv(s, order)
    ensures var s' := Apply(s, e);
            s.freed <= s'.freed
            && (s'.popped == s.popped || (|s'.popped| == |s.popped| + 1 < |order| && Owned(s', order[|s.popped|])))
  {
    if e.Tick? && e.t < |s.threads| {
      AlwaysShaped(s, order, e.t);
      if s.threads[e.t].pc.MoveHead? {
        var l := Apply(s, e).threads[e.t];
        assert Owning(l.pc) && l.node == order[|s.popped|];
      }
    }
  }

  lemma ReleasedStep(s: State, order: seq<int>, e: Event)
    requires Inv(s, order) && Released(s, order)
    ensures Released(Apply(s, e), Follow(order, s, e))
  {
    var s', order' := Apply(s, e), Follow(order, s, e);
    HeadGoesOn(s, order, e);
    forall i | 0 <= i < |s'.popped| ensures order'[i] in s'.freed || Owned(s', order'[i]) {
      assert order'[i] == order[i];
      if i < |s.popped| && order[i] !in s.freed {
        var u :| 0 <= u < |s.threads| && Owning(s.threads[u].pc) && s.threads[u].node == order[i];
        OwnerGoesOn(s, order, e, u);
      }
    }
  }

  lemma {:induction false} RunReleases(r: Trace, m: nat)
    requires IsRun(r) && m < |r.states|
    ensures Released(r.states[m], OrderAt(r, m))
  {
    if m > 0 {
      RunHasInv(r, m - 1);
      RunReleases(r, m - 1);
      assert StepAt(r, m - 1);
      ReleasedStep(r.states[m - 1], OrderAt(r, m - 1), r.events[m - 1]);
    }
  }

  /** Nothing leaks: when no pop is between moving the head and returning, the nodes freed are exactly those the head has
      passed, one for each value popped. */
  lemma NothingLeaks(r: Trace, m: nat)
    requires IsRun(r) && m < |r.states|
    requires forall t | 0 <= t < |r.states[m].threads| :: !Owning(r.states[m].threads[t].pc)
    ensures |r.states[m].popped| <= |OrderAt(r, m)|
    ensures r.states[m].freed == set x | x in OrderAt(r, m)[..|r.states[m].popped|]
  {
    RunHasInv(r, m);
    RunReleases(r, m);
    var s, order := r.states[m], OrderAt(r, m);
    forall x ensures x in s.freed <==> x in order[..|s.popped|] {
      if x in s.freed { assert Behind(s, order, x); }
      if x in order[..|s.popped|] {
        var i :| 0 <= i < |s.popped| && order[i] == x;
        assert !Owned(s, x);
      }
    }
  }

  /** Once a popper has seen the head differ from the tail, no other thread changes the head, its entry or its link. */
  lemma HeadNodeIsFixed(r: Trace, m: nat, t: nat)
    requires IsRun(r) && m < |r.events| && t < |r.states[m].threads| && Popping(r.states[m].threads[t].pc)
    requires r.events[m].t != t
    ensures var s, s' := r.states[m], r.states[m + 1];
            && IsNode(s, s.head) && s'.head == s.head && |s'.nodes| >= |s.nodes| && s'.nodes[s.head] == s.nodes[s.head]
            && s.head != s.tail
  {
    var s, order, u := r.states[m], OrderAt(r, m), r.events[m].t;
    RunHasInv(r, m);
    assert StepAt(r, m);
    AlwaysShaped(s, order, t);
    assert order[|s.popped|] != order[|s.pushed|];
    if u < |s.threads| { AlwaysShaped(s, order, u); }
  }

  // ---- One call -----------------------------------------------------------------------------

  /** Event `i` is a call of `op` by `t`, which is accepted and still running after every later event before the `j`th. */
  ghost predicate Running(r: Trace, t: nat, op: Op, i: nat, j: nat) {
    && IsRun(r) && i < j <= |r.events| && r.events[i] == Call(t, op)
    && t < |r.states[i].threads| && !Active(r.states[i].threads[t])
    && (forall m | i < m < j :: t < |r.states[m].threads| && Active(r.states[m].threads[t]))
  }

  ghost predicate Returns(r: Trace, t: nat, op: Op, i: nat, j: nat, out: Outcome) {
    && Running(r, t, op, i, j) && t < |r.states[j].threads|
    && r.states[j].threads[t].pc.Done? && r.states[j].threads[t].out == out
  }

  lemma OpStays(s: State, e: Event, t: nat)
    requires t < |s.threads| && (Active(s.threads[t]) || (e.Call? && e.t == t))
    ensures |Apply(s, e).threads| == |s.threads|
    ensures Apply(s, e).threads[t].op == if Active(s.threads[t]) then s.threads[t].op else e.op
  {
  }

  lemma {:induction false} OpIsKept(r: Trace, t: nat, op: Op, i: nat, j: nat)
    requires Running(r, t, op, i, j)
    ensures t < |r.states[j].threads| == |r.states[j - 1].threads| && r.states[j].threads[t].op == op
    decreases j
  {
    if j - 1 > i { OpIsKept(r, t, op, i, j - 1); }
    assert StepAt(r, j - 1);
    OpStays(r.states[j - 1], r.events[j - 1], t);
  }

  /** Event `m - 1` is the step of `t` that moves the tail or the head. */
  ghost predicate MoveAt(r: Trace, t: nat, m: nat)
    requires IsRun(r) && m <= |r.events|
  {
    && 0 < m && r.events[m - 1] == Tick(t) && t < |r.states[m - 1].threads|
    && (var pc := r.states[m - 1].threads[t].pc; pc.MoveTail? || pc.MoveHead?)
  }

  predicate Moved(l: Local) {
    if l.op.Push? then l.pc.UnlockTail? || l.pc.Done? else Owning(l.pc) || (l.pc.Done? && l.out.Got?)
  }

  /** One step of a call: it has moved exactly when it makes its move; the move of a push adds its value, that of a pop
      takes the first value, which the pop then keeps. */
  lemma MoveStep(s: State, order: seq<int>, t: nat)
    requires Inv(s, order) && t < |s.threads| && Active(s.threads[t])
    ensures Shaped(s, t)
    ensures var s', l, l' := Step(s, t), s.threads[t], Step(s, t).threads[t];
            && Moved(l') == (Moved(l) || l.pc.MoveTail? || l.pc.MoveHead?)
            && !(Moved(l) && (l.pc.MoveTail? || l.pc.MoveHead?))
            && (l.pc.MoveTail? ==> l.op.Push? && s'.pushed == s.pushed + [l.op.value] && s'.popped == s.popped)
            && (l.pc.MoveHead? ==>
                  && !l.op.Push? && |s.popped| < |s.pushed| && l'.node == order[|s.popped|] && l'.pc.UnlockHead?
                  && s'.popped == s.popped + [s.pushed[|s.popped|]] && s'.pushed == s.pushed
                  && (l.op.TryPop? ==> l'.out == Got(s.pushed[|s.popped|])))
  {
    AlwaysShaped(s, order, t);
    var l := s.threads[t];
    if l.pc.MoveHead? { assert s.nodes[order[|s.popped|]] == Node(s.pushed[|s.popped|], order[|s.popped| + 1]); }
  }

  ghost predicate NoMove(r: Trace, t: nat, i: nat, j: nat)
    requires IsRun(r) && j <= |r.events|
  {
    forall m | i < m <= j :: !MoveAt(r, t, m)
  }

  ghost predicate OneMove(r: Trace, t: nat, i: nat, j: nat, m: nat)
    requires IsRun(r) && j <= |r.events|
  {
    i < m <= j && MoveAt(r, t, m) && forall q | i < q <= j && MoveAt(r, t, q) :: q == m
  }

  lemma MoveStepAt(r: Trace, t: nat, op: Op, i: nat, p: nat)
    requires Running(r, t, op, i, p + 1)
    ensures t < |r.states[p].threads| == |r.states[p + 1].threads|
    ensures var l, l' := r.states[p].threads[t], r.states[p + 1].threads[t];
            && (p > i ==> Moved(l') == (Moved(l) || MoveAt(r, t, p + 1)))
            && (p > i ==> !(Moved(l) && MoveAt(r, t, p + 1)))
            && (p == i ==> !Moved(l') && !MoveAt(r, t, p + 1))
  {
    OpIsKept(r, t, op, i, p + 1);
    assert StepAt(r, p);
    if p > i && r.events[p] == Tick(t) {
      RunHasInv(r, p);
      MoveStep(r.states[p], OrderAt(r, p), t);
    }
  }

  lemma {:induction false} MovesOnce(r: Trace, t: nat, op: Op, i: nat, j: nat)
    requires Running(r, t, op, i, j)
    ensures t < |r.states[j].threads|
    ensures if Moved(r.states[j].threads[t]) then exists m: nat :: OneMove(r, t, i, j, m) else NoMove(r, t, i, j)
    decreases j
  {
    var p := j - 1;
    MoveStepAt(r, t, op, i, p);
    if p > i {
      MovesOnce(r, t, op, i, p);
      if Moved(r.states[p].threads[t]) {
        var m: nat :| OneMove(r, t, i, p, m);
        assert OneMove(r, t, i, j, m);
      } else if MoveAt(r, t, j) {
        assert OneMove(r, t, i, j, j);
      }
    }
  }

  /** Having taken position `k` of the queue's history, a pop owns that node, or has let it go with its value. */
  ghost predicate HasTaken(s: State, order: seq<int>, t: nat, k: nat) {
    && t < |s.threads| && k < |s.pushed| < |order| && k < |s.popped|
    && var l := s.threads[t];
    && !l.op.Push? && (Owning(l.pc) || l.pc.Done?)
    && (Owning(l.pc) ==> l.node == order[k])
    && (l.op.TryPop? || l.pc.Free? || l.pc.Done? ==> l.out == Got(s.pushed[k]))
  }

  lemma TakenStays(s: State, order: seq<int>, e: Event, t: nat, k: nat)
    requires Inv(s, order) && HasTaken(s, order, t, k) && Owning(s.threads[t].pc)
    ensures HasTaken(Apply(s, e), Follow(order, s, e), t, k)
    ensures Apply(s, e).pushed[k] == s.pushed[k]
  {
    AlwaysShaped(s, order, t);
    if s.threads[t].pc.ReadOut? { assert s.nodes[order[k]] == Node(s.pushed[k], order[k + 1]); }
    EventKeepsInv(s, order, e);
  }

  lemma TakesAt(r: Trace, t: nat, op: Op, i: nat, m: nat)
    requires Running(r, t, op, i, m) && !op.Push? && MoveAt(r, t, m)
    ensures var s, s', k := r.states[m - 1], r.states[m], |r.states[m - 1].popped|;
            HasTaken(s', OrderAt(r, m), t, k) && s'.popped == s.popped + [s'.pushed[k]] && s'.pushed == s.pushed
  {
    OpIsKept(r, t, op, i, m);
    MoveStepAt(r, t, op, i, m - 1);
    RunHasInv(r, m - 1);
    RunHasInv(r, m);
    assert StepAt(r, m - 1);
    MoveStep(r.states[m - 1], OrderAt(r, m - 1), t);
  }

  lemma {:induction false} TakenIsReturned(r: Trace, t: nat, op: Op, i: nat, m: nat, j: nat)
    requires Running(r, t, op, i, j) && !op.Push? && i < m <= j && MoveAt(r, t, m)
    ensures HasTaken(r.states[j], OrderAt(r, j), t, |r.states[m - 1].popped|)
    ensures |r.states[m - 1].popped| < |r.states[m].pushed|
    ensures var k := |r.states[m - 1].popped|; r.states[j].pushed[k] == r.states[m].pushed[k]
    decreases j
  {
    if m == j {
      TakesAt(r, t, op, i, m);
    } else {
      TakenIsReturned(r, t, op, i, m, j - 1);
      RunHasInv(r, j - 1);
      assert StepAt(r, j - 1);
      TakenStays(r.states[j - 1], OrderAt(r, j - 1), r.events[j - 1], t, |r.states[m - 1].popped|);
    }
  }

  /** Moving the head past the first value. */
  lemma FirstLeaves(s: State, order: seq<int>, s': State, order': seq<int>, v: int)
    requires Inv(s, order) && Inv(s', order') && s'.pushed == s.pushed && s'.popped == s.popped + [v]
    ensures Contents(s) == [v] + Contents(s')
  {
    ContentsIs(s, order);
    ContentsIs(s', order');
    var k := |s.popped|;
    assert s'.popped == s.pushed[..k + 1] && s'.popped[k] == v;
    assert s.pushed[k..] == [s.pushed[k]] + s.pushed[k + 1..];
  }

  /** A pop that returns a value took it at exactly one of its steps, where it was the first in the queue. */
  lemma PopTakesTheFirst(r: Trace, t: nat, op: Op, i: nat, j: nat, v: int)
    requires Returns(r, t, op, i, j, Got(v)) && !op.Push?
    ensures exists m: nat :: OneMove(r, t, i, j, m) && Contents(r.states[m - 1]) == [v] + Contents(r.states[m])
  {
    OpIsKept(r, t, op, i, j);
    MovesOnce(r, t, op, i, j);
    var m: nat :| OneMove(r, t, i, j, m);
    TakenIsReturned(r, t, op, i, m, j);
    TakesAt(r, t, op, i, m);
    RunHasInv(r, m - 1);
    RunHasInv(r, m);
    FirstLeaves(r.states[m - 1], OrderAt(r, m - 1), r.states[m], OrderAt(r, m), v);
  }

  lemma LastJoins(s: State, order: seq<int>, s': State, order': seq<int>, v: int)
    requires Inv(s, order) && Inv(s', order') && s'.pushed == s.pushed + [v] && s'.popped == s.popped
    ensures Contents(s') == Contents(s) + [v]
  {
    ContentsIs(s, order);
    ContentsIs(s', order');
  }

  lemma AddsAt(r: Trace, t: nat, v: int, i: nat, m: nat)
    requires Running(r, t, Push(v), i, m) && MoveAt(r, t, m)
    ensures Contents(r.states[m]) == Contents(r.states[m - 1]) + [v]
  {
    MoveStepAt(r, t, Push(v), i, m - 1);
    if m - 1 > i { OpIsKept(r, t, Push(v), i, m - 1); }
    RunHasInv(r, m - 1);
    RunHasInv(r, m);
    assert StepAt(r, m - 1);
    MoveStep(r.states[m - 1], OrderAt(r, m - 1), t);
    LastJoins(r.states[m - 1], OrderAt(r, m - 1), r.states[m], OrderAt(r, m), v);
  }

  /** A finished push added its value at exactly one of its steps, at the end of the queue. */
  lemma PushAddsLast(r: Trace, t: nat, v: int, i: nat, j: nat, out: Outcome)
    requires Returns(r, t, Push(v), i, j, out)
    ensures exists m: nat :: OneMove(r, t, i, j, m) && Contents(r.states[m]) == Contents(r.states[m - 1]) + [v]
  {
    OpIsKept(r, t, Push(v), i, j);
    MovesOnce(r, t, Push(v), i, j);
    var m: nat :| OneMove(r, t, i, j, m);
    AddsAt(r, t, v, i, m);
  }

  // ---- An empty answer ----------------------------------------------------------------------

  /** In state `m`, within the call, `t` was about to read the tail, and the queue was empty. */
  ghost predicate SawEmptyAt(r: Trace, t: nat, i: nat, j: nat, m: nat) {
    && i < m < j < |r.states| && t < |r.states[m].threads|
    && r.states[m].threads[t].pc.ReadTail? && Contents(r.states[m]) == []
  }

  /** What the thread now knows comes from having read the tail equal to the head. */
  predicate KnowsEmpty(s: State, l: Local) {
    || ((l.pc.GetUnlock? || l.pc.Compare?) && l.seen == s.head)
    || (l.pc.UnlockEmpty? && l.op.TryPop?)
    || (l.pc.Done? && l.out.Empty?)
  }

  /** Nobody else moves the head under a thread that is about to compare it. */
  lemma HeadHeld(s: State, order: seq<int>, e: Event, t: nat)
    requires Inv(s, order) && t < |s.threads| && e != Tick(t) && HoldsHead(s.threads[t].pc)
    ensures Apply(s, e).head == s.head
  {
    if e.t < |s.threads| { AlwaysShaped(s, order, e.t); }
  }

  lemma KnowsStep(s: State, order: seq<int>, e: Event, t: nat)
    requires Inv(s, order) && t < |s.threads| && Active(s.threads[t])
    ensures t < |Apply(s, e).threads|
    ensures KnowsEmpty(Apply(s, e), Apply(s, e).threads[t]) ==>
              KnowsEmpty(s, s.threads[t]) || (e == Tick(t) && s.threads[t].pc.ReadTail? && Contents(s) == [])
  {
    AlwaysShaped(s, order, t);
    if e != Tick(t) && HoldsHead(s.threads[t].pc) { HeadHeld(s, order, e, t); }
  }

  lemma {:induction false} EmptyWasSeen(r: Trace, t: nat, op: Op, i: nat, j: nat)
    requires Running(r, t, op, i, j) && t < |r.states[j].threads|
    requires KnowsEmpty(r.states[j], r.states[j].threads[t])
    ensures exists m: nat :: SawEmptyAt(r, t, i, j, m)
    decreases j
  {
    var p := j - 1;
    assert StepAt(r, p);
    if p > i {
      RunHasInv(r, p);
      KnowsStep(r.states[p], OrderAt(r, p), r.events[p], t);
      if KnowsEmpty(r.states[p], r.states[p].threads[t]) {
        EmptyWasSeen(r, t, op, i, p);
        var m: nat :| SawEmptyAt(r, t, i, p, m);
        assert SawEmptyAt(r, t, i, j, m);
      } else {
        assert SawEmptyAt(r, t, i, j, p);
      }
    }
  }

  /** A `tryPop` that fails read the tail at a moment when the queue held nothing. */
  lemma FailedPopSawEmpty(r: Trace, t: nat, op: Op, i: nat, j: nat)
    requires Returns(r, t, op, i, j, Empty)
    ensures exists m: nat :: SawEmptyAt(r, t, i, j, m)
  {
    EmptyWasSeen(r, t, op, i, j);
  }
}
