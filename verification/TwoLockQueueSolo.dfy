/** A push or a pop that nobody disturbs: it returns, and does what the operation does on a plain sequence. */
module TwoLockQueueSolo {
  import opened TwoLockQueue

  /** Thread `t` takes `k` steps and nobody else any. */
  function Solo(s: State, t: nat, k: nat): State
    decreases k
  {
    if k == 0 then s else Solo(Apply(s, Tick(t)), t, k - 1)
  }

  /** No other thread holds a lock. */
  predicate NoneElse(s: State, t: nat) {
    (s.headLock == FREE || s.headLock == t) && (s.tailLock == FREE || s.tailLock == t)
  }

  /** The steps that are left of an undisturbed call; a waiting pop is where it is going to stay. */
  function Rank(pc: Pc): nat {
    match pc
    case MakeNode => 6
    case LockTail => 5
    case WriteValue => 4
    case WriteNext => 3
    case MoveTail => 2
    case UnlockTail => 1
    case LockHead => 12
    case GetLock => 11
    case ReadTail => 10
    case GetUnlock => 9
    case Compare => 8
    case ReadValue => 7
    case ReadLink => 6
    case MoveHead => 5
    case UnlockHead => 4
    case ReadOut => 3
    case Free => 2
    case UnlockEmpty => 1
    case _ => 0
  }

  /** The call has returned, or waits for somebody to push. */
  predicate AtEnd(l: Local) {
    l.pc.Done? || l.pc.Waiting?
  }

  /** What is known half-way of a push that began with the logs `pushed` and `popped`. */
  predicate PushTells(s: State, l: Local, pushed: seq<int>, popped: seq<int>) {
    && l.op.Push? && s.popped == popped
    && s.pushed == (if l.pc.UnlockTail? || l.pc.Done? then pushed + [l.op.value] else pushed)
    && (PushPc(l.pc) || l.pc.Done?)
  }

  /** The same of a pop. */
  predicate PopTells(s: State, l: Local, pushed: seq<int>, popped: seq<int>) {
    && !l.op.Push? && s.pushed == pushed && |popped| <= |pushed|
    && (l.pc.GetUnlock? || l.pc.Compare? ==> l.seen == s.tail)
    && (Popping(l.pc) ==> |popped| < |pushed| && s.popped == popped)
    && (Owning(l.pc) ==> |popped| < |pushed| && s.popped == popped + [pushed[|popped|]])
    && (l.pc.UnlockHead? || l.pc.ReadOut? ==> IsNode(s, l.node) && s.nodes[l.node].value == pushed[|popped|])
    && (if Owning(l.pc) then l.op.TryPop? || l.pc.Free? ==> l.out == Got(pushed[|popped|])
        else if l.pc.Done? && |popped| < |pushed| then s.popped == popped + [pushed[|popped|]] && l.out == Got(pushed[|popped|])
        else s.popped == popped && (l.pc.Done? ==> l.op.TryPop? && l.out == Empty))
    && (l.pc.UnlockEmpty? || l.pc.Waiting? ==> |popped| == |pushed|) && (l.pc.Waiting? ==> l.op.WaitPop?)
  }

  predicate Tells(s: State, t: nat, pushed: seq<int>, popped: seq<int>) {
    && t < |s.threads| && NoneElse(s, t)
    && if s.threads[t].op.Push? then PushTells(s, s.threads[t], pushed, popped)
       else PopTells(s, s.threads[t], pushed, popped)
  }

  predicate Ticked(k: int) { true }

  /** `s'` is the state after a tick of `t`; spelled out only where `Ticked` is named. */
  ghost predicate Next(s: State, t: nat, s': State) {
    forall k | Ticked(k) :: s' == Apply(s, Tick(t))
  }

  /** A step of an undisturbed call goes on with it. */
  ghost predicate GoesOn(s: State, t: nat, s': State, pushed: seq<int>, popped: seq<int>)
    requires t < |s.threads|
  {
    && Tells(s', t, pushed, popped) && s'.threads[t].op == s.threads[t].op
    && (AtEnd(s'.threads[t]) || Active(s'.threads[t])) && Rank(s'.threads[t].pc) < Rank(s.threads[t].pc)
  }

  lemma PushStep(s: State, order: seq<int>, t: nat, pushed: seq<int>, popped: seq<int>)
    requires Inv(s, order) && Tells(s, t, pushed, popped) && Active(s.threads[t]) && s.threads[t].op.Push?
    ensures GoesOn(s, t, Apply(s, Tick(t)), pushed, popped)
  {
    AlwaysShaped(s, order, t);
    assert ThreadInv(s, order, s.threads[t]);
  }

  /** A pop at its locks. */
  lemma LockStep(s: State, order: seq<int>, t: nat, pushed: seq<int>, popped: seq<int>)
    requires Inv(s, order) && Tells(s, t, pushed, popped) && Active(s.threads[t]) && !s.threads[t].op.Push?
    requires var pc := s.threads[t].pc; pc.LockHead? || pc.GetLock? || pc.GetUnlock? || pc.UnlockEmpty?
    ensures GoesOn(s, t, Apply(s, Tick(t)), pushed, popped)
  {
    AlwaysShaped(s, order, t);
  }

  /** A pop that finds out whether there is anything. */
  lemma LookStep(s: State, order: seq<int>, t: nat, pushed: seq<int>, popped: seq<int>)
    requires Inv(s, order) && Tells(s, t, pushed, popped) && Active(s.threads[t]) && !s.threads[t].op.Push?
    requires s.threads[t].pc.ReadTail? || s.threads[t].pc.Compare?
    ensures GoesOn(s, t, Apply(s, Tick(t)), pushed, popped)
  {
    AlwaysShaped(s, order, t);
    assert ThreadInv(s, order, s.threads[t]);
    if |s.popped| < |s.pushed| { assert order[|s.popped|] != order[|s.pushed|]; }
  }

  /** A pop that has found something and has yet to move the head. */
  lemma TakeStep(s: State, order: seq<int>, t: nat, pushed: seq<int>, popped: seq<int>)
    requires Inv(s, order) && Tells(s, t, pushed, popped) && Popping(s.threads[t].pc) && !s.threads[t].op.Push?
    ensures GoesOn(s, t, Apply(s, Tick(t)), pushed, popped)
  {
    AlwaysShaped(s, order, t);
    assert ThreadInv(s, order, s.threads[t]);
    var i := |s.popped|;
    assert s.nodes[order[i]] == Node(s.pushed[i], order[i + 1]);
  }

  /** A pop that has moved the head. */
  lemma TakenStep(s: State, order: seq<int>, t: nat, pushed: seq<int>, popped: seq<int>)
    requires Inv(s, order) && Tells(s, t, pushed, popped) && Owning(s.threads[t].pc) && !s.threads[t].op.Push?
    ensures GoesOn(s, t, Apply(s, Tick(t)), pushed, popped)
  {
    AlwaysShaped(s, order, t);
    assert ThreadInv(s, order, s.threads[t]);
  }

  lemma OneStep(s: State, order: seq<int>, t: nat, pushed: seq<int>, popped: seq<int>) returns (s': State, order': seq<int>)
    requires Inv(s, order) && Tells(s, t, pushed, popped) && Active(s.threads[t]) && !AtEnd(s.threads[t])
    ensures Next(s, t, s') && Inv(s', order') && GoesOn(s, t, s', pushed, popped)
  {
    s', order' := Apply(s, Tick(t)), Follow(order, s, Tick(t));
    EventKeepsInv(s, order, Tick(t));
    if s.threads[t].op.Push? {
      PushStep(s, order, t, pushed, popped);
    } else if Popping(s.threads[t].pc) {
      TakeStep(s, order, t, pushed, popped);
    } else if Owning(s.threads[t].pc) {
      TakenStep(s, order, t, pushed, popped);
    } else if s.threads[t].pc.ReadTail? || s.threads[t].pc.Compare? {
      LookStep(s, order, t, pushed, popped);
    } else {
      assert ThreadInv(s, order, s.threads[t]);
      LockStep(s, order, t, pushed, popped);
    }
  }

  /** The operation on a plain sequence. A `waitAndPop` of an empty queue waits. */
  predicate IsAnswer(l: Local, op: Op, was: seq<int>, now: seq<int>) {
    match op
    case Push(v) => l.pc.Done? && now == was + [v]
    case TryPop =>
      l.pc.Done? && if was == [] then l.out == Empty && now == [] else l.out == Got(was[0]) && now == was[1..]
    case WaitPop =>
      if was == [] then l.pc.Waiting? && now == [] else l.pc.Done? && l.out == Got(was[0]) && now == was[1..]
  }

  /** After `k` steps alone the call has come to its end as it should. */
  ghost predicate Ends(s: State, t: nat, k: nat, op: Op, was: seq<int>) {
    var s' := Solo(s, t, k);
    t < |s'.threads| && IsAnswer(s'.threads[t], op, was, Contents(s'))
  }

  lemma EndsLater(s: State, t: nat, s': State, k: nat, op: Op, was: seq<int>)
    requires Next(s, t, s') && Ends(s', t, k, op, was)
    ensures Ends(s, t, k + 1, op, was)
  {
    assert Ticked(0);
    assert Solo(s, t, k + 1) == Solo(Apply(s, Tick(t)), t, k);
  }

  lemma EndAnswers(s: State, order: seq<int>, t: nat, pushed: seq<int>, popped: seq<int>)
    requires Inv(s, order) && Tells(s, t, pushed, popped) && AtEnd(s.threads[t])
    requires |popped| <= |pushed| && popped == pushed[..|popped|]
    ensures Ends(s, t, 0, s.threads[t].op, pushed[|popped|..])
  {
    ContentsIs(s, order);
  }

  lemma {:induction false} AloneReturns(s: State, order: seq<int>, t: nat, pushed: seq<int>, popped: seq<int>) returns (k: nat)
    requires Inv(s, order) && Tells(s, t, pushed, popped) && (Active(s.threads[t]) || AtEnd(s.threads[t]))
    requires |popped| <= |pushed| && popped == pushed[..|popped|]
    ensures k <= Rank(s.threads[t].pc) && Ends(s, t, k, s.threads[t].op, pushed[|popped|..])
    decreases Rank(s.threads[t].pc)
  {
    k := 0;
    if AtEnd(s.threads[t]) {
      EndAnswers(s, order, t, pushed, popped);
    } else {
      var s', order' := OneStep(s, order, t, pushed, popped);
      k := AloneReturns(s', order', t, pushed, popped);
      EndsLater(s, t, s', k, s.threads[t].op, pushed[|popped|..]);
      k := k + 1;
    }
  }

  /** In every reachable state in which both locks are free, a call that is the only one to step from then on comes to its end
      within twelve steps: a push has added its value last, a pop has taken the first value or found none. */
  lemma AloneItReturns(r: Trace, m: nat, t: nat, op: Op) returns (k: nat)
    requires IsRun(r) && m < |r.states| && t < |r.states[m].threads| && !Active(r.states[m].threads[t])
    requires r.states[m].headLock == FREE && r.states[m].tailLock == FREE
    ensures k <= 12
    ensures var s' := Solo(Apply(r.states[m], Call(t, op)), t, k);
            t < |s'.threads| && IsAnswer(s'.threads[t], op, Contents(r.states[m]), Contents(s'))
  {
    var s, order := r.states[m], OrderAt(r, m);
    RunHasInv(r, m);
    ContentsIs(s, order);
    CallKeepsInv(s, order, Call(t, op));
    var s1 := Apply(s, Call(t, op));
    assert Tells(s1, t, s.pushed, s.popped);
    k := AloneReturns(s1, order, t, s.pushed, s.popped);
    assert Ends(s1, t, k, op, Contents(s));
  }

  /** A pop that waits, and is woken when there is something and no lock is held, takes the first value. */
  lemma WokenReturns(r: Trace, m: nat, t: nat) returns (k: nat)
    requires IsRun(r) && m < |r.states| && t < |r.states[m].threads| && r.states[m].threads[t].pc.Waiting?
    requires r.states[m].headLock == FREE && r.states[m].tailLock == FREE && Contents(r.states[m]) != []
    ensures var was, s' := Contents(r.states[m]), Solo(r.states[m], t, k);
            t < |s'.threads| && s'.threads[t].pc.Done? && s'.threads[t].out == Got(was[0]) && Contents(s') == was[1..]
  {
    var s, order := r.states[m], OrderAt(r, m);
    RunHasInv(r, m);
    ContentsIs(s, order);
    AlwaysShaped(s, order, t);
    assert ThreadInv(s, order, s.threads[t]);
    EventKeepsInv(s, order, Tick(t));
    var s1 := Apply(s, Tick(t));
    assert Tells(s1, t, s.pushed, s.popped);
    k := AloneReturns(s1, Follow(order, s, Tick(t)), t, s.pushed, s.popped);
    assert Ends(s1, t, k, WaitPop, Contents(s));
    k := k + 1;
  }
}
