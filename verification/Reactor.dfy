/** The reactor's loop and the threads that queue functors on it, interleaved step by step.

    A step is one atomic action: the mutex-protected push or swap, a load or store of one atomic flag, one read or
    write of the eventfd. The kernel's answers, and what handlers, timers and functors choose to queue, are events.
    `queued` and `ran` are logs: no step reads them. */
module Reactor {

  type Functor = nat

  /** Where a call of `queueInReactor` stands: after the push, after the flag is set, or not running. */
  datatype Post = NoPost | Pushed | Flagged

  /** Where the reactor's own thread stands. `Before` is ahead of `dispatch`; handlers run in `Handlers`, timers in
      `Timers` and functors in `Running`; `reported` says the wakeup event is still to be handled. */
  datatype Loop =
    | Before | Top | Poll
    | Handlers(reported: bool) | ReadDone | Timers | Check
    | SetCalling | Swap | Batch | Running | ClearFlag
    | Exited

  datatype State = State(
    pending: seq<Functor>, hasPending: bool, calling: bool, eventfd: nat, dispatching: bool,
    loop: Loop, batch: seq<Functor>, own: Post, producers: seq<Post>,
    queued: seq<Functor>, ran: seq<Functor>)

  datatype Event =
    | PostFrom(p: nat, f: Functor)  // another thread pushes a functor
    | StopFrom(p: nat)              // another thread calls stop()
    | Producer(p: nat)              // that thread's next step
    | PostOwn(f: Functor)           // the reactor's thread pushes one, from a handler, timer or functor
    | StopOwn
    | Dispatch
    | LoopStep(report: bool)        // the reactor thread's next step; `report`: epoll_wait reports the eventfd if it may

  function Init(producers: nat): State {
    State([], false, false, 0, false, Before, [], NoPost, seq(producers, _ => NoPost), [], [])
  }

  /** The places where the reactor's thread runs callbacks. */
  predicate RunsCallbacks(loop: Loop) {
    loop.Before? || loop.Handlers? || loop.Timers? || loop.Running?
  }

  function Push(s: State, f: Functor): State {
    s.(pending := s.pending + [f], queued := s.queued + [f])
  }

  /** queueInReactor on the reactor's own thread, after the push. */
  function OwnStep(s: State): State {
    match s.own
    case NoPost => s
    case Pushed => s.(hasPending := true, own := Flagged)
    case Flagged => s.(eventfd := if s.calling then s.eventfd + 1 else s.eventfd, own := NoPost)
  }

  /** One step of dispatch(), outside callbacks. */
  function LoopOnly(s: State, report: bool): State {
    match s.loop
    case Before => s
    case Exited => s
    case Top => s.(loop := if s.dispatching then Poll else Exited)
    case Poll => s.(loop := Handlers(report && s.eventfd > 0))
    case Handlers(reported) =>
      if reported then s.(eventfd := 0, loop := ReadDone) else s.(loop := Timers)
    case ReadDone => s.(hasPending := true, loop := Handlers(false))
    case Timers => s.(loop := Check)
    case Check => s.(loop := if s.hasPending then SetCalling else Top)
    case SetCalling => s.(calling := true, loop := Swap)
    case Swap => s.(batch := s.pending, pending := [], loop := Batch)
    case Batch =>
      if s.batch == [] then s.(calling := false, loop := ClearFlag)
      else s.(ran := s.ran + [s.batch[0]], batch := s.batch[1..], loop := Running)
    case Running => s.(loop := Batch)
    case ClearFlag => s.(hasPending := false, loop := Top)
  }

  function Apply(s: State, e: Event): State {
    match e
    case PostFrom(p, f) =>
      if p < |s.producers| && s.producers[p].NoPost? then Push(s, f).(producers := s.producers[p := Pushed]) else s
    case StopFrom(p) =>
      if p < |s.producers| && s.producers[p].NoPost? then s.(dispatching := false, producers := s.producers[p := Flagged])
      else s
    case Producer(p) =>
      if p >= |s.producers| then s
      else
        (match s.producers[p]
         case NoPost => s
         case Pushed => s.(hasPending := true, producers := s.producers[p := Flagged])
         case Flagged => s.(eventfd := s.eventfd + 1, producers := s.producers[p := NoPost]))
    case PostOwn(f) => if s.own.NoPost? && RunsCallbacks(s.loop) then Push(s, f).(own := Pushed) else s
    case StopOwn => if s.own.NoPost? && RunsCallbacks(s.loop) then s.(dispatching := false) else s
    case Dispatch => if s.loop.Before? && s.own.NoPost? then s.(dispatching := true, loop := Top) else s
    case LoopStep(report) => if s.own.NoPost? then LoopOnly(s, report) else OwnStep(s)
  }

  function Run(s: State, events: seq<Event>): State {
    if events == [] then s else Apply(Run(s, events[..|events| - 1]), events[|events| - 1])
  }

  /** The state after the first `m` events. */
  function StateAt(producers: nat, events: seq<Event>, m: nat): State
    requires m <= |events|
  {
    Run(Init(producers), events[..m])
  }

  lemma StateAtNext(producers: nat, events: seq<Event>, m: nat)
    requires m < |events|
    ensures StateAt(producers, events, m + 1) == Apply(StateAt(producers, events, m), events[m])
  {
    assert events[..m + 1][..m] == events[..m];
  }

  // ---- Each functor once, in order ----------------------------------------------------------

  predicate Ordered(s: State) {
    s.queued == s.ran + s.batch + s.pending && Placed(s)
  }

  predicate Placed(s: State) {
    && (s.batch != [] ==> s.loop.Batch? || s.loop.Running?)
    && (s.own != NoPost ==> RunsCallbacks(s.loop))
    && (s.calling <==> s.loop.Swap? || s.loop.Batch? || s.loop.Running?)
  }

  lemma PlacedStep(s: State, e: Event)
    requires Placed(s)
    ensures Placed(Apply(s, e))
  {
  }

  /** What has run or is about to is changed only by a swap. */
  lemma TakenStep(s: State, e: Event)
    requires Placed(s)
    ensures var s' := Apply(s, e);
            s'.ran + s'.batch == if e.LoopStep? && s.loop.Swap? then s.ran + s.pending else s.ran + s.batch
  {
    if s.loop.Batch? && s.batch != [] { assert s.batch == [s.batch[0]] + s.batch[1..]; }
    if s.loop.Swap? { assert s.ran + [] == s.ran; }
  }

  lemma PendingStep(s: State, e: Event)
    requires Ordered(s)
    ensures var s' := Apply(s, e); s'.queued == (s'.ran + s'.batch) + s'.pending
  {
    TakenStep(s, e);
    var s' := Apply(s, e);
    if (e.PostFrom? || e.PostOwn?) && s'.queued != s.queued {
      assert (s.ran + s.batch) + (s.pending + [e.f]) == ((s.ran + s.batch) + s.pending) + [e.f];
    }
    if e.LoopStep? && s.loop.Swap? { assert (s.ran + s.pending) + [] == s.ran + s.pending; }
  }

  /** In every run the functors queued, in lock order, are those that have run, then those left in the batch, then
      those pending: none is lost, repeated or overtaken. */
  lemma {:induction false} EachOnceInOrder(producers: nat, events: seq<Event>, m: nat)
    requires m <= |events|
    ensures Ordered(StateAt(producers, events, m))
    decreases m
  {
    if m > 0 {
      EachOnceInOrder(producers, events, m - 1);
      StateAtNext(producers, events, m - 1);
      PlacedStep(StateAt(producers, events, m - 1), events[m - 1]);
      PendingStep(StateAt(producers, events, m - 1), events[m - 1]);
    }
  }

  // ---- What is queued ---------------------------------------------------------------------------

  /** A post is accepted from another thread that has no call running, and from the reactor's own in a callback. */
  predicate Accepts(s: State, e: Event) {
    match e
    case PostFrom(p, _) => p < |s.producers| && s.producers[p].NoPost?
    case PostOwn(_) => s.own.NoPost? && RunsCallbacks(s.loop)
    case _ => false
  }

  /** The functors of the accepted posts among the first `m` events, in order. */
  function Posted(producers: nat, events: seq<Event>, m: nat): seq<Functor>
    requires m <= |events|
  {
    if m == 0 then []
    else
      var e := events[m - 1];
      var before := Posted(producers, events, m - 1);
      if !Accepts(StateAt(producers, events, m - 1), e) then before
      else match e
        case PostFrom(_, f) => before + [f]
        case PostOwn(f) => before + [f]
        case _ => before
  }

  lemma PostStep(s: State, e: Event)
    ensures var s' := Apply(s, e);
            if Accepts(s, e) then s'.queued == s.queued + [e.f] && s'.pending == s.pending + [e.f]
            else s'.queued == s.queued
  {
  }

  /** In every run the functors queued are those that were posted, each once, in the order of the posts. */
  lemma {:induction false} PostedIsQueued(producers: nat, events: seq<Event>, m: nat)
    requires m <= |events|
    ensures StateAt(producers, events, m).queued == Posted(producers, events, m)
    decreases m
  {
    if m > 0 {
      PostedIsQueued(producers, events, m - 1);
      StateAtNext(producers, events, m - 1);
      PostStep(StateAt(producers, events, m - 1), events[m - 1]);
    }
  }

  /** Between a swap and the end of that iteration no other swap is made. */
  predicate InIteration(loop: Loop) {
    loop.Batch? || loop.Running? || loop.ClearFlag?
  }

  lemma TakenAt(producers: nat, events: seq<Event>, m: nat)
    requires m < |events|
    ensures var s, s' := StateAt(producers, events, m), StateAt(producers, events, m + 1);
            s'.ran + s'.batch == if events[m].LoopStep? && s.loop.Swap? then s.ran + s.pending else s.ran + s.batch
  {
    StateAtNext(producers, events, m);
    EachOnceInOrder(producers, events, m);
    TakenStep(StateAt(producers, events, m), events[m]);
  }

  lemma {:induction false} BatchIsFixed(producers: nat, events: seq<Event>, i: nat, m: nat)
    requires i < m <= |events| && StateAt(producers, events, i).loop.Swap?
    requires events[i].LoopStep?
    requires forall q | i < q < m :: InIteration(StateAt(producers, events, q).loop)
    ensures var s, s' := StateAt(producers, events, i), StateAt(producers, events, m);
            s'.ran + s'.batch == s.ran + s.pending
    decreases m
  {
    if m - 1 > i { BatchIsFixed(producers, events, i, m - 1); }
    TakenAt(producers, events, m - 1);
  }

  /** What was pending at a swap is exactly what runs before the loop comes round: nothing queued later joins it. */
  lemma SwapRunsInItsIteration(producers: nat, events: seq<Event>, i: nat, m: nat)
    requires i < m <= |events| && StateAt(producers, events, i).loop.Swap? && events[i].LoopStep?
    requires forall q | i < q < m :: InIteration(StateAt(producers, events, q).loop)
    requires StateAt(producers, events, m).loop.Top?
    ensures StateAt(producers, events, m).ran == StateAt(producers, events, i).ran + StateAt(producers, events, i).pending
  {
    BatchIsFixed(producers, events, i, m);
    EachOnceInOrder(producers, events, m);
    assert StateAt(producers, events, m).ran + [] == StateAt(producers, events, m).ran;
  }

  // ---- No functor is stranded ---------------------------------------------------------------

  /** Some other thread has pushed, or asked to stop, and has yet to write the eventfd. */
  predicate MidPost(s: State) {
    exists p | 0 <= p < |s.producers| :: s.producers[p] != NoPost
  }

  /** The reactor's thread is bound to reach a swap, or to write the eventfd, before it polls again. */
  predicate BoundToSwap(s: State) {
    match s.loop
    case Handlers(_) => s.hasPending || s.own.Pushed?
    case ReadDone => true
    case Timers => s.hasPending || s.own.Pushed?
    case Check => s.hasPending
    case SetCalling => true
    case Swap => true
    case Running => s.own != NoPost
    case _ => false
  }

  /** Nothing is pending, or something will bring the loop to it. */
  predicate Awake(s: State) {
    s.pending == [] || s.eventfd > 0 || MidPost(s) || BoundToSwap(s)
  }

  /** The weaker guarantee once the reactor's thread has pushed ahead of `dispatch`: those pushes only set the flag. */
  predicate AwakeOrFlagged(s: State) {
    || Awake(s)
    || s.loop.Exited?
    || ((s.loop.Before? || s.loop.Top? || s.loop.Poll?) && (s.hasPending || s.own.Pushed?))
    || ((s.loop.Handlers? || s.loop.Timers? || s.loop.Check?) && s.hasPending)
  }

  lemma MidPostStays(s: State, e: Event)
    requires MidPost(s)
    ensures MidPost(Apply(s, e)) || Apply(s, e).eventfd > 0
  {
    var p :| 0 <= p < |s.producers| && s.producers[p] != NoPost;
    assert !(e == Producer(p) && s.producers[p].Flagged?) ==> Apply(s, e).producers[p] != NoPost;
  }

  lemma AwakeStep(s: State, e: Event)
    requires Ordered(s) && Awake(s) && !(e.PostOwn? && s.loop.Before?)
    ensures Awake(Apply(s, e))
  {
    var s' := Apply(s, e);
    if MidPost(s) { MidPostStays(s, e); }
    if e.PostFrom? && s'.pending != s.pending { assert s'.producers[e.p] == Pushed; }
    if e.Producer? && s' != s && s.producers[e.p].Pushed? { assert s'.producers[e.p] == Flagged; }
    if e.StopFrom? && s' != s { assert s'.producers[e.p] == Flagged; }
  }

  lemma AwakeOrFlaggedStep(s: State, e: Event)
    requires Ordered(s) && AwakeOrFlagged(s)
    ensures AwakeOrFlagged(Apply(s, e))
  {
    if Awake(s) && !(e.PostOwn? && s.loop.Before?) { AwakeStep(s, e); }
  }

  /** The reactor's own thread queues nothing ahead of `dispatch`. */
  ghost predicate QueuesInsideDispatch(producers: nat, events: seq<Event>) {
    forall m | 0 <= m < |events| && events[m].PostOwn? :: !StateAt(producers, events, m).loop.Before?
  }

  lemma {:induction false} StaysAwake(producers: nat, events: seq<Event>, m: nat)
    requires m <= |events| && QueuesInsideDispatch(producers, events)
    ensures Awake(StateAt(producers, events, m))
    decreases m
  {
    if m > 0 {
      var s, e := StateAt(producers, events, m - 1), events[m - 1];
      StaysAwake(producers, events, m - 1);
      EachOnceInOrder(producers, events, m - 1);
      StateAtNext(producers, events, m - 1);
      assert e.PostOwn? ==> !s.loop.Before?;
      AwakeStep(s, e);
    }
  }

  /** Whenever the loop is about to wait with functors pending, the eventfd is readable or a producer has yet to write
      it, although the reset after a batch may have overwritten a flag set meanwhile. */
  lemma NoStrandedFunctor(producers: nat, events: seq<Event>)
    requires QueuesInsideDispatch(producers, events)
    ensures var s := StateAt(producers, events, |events|);
            s.loop.Poll? && s.pending != [] ==> s.eventfd > 0 || MidPost(s)
  {
    StaysAwake(producers, events, |events|);
  }

  lemma AwakeOrFlaggedAt(producers: nat, events: seq<Event>, m: nat)
    requires m < |events| && AwakeOrFlagged(StateAt(producers, events, m))
    ensures AwakeOrFlagged(StateAt(producers, events, m + 1))
  {
    EachOnceInOrder(producers, events, m);
    StateAtNext(producers, events, m);
    AwakeOrFlaggedStep(StateAt(producers, events, m), events[m]);
  }

  lemma {:induction false} StaysAwakeOrFlagged(producers: nat, events: seq<Event>, m: nat)
    requires m <= |events|
    ensures AwakeOrFlagged(StateAt(producers, events, m))
    decreases m
  {
    if m > 0 {
      StaysAwakeOrFlagged(producers, events, m - 1);
      AwakeOrFlaggedAt(producers, events, m - 1);
    }
  }

  /** With no restriction on who pushes when, the flag may be all that remembers the functors. */
  lemma NoForgottenFunctor(producers: nat, events: seq<Event>)
    ensures var s := StateAt(producers, events, |events|);
            s.loop.Poll? && s.pending != [] ==> s.eventfd > 0 || MidPost(s) || s.hasPending
  {
    StaysAwakeOrFlagged(producers, events, |events|);
    EachOnceInOrder(producers, events, |events|);
  }

  /** The reactor's thread queues `fs` and then enters `dispatch`, with no other thread active. */
  function EarlyPosts(fs: seq<Functor>): seq<Event> {
    if fs == [] then [] else EarlyPosts(fs[..|fs| - 1]) + [PostOwn(fs[|fs| - 1]), LoopStep(false), LoopStep(false)]
  }

  lemma RunLast(s: State, events: seq<Event>, e: Event)
    ensures Run(s, events + [e]) == Apply(Run(s, events), e)
  {
    assert (events + [e])[..|events + [e]| - 1] == events;
  }

  function Early(producers: nat, fs: seq<Functor>): State {
    Init(producers).(pending := fs, queued := fs, hasPending := fs != [])
  }

  lemma EarlyPost(producers: nat, fs: seq<Functor>, f: Functor)
    ensures Apply(Apply(Apply(Early(producers, fs), PostOwn(f)), LoopStep(false)), LoopStep(false)) == Early(producers, fs + [f])
  {
  }

  lemma {:induction false} EarlyState(producers: nat, fs: seq<Functor>)
    ensures Run(Init(producers), EarlyPosts(fs)) == Early(producers, fs)
  {
    if fs != [] {
      var n := |fs| - 1;
      EarlyState(producers, fs[..n]);
      RunThree(Init(producers), EarlyPosts(fs[..n]), PostOwn(fs[n]), LoopStep(false), LoopStep(false));
      EarlyPost(producers, fs[..n], fs[n]);
      assert fs[..n] + [fs[n]] == fs;
    }
  }

  lemma RunThree(s: State, events: seq<Event>, a: Event, b: Event, c: Event)
    ensures Run(s, events + [a, b, c]) == Apply(Apply(Apply(Run(s, events), a), b), c)
  {
    OneByOne(events, a, b, c);
    RunLast(s, events, a);
    RunLast(s, events + [a], b);
    RunLast(s, events + [a] + [b], c);
  }

  lemma OneByOne(events: seq<Event>, a: Event, b: Event, c: Event)
    ensures events + [a, b, c] == events + [a] + [b] + [c]
  {
  }

  /** Queueing ahead of `dispatch` strands exactly when anything was queued: the loop then waits with functors
      pending, the eventfd empty and nobody about to write it. */
  lemma EarlyPostsStrand(producers: nat, fs: seq<Functor>)
    ensures var s := Run(Init(producers), EarlyPosts(fs) + [Dispatch] + [LoopStep(false)]);
            && s.loop.Poll? && s.pending == fs && !MidPost(s) && s.eventfd == 0
            && ((s.pending != [] ==> s.eventfd > 0 || MidPost(s)) <==> fs == [])
  {
    EarlyState(producers, fs);
    RunLast(Init(producers), EarlyPosts(fs), Dispatch);
    RunLast(Init(producers), EarlyPosts(fs) + [Dispatch], LoopStep(false));
  }

  // ---- A reported wakeup runs what was pending ----------------------------------------------

  /** From the poll that reports the eventfd to the loop's return, the first `n` functors are on their way. */
  predicate OnTheWay(s: State, n: nat) {
    match s.loop
    case Handlers(reported) => reported || s.hasPending
    case ReadDone => true
    case Timers => s.hasPending
    case Check => s.hasPending
    case SetCalling => true
    case Swap => true
    case Batch => |s.ran| + |s.batch| >= n
    case Running => |s.ran| + |s.batch| >= n
    case ClearFlag => |s.ran| >= n
    case Top => |s.ran| >= n
    case _ => false
  }

  lemma OnTheWayStep(s: State, e: Event, n: nat)
    requires Ordered(s) && OnTheWay(s, n) && n <= |s.queued| && !s.loop.Top?
    ensures OnTheWay(Apply(s, e), n) && n <= |Apply(s, e).queued|
  {
  }

  lemma QueuedGrows(s: State, e: Event)
    ensures s.queued <= Apply(s, e).queued
  {
  }

  lemma WakeupBegins(s: State, e: Event)
    requires s.loop.Poll? && s.eventfd > 0 && Ordered(s) && e == LoopStep(true)
    ensures OnTheWay(Apply(s, e), |s.queued|) && s.queued <= Apply(s, e).queued
  {
  }

  /** Everything queued in the state `first` is on its way. */
  predicate Carries(first: State, s: State) {
    OnTheWay(s, |first.queued|) && first.queued <= s.queued
  }

  /** All the states of a run. */
  function States(producers: nat, events: seq<Event>): seq<State> {
    seq(|events| + 1, q requires 0 <= q <= |events| => StateAt(producers, events, q))
  }

  /** From state `q` to the next, until the loop is back at its top, what is on its way stays so. */
  predicate CarriesAt(states: seq<State>, first: State, q: nat) {
    q + 1 < |states| && (Carries(first, states[q]) && !states[q].loop.Top? ==> Carries(first, states[q + 1]))
  }

  lemma AllCarry(producers: nat, events: seq<Event>, first: State)
    ensures forall q: nat | q < |events| :: CarriesAt(States(producers, events), first, q)
  {
    forall q: nat | q < |events| ensures CarriesAt(States(producers, events), first, q) {
      StateAtNext(producers, events, q);
      EachOnceInOrder(producers, events, q);
      var s := StateAt(producers, events, q);
      if Carries(first, s) && !s.loop.Top? { WakeupGoesOn(first, s, events[q]); }
    }
  }

  lemma {:induction false} CarriesOn(states: seq<State>, first: State, i: nat, m: nat)
    requires i <= m < |states| && Carries(first, states[i])
    requires forall q: nat | i <= q < m :: CarriesAt(states, first, q) && !states[q].loop.Top?
    ensures Carries(first, states[m])
    decreases m
  {
    if i < m {
      CarriesOn(states, first, i, m - 1);
      assert CarriesAt(states, first, m - 1);
    }
  }

  lemma WakeupGoesOn(first: State, s: State, e: Event)
    requires Ordered(s) && OnTheWay(s, |first.queued|) && first.queued <= s.queued && !s.loop.Top?
    ensures OnTheWay(Apply(s, e), |first.queued|) && first.queued <= Apply(s, e).queued
  {
    OnTheWayStep(s, e, |first.queued|);
    QueuedGrows(s, e);
  }

  lemma AllRan(first: State, s: State)
    requires Carries(first, s) && Ordered(s) && s.loop.Top?
    ensures first.queued <= s.ran
  {
  }

  /** If a poll reports the eventfd, everything queued by then has run, in order, when the loop next comes round. */
  lemma WakeupRunsAll(producers: nat, events: seq<Event>, i: nat, m: nat)
    requires i < m <= |events| && StateAt(producers, events, i).loop.Poll? && StateAt(producers, events, i).eventfd > 0
    requires events[i] == LoopStep(true)
    requires forall q | i < q < m :: !StateAt(producers, events, q).loop.Top?
    requires StateAt(producers, events, m).loop.Top?
    ensures StateAt(producers, events, i).queued <= StateAt(producers, events, m).ran
  {
    var states := States(producers, events);
    EachOnceInOrder(producers, events, i);
    StateAtNext(producers, events, i);
    WakeupBegins(states[i], events[i]);
    AllCarry(producers, events, states[i]);
    CarriesOn(states, states[i], i + 1, m);
    EachOnceInOrder(producers, events, m);
    AllRan(states[i], states[m]);
  }

  /** The flag is enough too: set while the loop has yet to look at it, it makes this iteration run all that was queued. */
  predicate FlagInTime(s: State) {
    s.hasPending && (s.loop.Handlers? || s.loop.Timers? || s.loop.Check?)
  }

  lemma FlagCarries(s: State)
    requires FlagInTime(s)
    ensures Carries(s, s)
  {
  }

  /** A thread that sets the flag in time need not wait for the eventfd to be reported: what it pushed, and all that was
      queued before, has run when the loop comes round. */
  lemma FlagRunsAll(producers: nat, events: seq<Event>, i: nat, m: nat, p: nat)
    requires i < m <= |events| && events[i] == Producer(p)
    requires var s := StateAt(producers, events, i);
             && p < |s.producers| && s.producers[p].Pushed?
             && (s.loop.Handlers? || s.loop.Timers? || s.loop.Check?)
    requires forall q | i < q < m :: !StateAt(producers, events, q).loop.Top?
    requires StateAt(producers, events, m).loop.Top?
    ensures Posted(producers, events, i) <= StateAt(producers, events, m).ran
  {
    StateAtNext(producers, events, i);
    PostedIsQueued(producers, events, i);
    EachOnceInOrder(producers, events, m);
    var states := States(producers, events);
    AllCarry(producers, events, states[i + 1]);
    FlagCarries(states[i + 1]);
    CarriesOn(states, states[i + 1], i + 1, m);
    AllRan(states[i + 1], states[m]);
  }

  lemma {:induction false} PostedStays(producers: nat, events: seq<Event>, i: nat, m: nat)
    requires i <= m <= |events|
    ensures Posted(producers, events, i) <= Posted(producers, events, m)
    decreases m
  {
    if i < m { PostedStays(producers, events, i, m - 1); }
  }

  /** What a post handed over has run when the loop comes round after a reported wakeup, behind all that was posted before. */
  lemma PostedRuns(producers: nat, events: seq<Event>, q: nat, i: nat, m: nat)
    requires q < i < m <= |events| && Accepts(StateAt(producers, events, q), events[q])
    requires StateAt(producers, events, i).loop.Poll? && StateAt(producers, events, i).eventfd > 0
    requires events[i] == LoopStep(true)
    requires forall q | i < q < m :: !StateAt(producers, events, q).loop.Top?
    requires StateAt(producers, events, m).loop.Top?
    ensures var f := match events[q] case PostFrom(_, f) => f case PostOwn(f) => f case _ => 0;
            Posted(producers, events, q) + [f] <= StateAt(producers, events, m).ran
  {
    WakeupRunsAll(producers, events, i, m);
    PostedIsQueued(producers, events, i);
    PostedStays(producers, events, q + 1, i);
  }

  lemma SwapTakesAll(s: State)
    requires Ordered(s) && s.loop.Swap?
    ensures s.ran + s.pending == s.queued
  {
    assert s.ran + [] + s.pending == s.ran + s.pending;
  }

  /** What was pending at a swap, posts and all, has run when that iteration ends. */
  lemma SwapRunsPosted(producers: nat, events: seq<Event>, i: nat, m: nat)
    requires i < m <= |events| && StateAt(producers, events, i).loop.Swap? && events[i].LoopStep?
    requires forall q | i < q < m :: InIteration(StateAt(producers, events, q).loop)
    requires StateAt(producers, events, m).loop.Top?
    ensures StateAt(producers, events, m).ran == Posted(producers, events, i)
  {
    SwapRunsInItsIteration(producers, events, i, m);
    EachOnceInOrder(producers, events, i);
    PostedIsQueued(producers, events, i);
    SwapTakesAll(StateAt(producers, events, i));
  }

  // ---- The loop comes round ----------------------------------------------------------------------

  /** The loop is inside `dispatch` and not between two iterations. */
  predicate Busy(loop: Loop) {
    !loop.Before? && !loop.Exited? && !loop.Top?
  }

  /** A bound on the steps that are left of the iteration. */
  function Left(s: State): nat {
    (match s.own case NoPost => 0 case Pushed => 2 case Flagged => 1) +
    match s.loop
    case Poll => 2 * |s.pending| + 12
    case Handlers(reported) => 2 * |s.pending| + if reported then 11 else 9
    case ReadDone => 2 * |s.pending| + 10
    case Timers => 2 * |s.pending| + 8
    case Check => 2 * |s.pending| + 7
    case SetCalling => 2 * |s.pending| + 6
    case Swap => 2 * |s.pending| + 5
    case Batch => 2 * |s.batch| + 3
    case Running => 2 * |s.batch| + 4
    case ClearFlag => 1
    case _ => 0
  }

  /** The reactor's thread takes `k` steps alone; epoll_wait reports what it can. */
  function Alone(s: State, k: nat): State
    decreases k
  {
    if k == 0 then s else Alone(Apply(s, LoopStep(true)), k - 1)
  }

  lemma {:induction false} AloneThen(s: State, j: nat, k: nat)
    ensures Alone(Alone(s, j), k) == Alone(s, j + k)
    decreases j
  {
    if j > 0 {
      var s' := Apply(s, LoopStep(true));
      AloneThen(s', j - 1, k);
      assert Alone(s, j) == Alone(s', j - 1) && Alone(s, j + k) == Alone(s', j - 1 + k);
    }
  }

  /** The first `n` functors have run or will have when the loop comes round, or the eventfd tells the loop to look. */
  predicate Coming(s: State, n: nat) {
    && Ordered(s) && n <= |s.queued| && (s.eventfd > 0 || OnTheWay(s, n))
    && s.dispatching && !s.loop.Before? && !s.loop.Exited?
  }

  lemma LeftShrinks(s: State)
    requires Placed(s) && Busy(s.loop)
    ensures Left(Apply(s, LoopStep(true))) < Left(s)
  {
  }

  lemma ComingStep(s: State, n: nat)
    requires Coming(s, n) && !(s.loop.Top? && s.eventfd == 0)
    ensures var s' := Apply(s, LoopStep(true));
            && Coming(s', n) && s.queued <= s'.queued
            && (s.loop.Top? && s.own.NoPost? ==> s'.loop.Poll? && s'.eventfd > 0)
            && (s.loop.Poll? && s.own.NoPost? && s.eventfd > 0 ==> OnTheWay(s', n))
            && (OnTheWay(s, n) && !s.loop.Top? ==> OnTheWay(s', n))
  {
    PlacedStep(s, LoopStep(true));
    PendingStep(s, LoopStep(true));
    if !s.loop.Top? && OnTheWay(s, n) { OnTheWayStep(s, LoopStep(true), n); }
  }

  /** On its own the loop ends its iteration within the bound. */
  lemma {:induction false} ComesRound(s: State, n: nat) returns (k: nat)
    requires Coming(s, n)
    ensures k <= Left(s) && Coming(Alone(s, k), n) && Alone(s, k).loop.Top? && s.queued <= Alone(s, k).queued
    ensures OnTheWay(s, n) ==> OnTheWay(Alone(s, k), n)
    decreases Left(s)
  {
    k := 0;
    if Busy(s.loop) {
      ComingStep(s, n);
      LeftShrinks(s);
      k := ComesRound(Apply(s, LoopStep(true)), n);
      k := k + 1;
    }
  }

  lemma TopWakes(s: State, n: nat)
    requires Coming(s, n) && s.loop.Top? && s.eventfd > 0
    ensures Coming(Alone(s, 2), n) && OnTheWay(Alone(s, 2), n) && s.queued <= Alone(s, 2).queued
  {
    ComingStep(s, n);
    var poll := Apply(s, LoopStep(true));
    ComingStep(poll, n);
    AloneTwo(s);
  }

  lemma AloneTwo(s: State)
    ensures Alone(s, 2) == Apply(Apply(s, LoopStep(true)), LoopStep(true))
  {
    assert Alone(s, 2) == Alone(Apply(s, LoopStep(true)), 1);
  }

  /** What was queued when the eventfd was written runs, at the latest, in the next iteration but one. */
  lemma ComesToRun(s: State, n: nat) returns (k: nat)
    requires Coming(s, n)
    ensures |Alone(s, k).ran| >= n && Ordered(Alone(s, k)) && s.queued <= Alone(s, k).queued
  {
    k := ComesRound(s, n);
    var top := Alone(s, k);
    if |top.ran| < n {
      TopWakes(top, n);
      var j := ComesRound(Alone(top, 2), n);
      AloneThen(top, 2, j);
      AloneThen(s, k, 2 + j);
      k := k + (2 + j);
    }
  }

  /** Another thread's call of `queueInReactor`, uninterrupted. */
  function Call(p: nat, f: Functor): seq<Event> {
    [PostFrom(p, f), Producer(p), Producer(p)]
  }

  lemma {:induction false} RunAlone(s: State, events: seq<Event>, k: nat)
    ensures Run(s, events + seq(k, _ => LoopStep(true))) == Alone(Run(s, events), k)
    decreases k
  {
    var es := events + seq(k, _ => LoopStep(true));
    if k > 0 {
      RunAlone(s, events + [LoopStep(true)], k - 1);
      assert es == events + [LoopStep(true)] + seq(k - 1, _ => LoopStep(true));
      RunLast(s, events, LoopStep(true));
    } else {
      assert es == events;
    }
  }

  lemma CallWakes(s: State, p: nat, f: Functor)
    requires Ordered(s) && p < |s.producers| && s.producers[p].NoPost? && s.dispatching && !s.loop.Before? && !s.loop.Exited?
    ensures var s' := Apply(Apply(Apply(s, PostFrom(p, f)), Producer(p)), Producer(p));
            s'.queued == s.queued + [f] && Coming(s', |s.queued| + 1) && s'.producers == s.producers
  {
    var s1 := Apply(s, PostFrom(p, f));
    PlacedStep(s, PostFrom(p, f));
    PendingStep(s, PostFrom(p, f));
    var s2 := Apply(s1, Producer(p));
    assert s2.producers[p].Flagged?;
    var s3 := Apply(s2, Producer(p));
    assert s3.producers == s.producers;
  }

  /** Whatever has happened: once an idle thread has called `queueInReactor`, a loop that is dispatching comes, by its own
      steps, to have run that functor, behind all those posted before. */
  lemma EveryCallRuns(producers: nat, events: seq<Event>, p: nat, f: Functor) returns (k: nat)
    requires var s := StateAt(producers, events, |events|);
             p < |s.producers| && s.producers[p].NoPost? && s.dispatching && !s.loop.Before? && !s.loop.Exited?
    ensures Posted(producers, events, |events|) + [f]
         <= Run(Init(producers), events + Call(p, f) + seq(k, _ => LoopStep(true))).ran
  {
    assert events[..|events|] == events;
    var s := Run(Init(producers), events);
    EachOnceInOrder(producers, events, |events|);
    PostedIsQueued(producers, events, |events|);
    RunThree(Init(producers), events, PostFrom(p, f), Producer(p), Producer(p));
    CallWakes(s, p, f);
    var s' := Run(Init(producers), events + Call(p, f));
    k := ComesToRun(s', |s.queued| + 1);
    RunAlone(Init(producers), events + Call(p, f), k);
  }

  // ---- The loop comes to rest ---------------------------------------------------------------------

  /** In an iteration that began with a poll, what is left to do about the eventfd and the flag. */
  predicate Tidying(s: State) {
    && Placed(s) && s.own.NoPost? && s.dispatching
    && match s.loop
       case Before => false
       case Exited => false
       case Poll => true
       case Handlers(reported) => reported || s.eventfd == 0
       case ReadDone => s.eventfd == 0
       case Top => s.eventfd == 0 && !s.hasPending
       case _ => s.eventfd == 0
  }

  lemma TidyStep(s: State)
    requires Tidying(s) && Busy(s.loop)
    ensures Tidying(Apply(s, LoopStep(true)))
  {
  }

  lemma {:induction false} Tidies(s: State) returns (k: nat)
    requires Tidying(s)
    ensures k <= Left(s) && Tidying(Alone(s, k)) && Alone(s, k).loop.Top?
    decreases Left(s)
  {
    k := 0;
    if Busy(s.loop) {
      TidyStep(s);
      LeftShrinks(s);
      k := Tidies(Apply(s, LoopStep(true)));
      k := k + 1;
    }
  }

  /** Left alone at its top, a dispatching loop comes back with nothing that would wake it or make it look: the eventfd read
      and the flag down. */
  lemma ComesToRest(producers: nat, events: seq<Event>) returns (k: nat)
    requires StateAt(producers, events, |events|).loop.Top? && StateAt(producers, events, |events|).dispatching
    ensures var s := Run(Init(producers), events + seq(k, _ => LoopStep(true)));
            k > 0 && s.loop.Top? && s.eventfd == 0 && !s.hasPending
  {
    assert events[..|events|] == events;
    var s := Run(Init(producers), events);
    EachOnceInOrder(producers, events, |events|);
    var poll := Apply(s, LoopStep(true));
    k := Tidies(poll);
    assert Alone(s, k + 1) == Alone(poll, k);
    k := k + 1;
    RunAlone(Init(producers), events, k);
  }

  /** Once it has been stopped, by whatever thread, the loop ends within the iteration. */
  lemma {:induction false} StopEnds(s: State) returns (k: nat)
    requires Placed(s) && !s.dispatching && !s.loop.Before? && !s.loop.Exited?
    ensures k <= Left(s) + 1 && Alone(s, k).loop.Exited?
    decreases Left(s)
  {
    PlacedStep(s, LoopStep(true));
    k := 0;
    if Busy(s.loop) {
      LeftShrinks(s);
      StopStays(s);
      k := StopEnds(Apply(s, LoopStep(true)));
    } else {
      assert Alone(Apply(s, LoopStep(true)), 0).loop.Exited?;
    }
    k := k + 1;
  }

  lemma StopStays(s: State)
    requires Placed(s) && !s.dispatching && Busy(s.loop)
    ensures var s' := Apply(s, LoopStep(true)); !s'.dispatching && !s'.loop.Before? && !s'.loop.Exited?
  {
  }

  /** A call of `stop`, from any idle thread or from a callback, makes a running loop end. */
  lemma StopWorks(producers: nat, events: seq<Event>, e: Event) returns (k: nat)
    requires var s := StateAt(producers, events, |events|);
             && !s.loop.Before? && !s.loop.Exited?
             && (e == StopOwn || e.StopFrom?)
             && (e == StopOwn ==> s.own.NoPost? && RunsCallbacks(s.loop))
             && (e.StopFrom? ==> e.p < |s.producers| && s.producers[e.p].NoPost?)
    ensures Run(Init(producers), events + [e] + seq(k, _ => LoopStep(true))).loop.Exited?
  {
    assert events[..|events|] == events;
    var s := Run(Init(producers), events);
    EachOnceInOrder(producers, events, |events|);
    PlacedStep(s, e);
    k := StopEnds(Apply(s, e));
    RunLast(Init(producers), events, e);
    RunAlone(Init(producers), events + [e], k);
  }

  predicate InDispatch(s: State) {
    s.dispatching && !s.loop.Before? && !s.loop.Exited?
  }

  /** All that was queued has run, or is coming. */
  predicate Settling(s: State, n: nat) {
    Ordered(s) && (|s.ran| >= n || Coming(s, n))
  }

  lemma OwnCallGoesOn(s: State)
    requires Ordered(s) && InDispatch(s) && s.own != NoPost
    ensures var s' := Apply(s, LoopStep(true));
            && Ordered(s') && InDispatch(s') && s'.loop == s.loop && s'.queued == s.queued
            && (s.own.Pushed? ==> s'.hasPending && s'.own.Flagged?)
            && (s.own.Flagged? && s.loop.Running? ==> s'.eventfd > 0)
  {
    PlacedStep(s, LoopStep(true));
    PendingStep(s, LoopStep(true));
  }

  lemma AwakeSettles(s: State) returns (j: nat)
    requires Ordered(s) && Awake(s) && !MidPost(s) && InDispatch(s)
    ensures Settling(Alone(s, j), |s.queued|) && s.queued == Alone(s, j).queued
  {
    j := 0;
    if s.own != NoPost && s.eventfd == 0 && s.pending != [] {
      OwnCallGoesOn(s);
      var s' := Apply(s, LoopStep(true));
      j := 1;
      if s.own.Pushed? && s.loop.Running? {
        OwnCallGoesOn(s');
        AloneTwo(s);
        j := 2;
      }
    }
  }

  lemma AwakeRuns(s: State) returns (k: nat)
    requires Ordered(s) && Awake(s) && !MidPost(s) && InDispatch(s)
    ensures s.queued <= Alone(s, k).ran
  {
    k := AwakeSettles(s);
    var t := Alone(s, k);
    if |t.ran| < |s.queued| {
      var i := ComesToRun(t, |s.queued|);
      AloneThen(s, k, i);
      k := k + i;
    }
  }

  /** Nothing is stranded: whenever no other thread is inside a call, a dispatching loop comes, by its own steps, to have run
      all that was ever posted. */
  lemma AllComesToRun(producers: nat, events: seq<Event>) returns (k: nat)
    requires QueuesInsideDispatch(producers, events)
    requires !MidPost(StateAt(producers, events, |events|)) && InDispatch(StateAt(producers, events, |events|))
    ensures Posted(producers, events, |events|) <= Run(Init(producers), events + seq(k, _ => LoopStep(true))).ran
  {
    assert events[..|events|] == events;
    var s := Run(Init(producers), events);
    EachOnceInOrder(producers, events, |events|);
    PostedIsQueued(producers, events, |events|);
    StaysAwake(producers, events, |events|);
    k := AwakeRuns(s);
    RunAlone(Init(producers), events, k);
  }
}
