/** The work-stealing pool as interleaved workers over a shared queue and one deque each.

    Every queue operation is one step, as its mutex makes it; the pool is fully built when the run begins. `submitted`
    and `executed` are logs: no step reads them. */
module ThreadPool {
  import opened StealingQueue

  type Task = nat

  /** Where a worker stands in its routine; `Steal(i)` is about to inspect the `i`th queue of its scan. */
  datatype Worker =
    | Top | Private | Shared | Steal(i: nat) | Yield
    | Holding(task: Task) | Executing | Exited

  datatype State = State(
    running: bool, shared: seq<Task>, queues: seq<seq<Task>>, workers: seq<Worker>,
    submitted: seq<Task>, executed: seq<Task>)

  datatype Event =
    | RunOutside(task: Task)         // run() from a thread that is not a worker
    | RunInside(w: nat, task: Task)  // run() from the task worker `w` is executing
    | Stop
    | Step(w: nat)

  function Init(workers: nat): State {
    State(true, [], seq(workers, _ => []), seq(workers, _ => Top), [], [])
  }

  /** The queue that worker `idx` inspects `i`th when it steals among `n`. */
  function StealIndex(idx: nat, i: nat, n: nat): nat
    requires n > 0
  {
    (idx + i + 1) % n
  }

  function SetWorker(s: State, w: nat, to: Worker): State
    requires w < |s.workers|
  {
    s.(workers := s.workers[w := to])
  }

  /** Worker `w` takes what `queue` yields, leaving `rest`, or goes on to `otherwise`. */
  function Take(found: Option<Task>, otherwise: Worker): Worker {
    if found.Some? then Holding(found.value) else otherwise
  }

  predicate Shaped(s: State) {
    |s.queues| == |s.workers|
  }

  function WorkerStep(s: State, w: nat): State
    requires Shaped(s) && w < |s.workers|
  {
    var n := |s.queues|;
    match s.workers[w]
    case Top => SetWorker(s, w, if s.running then Private else Exited)
    case Private =>
      SetWorker(s.(queues := s.queues[w := WithoutLast(s.queues[w])]), w, Take(Last(s.queues[w]), Shared))
    case Shared =>
      SetWorker(s.(shared := WithoutFirst(s.shared)), w, Take(First(s.shared), Steal(0)))
    case Steal(i) =>
      if i >= n then SetWorker(s, w, Yield)
      else
        var q := StealIndex(w, i, n);
        SetWorker(s.(queues := s.queues[q := WithoutFirst(s.queues[q])]), w, Take(First(s.queues[q]), Steal(i + 1)))
    case Yield => SetWorker(s, w, Top)
    case Holding(task) => SetWorker(s.(executed := s.executed + [task]), w, Executing)
    case Executing => SetWorker(s, w, Top)
    case Exited => s
  }

  function Apply(s: State, e: Event): State {
    match e
    case RunOutside(task) => s.(shared := s.shared + [task], submitted := s.submitted + [task])
    case RunInside(w, task) =>
      if Shaped(s) && w < |s.workers| && s.workers[w].Executing? then
        s.(queues := s.queues[w := s.queues[w] + [task]], submitted := s.submitted + [task])
      else s
    case Stop => s.(running := false)
    case Step(w) => if Shaped(s) && w < |s.workers| then WorkerStep(s, w) else s
  }

  /** A run: the states it goes through and the events between them. */
  datatype Trace = Trace(states: seq<State>, events: seq<Event>)

  predicate StepAt(r: Trace, m: nat) {
    m < |r.events| && m + 1 < |r.states| && r.states[m + 1] == Apply(r.states[m], r.events[m])
  }

  ghost predicate IsRun(r: Trace) {
    && |r.states| == |r.events| + 1 && (exists workers: nat :: r.states[0] == Init(workers))
    && (forall m: nat {:trigger StepAt(r, m)} | m < |r.events| :: StepAt(r, m))
  }

  // ---- Conservation -------------------------------------------------------------------------

  /** The tasks in all the workers' deques. */
  ghost function InQueues(queues: seq<seq<Task>>): multiset<Task> {
    if queues == [] then multiset{} else multiset(queues[0]) + InQueues(queues[1..])
  }

  /** The tasks workers have taken and not yet begun. */
  ghost function Held(workers: seq<Worker>): multiset<Task> {
    if workers == [] then multiset{}
    else (if workers[0].Holding? then multiset{workers[0].task} else multiset{}) + Held(workers[1..])
  }

  ghost function HeldBy(w: Worker): multiset<Task> {
    if w.Holding? then multiset{w.task} else multiset{}
  }

  lemma {:induction false} QueuesUpdate(queues: seq<seq<Task>>, i: nat, q: seq<Task>, x: Task)
    requires i < |queues|
    ensures InQueues(queues[i := q])[x] + multiset(queues[i])[x] == InQueues(queues)[x] + multiset(q)[x]
  {
    if i == 0 {
      assert queues[0 := q][1..] == queues[1..];
    } else {
      QueuesUpdate(queues[1..], i - 1, q, x);
      assert queues[i := q][1..] == queues[1..][i - 1 := q];
    }
  }

  lemma {:induction false} HeldUpdate(workers: seq<Worker>, i: nat, w: Worker, x: Task)
    requires i < |workers|
    ensures Held(workers[i := w])[x] + HeldBy(workers[i])[x] == Held(workers)[x] + HeldBy(w)[x]
  {
    if i == 0 {
      assert workers[0 := w][1..] == workers[1..];
    } else {
      HeldUpdate(workers[1..], i - 1, w, x);
      assert workers[i := w][1..] == workers[1..][i - 1 := w];
    }
  }

  /** How often task `x` is found, in all the places a submitted task can be. */
  ghost function Found(s: State, x: Task): nat {
    multiset(s.executed)[x] + Held(s.workers)[x] + InQueues(s.queues)[x] + multiset(s.shared)[x]
  }

  ghost predicate Conserved(s: State) {
    forall x: Task :: Found(s, x) == multiset(s.submitted)[x]
  }

  lemma TakeLast(q: seq<Task>, otherwise: Worker, x: Task)
    requires !otherwise.Holding?
    ensures multiset(q)[x] == multiset(WithoutLast(q))[x] + HeldBy(Take(Last(q), otherwise))[x]
  {
    if q != [] { assert q == q[..|q| - 1] + [q[|q| - 1]]; }
  }

  lemma TakeFirst(q: seq<Task>, otherwise: Worker, x: Task)
    requires !otherwise.Holding?
    ensures multiset(q)[x] == multiset(WithoutFirst(q))[x] + HeldBy(Take(First(q), otherwise))[x]
  {
    if q != [] { assert q == [q[0]] + q[1..]; }
  }

  lemma AddLast(q: seq<Task>, task: Task, x: Task)
    ensures multiset(q + [task])[x] == multiset(q)[x] + (if task == x then 1 else 0)
  {
  }

  /** Worker `w` became `to`, and queue `q` lost what it took. */
  lemma TakenFromQueue(s: State, s': State, w: nat, q: nat, left: seq<Task>, to: Worker, x: Task)
    requires w < |s.workers| && q < |s.queues| && !s.workers[w].Holding?
    requires s' == s.(queues := s.queues[q := left], workers := s.workers[w := to])
    requires multiset(s.queues[q])[x] == multiset(left)[x] + HeldBy(to)[x]
    ensures Found(s', x) == Found(s, x)
  {
    HeldUpdate(s.workers, w, to, x);
    QueuesUpdate(s.queues, q, left, x);
  }

  lemma PrivatePop(s: State, w: nat, x: Task)
    requires Shaped(s) && w < |s.workers| && s.workers[w].Private?
    ensures Found(WorkerStep(s, w), x) == Found(s, x)
  {
    TakeLast(s.queues[w], Shared, x);
    TakenFromQueue(s, WorkerStep(s, w), w, w, WithoutLast(s.queues[w]), Take(Last(s.queues[w]), Shared), x);
  }

  lemma SharedPop(s: State, w: nat, x: Task)
    requires Shaped(s) && w < |s.workers| && s.workers[w].Shared?
    ensures Found(WorkerStep(s, w), x) == Found(s, x)
  {
    TakeFirst(s.shared, Steal(0), x);
    HeldUpdate(s.workers, w, WorkerStep(s, w).workers[w], x);
  }

  lemma StealOne(s: State, w: nat, i: nat, x: Task)
    requires Shaped(s) && w < |s.workers| && s.workers[w] == Steal(i) && i < |s.queues|
    ensures Found(WorkerStep(s, w), x) == Found(s, x)
  {
    var q := StealIndex(w, i, |s.queues|);
    var left, to := WithoutFirst(s.queues[q]), Take(First(s.queues[q]), Steal(i + 1));
    TakeFirst(s.queues[q], Steal(i + 1), x);
    assert WorkerStep(s, w) == s.(queues := s.queues[q := left], workers := s.workers[w := to]);
    TakenFromQueue(s, WorkerStep(s, w), w, q, left, to, x);
  }

  lemma StealTurn(s: State, w: nat, x: Task)
    requires Shaped(s) && w < |s.workers| && s.workers[w].Steal?
    ensures Found(WorkerStep(s, w), x) == Found(s, x)
  {
    var i := s.workers[w].i;
    if i < |s.queues| {
      StealOne(s, w, i, x);
    } else {
      HeldUpdate(s.workers, w, Yield, x);
    }
  }

  lemma BeginTask(s: State, w: nat, x: Task)
    requires Shaped(s) && w < |s.workers| && s.workers[w].Holding?
    ensures Found(WorkerStep(s, w), x) == Found(s, x)
  {
    AddLast(s.executed, s.workers[w].task, x);
    HeldUpdate(s.workers, w, Executing, x);
  }

  lemma MoveOn(s: State, w: nat, to: Worker, x: Task)
    requires w < |s.workers| && !s.workers[w].Holding? && !to.Holding?
    ensures Found(SetWorker(s, w, to), x) == Found(s, x)
  {
    HeldUpdate(s.workers, w, to, x);
  }

  lemma WorkerMovesOne(s: State, w: nat, x: Task)
    requires Shaped(s) && w < |s.workers|
    ensures Found(WorkerStep(s, w), x) == Found(s, x)
  {
    match s.workers[w]
    case Private => PrivatePop(s, w, x);
    case Shared => SharedPop(s, w, x);
    case Steal(_) => StealTurn(s, w, x);
    case Holding(_) => BeginTask(s, w, x);
    case Top => MoveOn(s, w, if s.running then Private else Exited, x);
    case Yield => MoveOn(s, w, Top, x);
    case Executing => MoveOn(s, w, Top, x);
    case Exited =>
  }

  lemma InsideAddsOne(s: State, w: nat, task: Task, x: Task)
    requires Shaped(s)
    ensures var s' := Apply(s, RunInside(w, task));
            Found(s', x) + multiset(s.submitted)[x] == Found(s, x) + multiset(s'.submitted)[x]
  {
    if w < |s.workers| {
      QueuesUpdate(s.queues, w, s.queues[w] + [task], x);
      AddLast(s.queues[w], task, x);
      AddLast(s.submitted, task, x);
    }
  }

  lemma OutsideAddsOne(s: State, task: Task, x: Task)
    requires Shaped(s)
    ensures var s' := Apply(s, RunOutside(task));
            Found(s', x) + multiset(s.submitted)[x] == Found(s, x) + multiset(s'.submitted)[x]
  {
    AddLast(s.shared, task, x);
    AddLast(s.submitted, task, x);
  }

  lemma EventAddsOne(s: State, e: Event, x: Task)
    requires Shaped(s)
    ensures Found(Apply(s, e), x) + multiset(s.submitted)[x] == Found(s, x) + multiset(Apply(s, e).submitted)[x]
  {
    match e
    case Step(w) => if w < |s.workers| { WorkerMovesOne(s, w, x); }
    case RunInside(w, task) => InsideAddsOne(s, w, task, x);
    case RunOutside(task) => OutsideAddsOne(s, task, x);
    case Stop =>
  }

  lemma EventConserves(s: State, e: Event)
    requires Shaped(s) && Conserved(s)
    ensures Conserved(Apply(s, e))
  {
    forall x: Task ensures Found(Apply(s, e), x) == multiset(Apply(s, e).submitted)[x] { EventAddsOne(s, e, x); }
  }

  lemma {:induction false} InitConserves(n: nat)
    ensures InQueues(Init(n).queues) == multiset{} && Held(Init(n).workers) == multiset{}
  {
    if n > 0 {
      InitConserves(n - 1);
      assert Init(n).queues[1..] == Init(n - 1).queues && Init(n).workers[1..] == Init(n - 1).workers;
    }
  }

  lemma StaysShaped(s: State, e: Event)
    requires Shaped(s)
    ensures Shaped(Apply(s, e)) && |Apply(s, e).workers| == |s.workers|
  {
  }

  lemma {:induction false} CountsAgree(r: Trace, m: nat)
    requires IsRun(r) && m < |r.states|
    ensures Shaped(r.states[m]) && Conserved(r.states[m])
  {
    if m == 0 {
      var workers: nat :| r.states[0] == Init(workers);
      InitConserves(workers);
    } else {
      CountsAgree(r, m - 1);
      assert StepAt(r, m - 1);
      StaysShaped(r.states[m - 1], r.events[m - 1]);
      EventConserves(r.states[m - 1], r.events[m - 1]);
    }
  }

  /** In every run every submitted task is in exactly one place: executed, held by a worker, or in one of the queues. */
  lemma TasksAreConserved(r: Trace, m: nat)
    requires IsRun(r) && m < |r.states|
    ensures var s := r.states[m];
            multiset(s.submitted) == multiset(s.executed) + Held(s.workers) + InQueues(s.queues) + multiset(s.shared)
  {
    CountsAgree(r, m);
    var s := r.states[m];
    forall x: Task
      ensures multiset(s.submitted)[x] ==
              (multiset(s.executed) + Held(s.workers) + InQueues(s.queues) + multiset(s.shared))[x]
    {
      assert Found(s, x) == multiset(s.submitted)[x];
    }
  }

  predicate NoDuplicates(q: seq<Task>) {
    forall i, j | 0 <= i < j < |q| :: q[i] != q[j]
  }

  lemma {:induction false} CountsSplit(q: seq<Task>, i: nat, j: nat)
    requires i < j < |q| && q[i] == q[j]
    ensures multiset(q)[q[i]] >= 2
  {
    assert q == q[..j] + [q[j]] + q[j + 1..];
    assert q[i] in q[..j];
  }

  lemma {:induction false} CountOne(q: seq<Task>, x: Task)
    requires NoDuplicates(q)
    ensures multiset(q)[x] <= 1
  {
    if q != [] {
      var n := |q| - 1;
      CountOne(q[..n], x);
      assert q == q[..n] + [q[n]];
      assert x == q[n] ==> x !in q[..n];
    }
  }

  /** If no task is submitted twice, none runs twice. */
  lemma NoTaskRunsTwice(r: Trace, m: nat)
    requires IsRun(r) && m < |r.states| && NoDuplicates(r.states[m].submitted)
    ensures NoDuplicates(r.states[m].executed)
  {
    var s := r.states[m];
    CountsAgree(r, m);
    forall x: Task ensures multiset(s.executed)[x] <= 1 {
      CountOne(s.submitted, x);
      assert Found(s, x) == multiset(s.submitted)[x];
    }
    forall i, j | 0 <= i < j < |s.executed| ensures s.executed[i] != s.executed[j] {
      if s.executed[i] == s.executed[j] { CountsSplit(s.executed, i, j); }
    }
  }

  // ---- What is submitted, and when workers stop ---------------------------------------------

  /** `run` is called by any thread that is no worker, or by the task a worker is executing. */
  predicate Accepts(s: State, e: Event) {
    match e
    case RunOutside(_) => true
    case RunInside(w, _) => Shaped(s) && w < |s.workers| && s.workers[w].Executing?
    case _ => false
  }

  /** The tasks of the accepted calls of `run` among the first `m` events, in order. */
  function Handed(r: Trace, m: nat): seq<Task>
    requires m <= |r.events| < |r.states|
  {
    if m == 0 then []
    else
      var e, before := r.events[m - 1], Handed(r, m - 1);
      if !Accepts(r.states[m - 1], e) then before
      else match e
        case RunOutside(task) => before + [task]
        case RunInside(_, task) => before + [task]
        case _ => before
  }

  /** In every run the tasks submitted are those handed to `run`. */
  lemma {:induction false} HandedIsSubmitted(r: Trace, m: nat)
    requires IsRun(r) && m < |r.states|
    ensures r.states[m].submitted == Handed(r, m)
  {
    if m > 0 {
      HandedIsSubmitted(r, m - 1);
      assert StepAt(r, m - 1);
      HandedStep(r.states[m - 1], r.events[m - 1]);
    }
  }

  /** A call of `run` puts its task last: into the caller's own queue if a worker makes it, else into the shared one. */
  lemma HandedStep(s: State, e: Event)
    ensures var s' := Apply(s, e);
            if !Accepts(s, e) then s'.submitted == s.submitted
            else
              && s'.submitted == s.submitted + [e.task]
              && (e.RunOutside? ==> s'.shared == s.shared + [e.task] && s'.queues == s.queues)
              && (e.RunInside? ==> s'.queues == s.queues[e.w := s.queues[e.w] + [e.task]] && s'.shared == s.shared)
  {
  }

  ghost predicate StoppedBefore(r: Trace, m: nat) {
    exists j: nat :: j < m && j < |r.events| && r.events[j].Stop?
  }

  /** The pool runs until it is stopped, and no worker leaves its routine before. */
  lemma {:induction false} NoExitBeforeStop(r: Trace, m: nat)
    requires IsRun(r) && m < |r.states|
    ensures r.states[m].running <==> !StoppedBefore(r, m)
    ensures r.states[m].running ==> forall w | 0 <= w < |r.states[m].workers| :: !r.states[m].workers[w].Exited?
  {
    if m > 0 {
      NoExitBeforeStop(r, m - 1);
      assert StepAt(r, m - 1);
      ExitStep(r.states[m - 1], r.events[m - 1]);
      if r.events[m - 1].Stop? { assert StoppedBefore(r, m); }
    }
  }

  /** Once the pool is stopped a worker leaves where it would have looked for another task. */
  lemma LeavesWhenStopped(s: State, w: nat)
    requires Shaped(s) && w < |s.workers| && s.workers[w].Top? && !s.running
    ensures Apply(s, Step(w)) == s.(workers := s.workers[w := Exited])
  {
  }

  lemma ExitStep(s: State, e: Event)
    ensures Apply(s, e).running <==> s.running && !e.Stop?
    ensures Apply(s, e).running && (forall w | 0 <= w < |s.workers| :: !s.workers[w].Exited?) ==>
              forall w | 0 <= w < |Apply(s, e).workers| :: !Apply(s, e).workers[w].Exited?
  {
  }

  // ---- The scan -----------------------------------------------------------------------------

  lemma ModOnce(x: nat, n: nat)
    requires 0 < n && x < 2 * n
    ensures x % n == if x < n then x else x - n
  {
    if x >= n { assert x % n == (x - n) % n by { assert x == (x - n) + n; } }
  }

  /** The turn at which worker `idx`'s scan comes to queue `q`. */
  function Turn(idx: nat, q: nat, n: nat): nat
    requires idx < n && q < n
  {
    if q > idx then q - idx - 1 else q + n - idx - 1
  }

  /** A scan of `n` turns meets every queue at one turn and no other, its own queue last. */
  lemma ScanMeetsEachOnce(idx: nat, q: nat, n: nat)
    requires idx < n && q < n
    ensures Turn(idx, q, n) < n && StealIndex(idx, Turn(idx, q, n), n) == q
    ensures forall i: nat | i < n && StealIndex(idx, i, n) == q :: i == Turn(idx, q, n)
    ensures Turn(idx, idx, n) == n - 1
  {
    ModOnce(idx + Turn(idx, q, n) + 1, n);
    forall i: nat | i < n && StealIndex(idx, i, n) == q ensures i == Turn(idx, q, n) { ModOnce(idx + i + 1, n); }
  }

  /** In state `m` worker `w`, about to step, is at turn `i` of its scan. */
  ghost predicate AtTurn(r: Trace, w: nat, m: nat, i: nat) {
    && m < |r.events| < |r.states| && r.events[m] == Step(w) && w < |r.states[m].workers|
    && r.states[m].workers[w] == Steal(i)
  }

  /** Worker `w` enters its scan in state `i` and is scanning in every state up to the `j`th. */
  ghost predicate Scanning(r: Trace, w: nat, i: nat, j: nat) {
    && IsRun(r) && i <= j < |r.states| && w < |r.states[i].workers| && r.states[i].workers[w] == Steal(0)
    && (forall m | i <= m <= j :: w < |r.states[m].workers| && r.states[m].workers[w].Steal?)
  }

  /** Queue `q` was empty when the scan inspected it, after state `i` and before state `j`. */
  ghost predicate InspectedEmpty(r: Trace, w: nat, q: nat, i: nat, j: nat, m: nat) {
    && i <= m < j && m < |r.states| && w < |r.states[m].workers| && q < |r.states[m].queues| && Shaped(r.states[m])
    && AtTurn(r, w, m, Turn(w, q, |r.states[m].queues|)) && r.states[m].queues[q] == []
  }

  lemma ScanStep(s: State, e: Event, w: nat)
    requires Shaped(s) && w < |s.workers| && s.workers[w].Steal?
    ensures Shaped(Apply(s, e)) && |Apply(s, e).workers| == |s.workers|
    ensures e != Step(w) ==> Apply(s, e).workers[w] == s.workers[w]
    ensures e == Step(w) && Apply(s, e).workers[w].Steal? ==>
              var i := s.workers[w].i;
              i < |s.queues| && s.queues[StealIndex(w, i, |s.queues|)] == [] && Apply(s, e).workers[w] == Steal(i + 1)
    ensures e == Step(w) && Apply(s, e).workers[w].Yield? ==> s.workers[w].i >= |s.queues|
  {
  }

  /** A scan at turn `k` has inspected, and found empty, the queue of every earlier turn. */
  lemma {:induction false} ScannedSoFar(r: Trace, w: nat, i: nat, j: nat, q: nat)
    requires Scanning(r, w, i, j) && q < |r.states[i].queues|
    ensures |r.states[j].queues| == |r.states[i].queues| == |r.states[j].workers| == |r.states[i].workers|
    ensures Turn(w, q, |r.states[i].queues|) < r.states[j].workers[w].i ==>
              exists m: nat :: InspectedEmpty(r, w, q, i, j, m)
    decreases j
  {
    CountsAgree(r, i);
    if j > i {
      var p := j - 1;
      ScannedSoFar(r, w, i, p, q);
      assert StepAt(r, p);
      CountsAgree(r, p);
      ScanStep(r.states[p], r.events[p], w);
      var n := |r.states[i].queues|;
      if Turn(w, q, n) < r.states[j].workers[w].i {
        if Turn(w, q, n) < r.states[p].workers[w].i {
          var m: nat :| InspectedEmpty(r, w, q, i, p, m);
          assert InspectedEmpty(r, w, q, i, j, m);
        } else {
          ScanMeetsEachOnce(w, q, n);
          assert InspectedEmpty(r, w, q, i, j, p);
        }
      }
    }
  }

  /** When `stealWork` gives up, it has inspected every queue at that queue's one turn and found it empty then. */
  lemma FailedStealSawAllEmpty(r: Trace, w: nat, i: nat, j: nat, q: nat)
    requires Scanning(r, w, i, j) && j + 1 < |r.states| && r.events[j] == Step(w)
    requires w < |r.states[j + 1].workers| && r.states[j + 1].workers[w].Yield?
    requires q < |r.states[i].queues|
    ensures exists m: nat :: InspectedEmpty(r, w, q, i, j, m)
  {
    ScannedSoFar(r, w, i, j, q);
    CountsAgree(r, j);
    assert StepAt(r, j);
    ScanStep(r.states[j], r.events[j], w);
    ScanMeetsEachOnce(w, q, |r.states[i].queues|);
  }

  // ---- A worker alone -----------------------------------------------------------------------------

  /** Worker `w` takes `k` steps and nobody else any. */
  function Solo(s: State, w: nat, k: nat): State
    decreases k
  {
    if k == 0 then s else Solo(Apply(s, Step(w)), w, k - 1)
  }

  predicate Spent(k: int) { true }

  /** `k` steps alone lead from `s` to `s'`; spelled out only where `Spent` is named. */
  ghost predicate Leads(s: State, w: nat, k: nat, s': State) {
    forall i | Spent(i) :: Solo(s, w, k) == s'
  }

  lemma {:induction false} SoloThen(s: State, w: nat, j: nat, k: nat)
    ensures Solo(Solo(s, w, j), w, k) == Solo(s, w, j + k)
    decreases j
  {
    if j > 0 { SoloThen(Apply(s, Step(w)), w, j - 1, k); }
  }

  lemma LeadsOn(s: State, w: nat, j: nat, mid: State, k: nat, s': State)
    requires Leads(s, w, j, mid) && Leads(mid, w, k, s')
    ensures Leads(s, w, j + k, s')
  {
    assert Spent(0);
    SoloThen(s, w, j, k);
  }

  lemma LeadsNowhere(s: State, w: nat)
    ensures Leads(s, w, 0, s)
  {
  }

  lemma LeadsOneStep(s: State, w: nat)
    ensures Leads(s, w, 1, Apply(s, Step(w)))
  {
    assert Solo(s, w, 1) == Solo(Apply(s, Step(w)), w, 0);
  }

  lemma LeadsThere(s: State, w: nat, k: nat, s': State)
    requires Leads(s, w, k, s')
    ensures Solo(s, w, k) == s'
  {
    assert Spent(0);
  }

  /** The first turn of the scan, from the `i`th on, that finds a queue with a task in it; as many as there are queues if
      none does. */
  function FirstTurn(queues: seq<seq<Task>>, w: nat, i: nat): (t: nat)
    requires i <= |queues|
    ensures i <= t <= |queues| && forall j | i <= j < t :: queues[StealIndex(w, j, |queues|)] == []
    ensures t < |queues| ==> queues[StealIndex(w, t, |queues|)] != []
    decreases |queues| - i
  {
    if i == |queues| || queues[StealIndex(w, i, |queues|)] != [] then i else FirstTurn(queues, w, i + 1)
  }

  /** Worker `w` is executing `task`, which it took from the queues; everything else is as it was. */
  function Began(s: State, w: nat, task: Task, queues: seq<seq<Task>>, shared: seq<Task>): State
    requires w < |s.workers|
  {
    State(s.running, shared, queues, s.workers[w := Executing], s.submitted, s.executed + [task])
  }

  /** One step each: to the worker's own queue, on to the shared one, on to the scan, past a queue, back to the top. */
  lemma Turns(s: State, w: nat)
    requires Shaped(s) && w < |s.workers|
    ensures var l, n := s.workers[w], |s.queues|;
            && (l.Top? && s.running ==> Leads(s, w, 1, SetWorker(s, w, Private)))
            && (l.Private? && s.queues[w] == [] ==> Leads(s, w, 1, SetWorker(s, w, Shared)))
            && (l.Shared? && s.shared == [] ==> Leads(s, w, 1, SetWorker(s, w, Steal(0))))
            && (l.Yield? || l.Executing? ==> Leads(s, w, 1, SetWorker(s, w, Top)))
  {
    LeadsOneStep(s, w);
    assert s.queues[w] == [] ==> s.queues[w := []] == s.queues;
  }

  lemma TurnsScan(s: State, w: nat, i: nat)
    requires Shaped(s) && w < |s.workers| && s.workers[w] == Steal(i)
    requires i < |s.queues| ==> s.queues[StealIndex(w, i, |s.queues|)] == []
    ensures Leads(s, w, 1, SetWorker(s, w, if i < |s.queues| then Steal(i + 1) else Yield))
  {
    LeadsOneStep(s, w);
    if i < |s.queues| { assert s.queues[StealIndex(w, i, |s.queues|) := []] == s.queues; }
  }

  /** Worker `w` has taken `task`, which leaves the queues as given. */
  function Taking(s: State, w: nat, task: Task, queues: seq<seq<Task>>, shared: seq<Task>): State
    requires w < |s.workers|
  {
    s.(shared := shared, queues := queues, workers := s.workers[w := Holding(task)])
  }

  lemma Begins(s: State, w: nat, task: Task, queues: seq<seq<Task>>, shared: seq<Task>)
    requires Shaped(s) && w < |s.workers| && |queues| == |s.queues|
    ensures Leads(Taking(s, w, task, queues, shared), w, 1, Began(s, w, task, queues, shared))
  {
    var s1 := Taking(s, w, task, queues, shared);
    LeadsOneStep(s1, w);
    assert s1.workers[w := Executing] == s.workers[w := Executing];
  }

  /** A worker that finds a task where it looks takes it and begins it. */
  lemma TakesOwn(s: State, w: nat)
    requires Shaped(s) && w < |s.workers| && s.workers[w].Private? && s.queues[w] != []
    ensures var q := s.queues[w]; Leads(s, w, 2, Began(s, w, q[|q| - 1], s.queues[w := q[..|q| - 1]], s.shared))
  {
    var q := s.queues[w];
    LeadsOneStep(s, w);
    Begins(s, w, q[|q| - 1], s.queues[w := q[..|q| - 1]], s.shared);
    LeadsOn(s, w, 1, Apply(s, Step(w)), 1, Began(s, w, q[|q| - 1], s.queues[w := q[..|q| - 1]], s.shared));
  }

  lemma TakesShared(s: State, w: nat)
    requires Shaped(s) && w < |s.workers| && s.workers[w].Shared? && s.shared != []
    ensures Leads(s, w, 2, Began(s, w, s.shared[0], s.queues, s.shared[1..]))
  {
    LeadsOneStep(s, w);
    Begins(s, w, s.shared[0], s.queues, s.shared[1..]);
    LeadsOn(s, w, 1, Apply(s, Step(w)), 1, Began(s, w, s.shared[0], s.queues, s.shared[1..]));
  }

  lemma TakesStolen(s: State, w: nat, t: nat)
    requires Shaped(s) && w < |s.workers| && s.workers[w] == Steal(t) && t < |s.queues|
    requires s.queues[StealIndex(w, t, |s.queues|)] != []
    ensures var j := StealIndex(w, t, |s.queues|);
            Leads(s, w, 2, Began(s, w, s.queues[j][0], s.queues[j := s.queues[j][1..]], s.shared))
  {
    var j := StealIndex(w, t, |s.queues|);
    LeadsOneStep(s, w);
    Begins(s, w, s.queues[j][0], s.queues[j := s.queues[j][1..]], s.shared);
    LeadsOn(s, w, 1, Apply(s, Step(w)), 1, Began(s, w, s.queues[j][0], s.queues[j := s.queues[j][1..]], s.shared));
  }

  /** The scan passes over the queues that are empty. */
  lemma {:induction false} ScanPasses(s: State, w: nat, i: nat)
    requires Shaped(s) && w < |s.workers| && i <= |s.queues| && s.workers[w] == Steal(i)
    ensures var t := FirstTurn(s.queues, w, i); Leads(s, w, t - i, SetWorker(s, w, Steal(t)))
    decreases |s.queues| - i
  {
    var n, t := |s.queues|, FirstTurn(s.queues, w, i);
    if i < n && s.queues[StealIndex(w, i, n)] == [] {
      var s' := SetWorker(s, w, Steal(i + 1));
      TurnsScan(s, w, i);
      ScanPasses(s', w, i + 1);
      assert s'.workers[w := Steal(t)] == s.workers[w := Steal(t)];
      LeadsOn(s, w, 1, s', t - (i + 1), SetWorker(s, w, Steal(t)));
    } else {
      assert s.workers[w := Steal(t)] == s.workers;
      LeadsNowhere(s, w);
    }
  }

  /** Where a worker that has nothing of its own and finds nothing shared takes its task from, or that all is empty. */
  lemma Steals(s: State, w: nat) returns (k: nat)
    requires Shaped(s) && w < |s.workers| && s.workers[w] == Steal(0)
    ensures var n := |s.queues|;
            var t := FirstTurn(s.queues, w, 0);
            if t < n then
              var j := StealIndex(w, t, n);
              Leads(s, w, k, Began(s, w, s.queues[j][0], s.queues[j := s.queues[j][1..]], s.shared))
            else Leads(s, w, k, SetWorker(s, w, Top)) && forall j | 0 <= j < n :: s.queues[j] == []
  {
    var t, n := FirstTurn(s.queues, w, 0), |s.queues|;
    ScanPasses(s, w, 0);
    var s1 := SetWorker(s, w, Steal(t));
    if t < n {
      var j := StealIndex(w, t, n);
      TakesStolen(s1, w, t);
      assert s1.workers[w := Executing] == s.workers[w := Executing];
      LeadsOn(s, w, t, s1, 2, Began(s, w, s.queues[j][0], s.queues[j := s.queues[j][1..]], s.shared));
      k := t + 2;
    } else {
      k := GivesUp(s, w, t);
    }
  }

  lemma GivesUp(s: State, w: nat, t: nat) returns (k: nat)
    requires Shaped(s) && w < |s.workers| && s.workers[w] == Steal(0) && t == |s.queues| == FirstTurn(s.queues, w, 0)
    requires Leads(s, w, t, SetWorker(s, w, Steal(t)))
    ensures Leads(s, w, k, SetWorker(s, w, Top)) && forall j | 0 <= j < |s.queues| :: s.queues[j] == []
  {
    var s1, s2 := SetWorker(s, w, Steal(t)), SetWorker(s, w, Yield);
    NoTurnNoTask(s.queues, w);
    TurnsScan(s1, w, t);
    Turns(s2, w);
    assert s1.workers[w := Yield] == s2.workers && s2.workers[w := Top] == s.workers[w := Top];
    LeadsOn(s1, w, 1, s2, 1, SetWorker(s, w, Top));
    LeadsOn(s, w, t, s1, 2, SetWorker(s, w, Top));
    k := t + 2;
  }

  /** A scan that finds nothing has met every queue. */
  lemma NoTurnNoTask(queues: seq<seq<Task>>, w: nat)
    requires w < |queues| && FirstTurn(queues, w, 0) == |queues|
    ensures forall j | 0 <= j < |queues| :: queues[j] == []
  {
    forall j | 0 <= j < |queues| ensures queues[j] == [] { ScanMeetsEachOnce(w, j, |queues|); }
  }

  /** The task that a worker takes next when nobody disturbs it, and what is then left: the task pushed last into its own
      queue; if there is none, the first of the shared queue; if there is none either, the first of the first queue that has
      one in the order of the scan. */
  function AfterNext(s: State, w: nat): State
    requires Shaped(s) && w < |s.workers|
  {
    var q, n := s.queues[w], |s.queues|;
    var t := FirstTurn(s.queues, w, 0);
    if q != [] then Began(s, w, q[|q| - 1], s.queues[w := q[..|q| - 1]], s.shared)
    else if s.shared != [] then Began(s, w, s.shared[0], s.queues, s.shared[1..])
    else if t < n then
      var j := StealIndex(w, t, n);
      Began(s, w, s.queues[j][0], s.queues[j := s.queues[j][1..]], s.shared)
    else s
  }

  /** Nothing waits in any queue. */
  predicate AllTaken(s: State) {
    s.shared == [] && forall j | 0 <= j < |s.queues| :: s.queues[j] == []
  }

  /** An undisturbed worker of a running pool comes from the top of its routine to execute the task that is its next, or
      back with nothing done if and only if no task waits anywhere. */
  lemma NextTask(s: State, w: nat) returns (k: nat)
    requires Shaped(s) && w < |s.workers| && s.workers[w].Top? && s.running
    ensures Solo(s, w, k) == AfterNext(s, w) && k > 0
    ensures if AllTaken(s) then AfterNext(s, w) == s else |AfterNext(s, w).executed| == |s.executed| + 1
  {
    var s1 := SetWorker(s, w, Private);
    Turns(s, w);
    var s' := AfterNext(s, w);
    if s.queues[w] != [] {
      TakesOwn(s1, w);
      assert s1.workers[w := Executing] == s.workers[w := Executing];
      LeadsOn(s, w, 1, s1, 2, s');
      k := 3;
    } else {
      k := NextShared(s, s1, w);
      LeadsOn(s, w, 1, s1, k, s');
      k := 1 + k;
    }
    LeadsThere(s, w, k, s');
  }

  lemma NextShared(s: State, s1: State, w: nat) returns (k: nat)
    requires Shaped(s) && w < |s.workers| && s.workers[w].Top? && s1 == SetWorker(s, w, Private) && s.queues[w] == []
    ensures Leads(s1, w, k, AfterNext(s, w))
    ensures if AllTaken(s) then AfterNext(s, w) == s else |AfterNext(s, w).executed| == |s.executed| + 1
  {
    var s2 := SetWorker(s, w, Shared);
    Turns(s1, w);
    assert s1.workers[w := Shared] == s2.workers;
    var s' := AfterNext(s, w);
    if s.shared != [] {
      TakesShared(s2, w);
      assert s2.workers[w := Executing] == s.workers[w := Executing];
      k := 2;
    } else {
      k := NextStolen(s, s2, w);
    }
    LeadsOn(s1, w, 1, s2, k, s');
    k := 1 + k;
  }

  lemma NextStolen(s: State, s2: State, w: nat) returns (k: nat)
    requires Shaped(s) && w < |s.workers| && s.workers[w].Top? && s2 == SetWorker(s, w, Shared) && s.queues[w] == []
    requires s.shared == []
    ensures Leads(s2, w, k, AfterNext(s, w))
    ensures if AllTaken(s) then AfterNext(s, w) == s else |AfterNext(s, w).executed| == |s.executed| + 1
  {
    var s3 := SetWorker(s, w, Steal(0));
    Turns(s2, w);
    assert s2.workers[w := Steal(0)] == s3.workers;
    k := Steals(s3, w);
    assert s3.workers[w := Executing] == s.workers[w := Executing];
    assert s3.workers[w := Top] == s.workers;
    LeadsOn(s2, w, 1, s3, k, AfterNext(s, w));
    k := 1 + k;
  }

  /** How many tasks wait in the workers' queues. */
  function Total(queues: seq<seq<Task>>): nat {
    if queues == [] then 0 else |queues[0]| + Total(queues[1..])
  }

  lemma {:induction false} TotalUpdate(queues: seq<seq<Task>>, i: nat, q: seq<Task>)
    requires i < |queues|
    ensures Total(queues[i := q]) + |queues[i]| == Total(queues) + |q|
  {
    if i == 0 {
      assert queues[0 := q][1..] == queues[1..];
    } else {
      TotalUpdate(queues[1..], i - 1, q);
      assert queues[i := q][1..] == queues[1..][i - 1 := q];
    }
  }

  /** One round of a worker alone: a task more, and one less waiting. */
  lemma OneRound(s: State, w: nat) returns (k: nat)
    requires Shaped(s) && w < |s.workers| && s.workers[w].Top? && s.running && !AllTaken(s)
    ensures var s' := Solo(s, w, k);
            && Shaped(s') && s'.workers == s.workers && s'.running && s'.submitted == s.submitted
            && s.executed <= s'.executed && Total(s'.queues) + |s'.shared| < Total(s.queues) + |s.shared|
  {
    k := NextTask(s, w);
    var s1 := AfterNext(s, w);
    LessWaits(s, w);
    Turns(s1, w);
    LeadsThere(s1, w, 1, SetWorker(s1, w, Top));
    assert s1.workers[w := Top] == s.workers;
    SoloThen(s, w, k, 1);
    k := k + 1;
  }

  lemma LessWaits(s: State, w: nat)
    requires Shaped(s) && w < |s.workers| && !AllTaken(s) && s.workers[w].Top?
    ensures var s' := AfterNext(s, w);
            && Shaped(s') && w < |s'.workers| && s'.workers[w].Executing? && s'.workers == s.workers[w := Executing]
            && s'.running == s.running && s'.submitted == s.submitted && s.executed <= s'.executed
            && Total(s'.queues) + |s'.shared| < Total(s.queues) + |s.shared|
  {
    var n, t := |s.queues|, FirstTurn(s.queues, w, 0);
    if s.queues[w] != [] {
      TotalUpdate(s.queues, w, s.queues[w][..|s.queues[w]| - 1]);
    } else if s.shared == [] {
      if t == n { NoTurnNoTask(s.queues, w); }
      var j := StealIndex(w, t, n);
      TotalUpdate(s.queues, j, s.queues[j][1..]);
    }
  }

  /** One worker of a running pool is enough: left alone it comes to take all there is. */
  lemma {:induction false} Drains(s: State, w: nat) returns (k: nat)
    requires Shaped(s) && w < |s.workers| && s.workers[w].Top? && s.running
    ensures var s' := Solo(s, w, k);
            AllTaken(s') && s'.workers == s.workers && s.executed <= s'.executed && s'.submitted == s.submitted
    decreases Total(s.queues) + |s.shared|
  {
    k := 0;
    if !AllTaken(s) {
      var i := OneRound(s, w);
      var j := Drains(Solo(s, w, i), w);
      SoloThen(s, w, i, j);
      k := i + j;
    }
  }

  lemma {:induction false} SoloConserves(s: State, w: nat, k: nat)
    requires Shaped(s) && Conserved(s)
    ensures Shaped(Solo(s, w, k)) && Conserved(Solo(s, w, k))
    decreases k
  {
    if k > 0 {
      EventConserves(s, Step(w));
      StaysShaped(s, Step(w));
      SoloConserves(Apply(s, Step(w)), w, k - 1);
    }
  }

  lemma {:induction false} NothingQueued(queues: seq<seq<Task>>, x: Task)
    requires forall j | 0 <= j < |queues| :: queues[j] == []
    ensures InQueues(queues)[x] == 0
  {
    if queues != [] { NothingQueued(queues[1..], x); }
  }

  lemma {:induction false} NothingHeld(workers: seq<Worker>, x: Task)
    requires forall j | 0 <= j < |workers| :: !workers[j].Holding?
    ensures Held(workers)[x] == 0
  {
    if workers != [] { NothingHeld(workers[1..], x); }
  }

  /** In every run, as long as the pool is not stopped: if no worker is about to begin a task, any worker at the top of its
      routine comes, alone, to have every task ever handed to `run` executed, as often as it was handed over. */
  lemma AllComesToRun(r: Trace, m: nat, w: nat) returns (k: nat)
    requires IsRun(r) && m < |r.states| && !StoppedBefore(r, m)
    requires w < |r.states[m].workers| && r.states[m].workers[w].Top?
    requires forall j | 0 <= j < |r.states[m].workers| :: !r.states[m].workers[j].Holding?
    ensures multiset(Solo(r.states[m], w, k).executed) == multiset(Handed(r, m))
  {
    var s := r.states[m];
    CountsAgree(r, m);
    HandedIsSubmitted(r, m);
    NoExitBeforeStop(r, m);
    k := Drains(s, w);
    var s' := Solo(s, w, k);
    SoloConserves(s, w, k);
    forall x: Task ensures multiset(s'.executed)[x] == multiset(s'.submitted)[x] {
      NothingQueued(s'.queues, x);
      NothingHeld(s'.workers, x);
      assert Found(s', x) == multiset(s'.submitted)[x];
    }
  }

  // ---- The scan over the queues themselves, when nothing interferes -------------------------------

  /** Takes the front of the first queue in scan order that has one; a scan that finds nothing means that all are empty. */
  method StealWork(queues: seq<StealingQueue<Task>>, idx: nat) returns (task: Option<Task>, ghost turn: nat)
    requires idx < |queues|
    modifies queues
    ensures forall i | 0 <= i < turn :: old(queues[StealIndex(idx, i, |queues|)].queue) == []
    ensures task.None? ==> turn == |queues| && forall q | q in queues :: q.queue == old(q.queue) == []
    ensures task.Some? ==>
              && turn < |queues|
              && var q := queues[StealIndex(idx, turn, |queues|)];
                 old(q.queue) == [task.value] + q.queue && forall p | p in queues && p != q :: p.queue == old(p.queue)
  {
    var numQueue := |queues|;
    task, turn := None, 0;
    for i := 0 to numQueue
      invariant turn == i && task == None
      invariant forall q | q in queues :: q.queue == old(q.queue)
      invariant forall j | 0 <= j < i :: old(queues[StealIndex(idx, j, numQueue)].queue) == []
    {
      var index := StealIndex(idx, i, numQueue);
      assert queues[index] in queues;
      task := queues[index].TryStealFront();
      if task.Some? { return; }
      turn := turn + 1;
    }
    forall q | q in queues ensures old(q.queue) == [] {
      var k :| 0 <= k < numQueue && queues[k] == q;
      ScanMeetsEachOnce(idx, k, numQueue);
    }
  }
}
