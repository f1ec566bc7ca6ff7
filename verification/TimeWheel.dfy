/** The timing wheel: a ring of slots, one a millisecond, each a linked list of timers.

    Times are whole microseconds and the clock is an oracle that never runs backwards. */
module TimeWheel {
  import opened Truncation

  const TICK: int := 1000   // microseconds in one tick

  // ---- Ticks and slots ----------------------------------------------------------------------------

  /** When and at which tick a timer was handed to the wheel, and the tick at which it is to run. */
  datatype Plan = Plan(when: int, made: nat, due: nat)

  datatype Firing<T> = Firing(timer: T, tick: nat, plan: Plan)

  function TickTime(origin: int, tick: nat): int {
    origin + TICK * tick
  }

  /** The slot that a timer for `when` goes into, or -1 if the wheel refuses it: too far ahead, or out of the vector. */
  function Aim(start: int, startIdx: int, n: int, when: int): int
    requires 0 <= startIdx < n
  {
    var diff := Quotient(when - start, TICK);
    if diff >= n then -1
    else
      var index := Remainder(startIdx + diff, n);
      if index < 0 then -1 else index
  }

  /** How many ticks it takes from one slot to the next arrival at another: a whole turn to the same slot. */
  function Ahead(startIdx: int, index: int, n: int): nat
    requires 0 <= startIdx < n && 0 <= index
  {
    if index > startIdx then index - startIdx else index - startIdx + n
  }

  /** The timer runs at the last tick that is not after the time asked for. */
  predicate OnTime(origin: int, p: Plan) {
    TickTime(origin, p.due) <= p.when < TickTime(origin, p.due) + TICK
  }

  /** What each plan made by the wheel keeps: on time if and only if asked for at least one tick ahead. */
  predicate Sound(origin: int, p: Plan) {
    && p.made < p.due
    && (OnTime(origin, p) <==> p.when >= TickTime(origin, p.made) + TICK)
  }

  lemma AtLeast(n: int, k: int)
    requires n > 0 && k >= 1
    ensures n * k >= n
  {
    assert n * (k - 1) >= 0;
  }

  /** Quotient and remainder are unique. */
  lemma Unique(q: int, r: int, q': int, r': int, n: int)
    requires 0 <= r < n && 0 <= r' < n && n * q + r == n * q' + r'
    ensures q == q' && r == r'
  {
    if q > q' { AtLeast(n, q - q'); }
    if q < q' { AtLeast(n, q' - q); }
  }

  lemma ModIs(q: int, r: int, n: int)
    requires 0 <= r < n
    ensures (n * q + r) % n == r && (n * q + r) / n == q
  {
    var x := n * q + r;
    Unique(x / n, x % n, q, r, n);
  }

  lemma NextSlot(tick: nat, n: int)
    requires n > 0
    ensures (tick + 1) % n == (tick % n + 1) % n
  {
    var q, r := tick / n, tick % n;
    assert tick == n * q + r;
    if r + 1 < n {
      ModIs(q, r + 1, n);
      ModIs(0, r + 1, n);
    } else {
      assert tick + 1 == n * (q + 1) + 0;
      ModIs(q + 1, 0, n);
      ModIs(1, 0, n);
    }
  }

  /** The tick `Ahead` names is one that arrives at the slot. */
  lemma AheadArrives(tick: nat, index: int, n: int)
    requires 0 <= index < n
    ensures 0 < Ahead(tick % n, index, n) <= n
    ensures (tick + Ahead(tick % n, index, n)) % n == index
  {
    var q, r := tick / n, tick % n;
    assert tick == n * q + r;
    if index > r {
      ModIs(q, index, n);
    } else {
      assert tick + (index - r + n) == n * (q + 1) + index;
      ModIs(q + 1, index, n);
    }
  }

  /** Within one turn of the wheel a slot stands for one tick. */
  lemma OneTickASlot(a: nat, b: nat, n: int)
    requires n > 0 && a % n == b % n && a <= b < a + n
    ensures a == b
  {
    assert a == n * (a / n) + a % n && b == n * (b / n) + b % n;
    Unique(b / n - a / n, 0, 0, b - a, n);
  }

  /** What `Aim` means in time: a refused time is a turn ahead, or so far back that no slot answers; any other lands on
      the tick at or just before it if and only if it is at least one tick ahead. */
  lemma AimMeans(origin: int, tick: nat, n: int, when: int)
    requires n > 0
    ensures var start := TickTime(origin, tick);
            var index := Aim(start, tick % n, n, when);
            && index < n
            && (index < 0 ==> when >= start + TICK * n || when < start)
            && (when >= start + TICK * n ==> index < 0)
            && (index >= 0 ==>
              && Sound(origin, Plan(when, tick, tick + Ahead(tick % n, index, n)))
              && (when >= start + TICK ==> index != tick % n)
              && (start <= when < start + TICK ==> index == tick % n))
  {
    var start := TickTime(origin, tick);
    var idx := tick % n;
    var diff := Quotient(when - start, TICK);
    var index := Aim(start, idx, n, when);
    Truncates(idx + diff, n);
    if index >= 0 {
      AheadArrives(tick, index, n);
      var ahead := Ahead(idx, index, n);
      if diff > 0 {
        assert TICK * diff <= when - start < TICK * diff + TICK;
        WrapIs(idx, diff, n);
        assert ahead == diff;
      }
    }
    if diff == 0 { WrapIs(idx, diff, n); }
  }

  lemma WrapIs(idx: int, diff: int, n: int)
    requires 0 <= idx < n && 0 <= diff < n
    ensures Remainder(idx + diff, n) == if idx + diff < n then idx + diff else idx + diff - n
  {
    Truncates(idx + diff, n);
    if idx + diff < n { ModIs(0, idx + diff, n); } else { ModIs(1, idx + diff - n, n); }
  }

  // ---- Timers and the wheel -------------------------------------------------------------------------

  class Timer {
    var next: Timer?
    var index: int
    const expiration: int
    const interval: nat   // microseconds; a timer with an interval repeats

    constructor (when: int, interval: nat)
      ensures next == null && index == -1 && expiration == when && this.interval == interval
    {
      next, index, expiration, this.interval := null, -1, when, interval;
    }
  }

  function After(c: seq<Timer>, j: nat): Timer? {
    if j + 1 < |c| then c[j + 1] else null
  }

  /** `c` is the list that starts at `head`, all of it filed under slot `s`. */
  ghost predicate ListOf(head: Timer?, c: seq<Timer>, s: int)
    reads c
  {
    && head == (if c == [] then null else c[0])
    && (forall j | 0 <= j < |c| :: c[j].index == s && c[j].next == After(c, j))
    && (forall i, j | 0 <= i < j < |c| :: c[i] != c[j])
  }

  lemma ListPush(t: Timer, c: seq<Timer>, s: int)
    requires t !in c && t.index == s && ListOf(t.next, c, s)
    ensures ListOf(t, [t] + c, s)
  {
    var d := [t] + c;
    forall j | 0 <= j < |d| ensures d[j].index == s && d[j].next == After(d, j) {
      if j > 0 { assert d[j] == c[j - 1] && After(d, j) == After(c, j - 1); }
    }
  }

  lemma ListPop(head: Timer?, c: seq<Timer>, s: int)
    requires c != [] && ListOf(head, c, s)
    ensures ListOf(c[0].next, c[1..], s) && c[0] !in c[1..] && c[0].index == s && head == c[0]
  {
    var d := c[1..];
    assert c[0].next == After(c, 0);
    forall j | 0 <= j < |d| ensures d[j].index == s && d[j].next == After(d, j) {
      assert d[j] == c[j + 1] && After(d, j) == After(c, j + 1);
    }
  }

  /** `c` has exactly the timers whose due tick maps to slot `s`. */
  ghost predicate HoldsDue(c: seq<Timer>, s: int, n: int, plan: map<Timer, Plan>)
    requires n > 0
  {
    && (forall t | t in c :: t in plan && plan[t].due % n == s)
    && (forall t | t in plan :: plan[t].due % n == s ==> t in c)
  }

  ghost predicate Tables(chains: seq<seq<Timer>>, n: int, plan: map<Timer, Plan>) {
    && |chains| == n && n > 0
    && forall s | 0 <= s < n :: HoldsDue(chains[s], s, n, plan)
  }

  lemma TablesPush(chains: seq<seq<Timer>>, n: int, plan: map<Timer, Plan>, t: Timer, p: Plan)
    requires Tables(chains, n, plan) && t !in plan
    ensures Tables(chains[p.due % n := [t] + chains[p.due % n]], n, plan[t := p])
  {
    var index := p.due % n;
    var after := chains[index := [t] + chains[index]];
    forall s | 0 <= s < n ensures HoldsDue(after[s], s, n, plan[t := p]) {
      assert HoldsDue(chains[s], s, n, plan);
    }
  }

  lemma TablesPop(chains: seq<seq<Timer>>, n: int, plan: map<Timer, Plan>, k: nat)
    requires Tables(chains, n, plan) && k < n && chains[k] != [] && chains[k][0] !in chains[k][1..]
    ensures Tables(chains[k := chains[k][1..]], n, plan - {chains[k][0]})
  {
    var t := chains[k][0];
    var after := chains[k := chains[k][1..]];
    assert HoldsDue(chains[k], k, n, plan);
    forall s | 0 <= s < n ensures HoldsDue(after[s], s, n, plan - {t}) {
      assert HoldsDue(chains[s], s, n, plan);
      if s == k { assert chains[k] == [t] + after[k]; }
    }
  }

  /** Pending timers other than `except` stay as they were planned. */
  ghost predicate Keeps(was: map<Timer, Plan>, now: map<Timer, Plan>, except: set<Timer>) {
    forall t | t in was && t !in except :: t in now && now[t] == was[t]
  }

  /** The firings of a whole list at one tick, front first. */
  ghost function Batch(c: seq<Timer>, tick: nat, plan: map<Timer, Plan>): seq<Firing<Timer>>
    requires forall t | t in c :: t in plan
  {
    seq(|c|, i requires 0 <= i < |c| => Firing(c[i], tick, plan[c[i]]))
  }

  /** The wheel's accounts: what is pending, what is gone and what ran. */
  datatype Books = Accounts(plan: map<Timer, Plan>, freed: set<Timer>, log: seq<Firing<Timer>>)

  /** What becomes of a timer that has run: freed, or pending again for its interval after a time from `since` to `upto`. */
  ghost predicate Settled(t: Timer, since: int, upto: int, b: Books) {
    if t.interval == 0 then t in b.freed
    else t in b.plan && since + t.interval <= b.plan[t].when <= upto + t.interval
  }

  ghost function Fired(fs: seq<Firing<Timer>>): set<Timer> {
    set f | f in fs :: f.timer
  }

  ghost function OneShots(fs: seq<Firing<Timer>>): set<Timer> {
    set f | f in fs && f.timer.interval == 0 :: f.timer
  }

  /** The accounts moved from `b` to `c` by running exactly `fs`, in that order, between the times `since` and `upto`. */
  ghost predicate Ran(fs: seq<Firing<Timer>>, since: int, upto: int, b: Books, c: Books) {
    && c.log == b.log + fs
    && (forall t | t in Fired(fs) :: Settled(t, since, upto, c))
    && Keeps(b.plan, c.plan, Fired(fs))
    && c.freed == b.freed + OneShots(fs)
  }

  lemma RanThen(fs: seq<Firing<Timer>>, gs: seq<Firing<Timer>>, since: int, mid: int, upto: int, b: Books, c: Books, d: Books)
    requires Ran(fs, since, mid, b, c) && Ran(gs, since, upto, c, d) && mid <= upto
    ensures Ran(fs + gs, since, upto, b, d)
  {
    assert Fired(fs + gs) == Fired(fs) + Fired(gs);
    assert OneShots(fs + gs) == OneShots(fs) + OneShots(gs);
  }

  lemma RanOne(f: Firing<Timer>, since: int, upto: int, b: Books, c: Books)
    requires c.log == b.log + [f] && Settled(f.timer, since, upto, c) && Keeps(b.plan, c.plan, {f.timer})
    requires c.freed == b.freed + if f.timer.interval == 0 then {f.timer} else {}
    ensures Ran([f], since, upto, b, c)
  {
    assert Fired([f]) == {f.timer};
    assert OneShots([f]) == if f.timer.interval == 0 then {f.timer} else {};
  }

  lemma BatchFired(c: seq<Timer>, tick: nat, plan: map<Timer, Plan>)
    requires forall t | t in c :: t in plan
    ensures Fired(Batch(c, tick, plan)) == set t | t in c
  {
    var fs := Batch(c, tick, plan);
    forall t | t in c ensures t in Fired(fs) {
      var i :| 0 <= i < |c| && c[i] == t;
      assert fs[i] in fs;
    }
  }

  /** One more of a list of distinct timers, all of them pending at first. */
  lemma BatchGrows(c: seq<Timer>, k: nat, tick: nat, since: int, mid: int, upto: int, b0: Books, b1: Books, b2: Books)
    requires k < |c| && (forall t | t in c :: t in b0.plan) && (forall i, j | 0 <= i < j < |c| :: c[i] != c[j])
    requires Ran(Batch(c[..k], tick, b0.plan), since, mid, b0, b1) && mid <= upto
    requires c[k] in b1.plan && Ran([Firing(c[k], tick, b1.plan[c[k]])], since, upto, b1, b2)
    ensures Ran(Batch(c[..k + 1], tick, b0.plan), since, upto, b0, b2)
  {
    var fs := Batch(c[..k], tick, b0.plan);
    BatchFired(c[..k], tick, b0.plan);
    assert b1.plan[c[k]] == b0.plan[c[k]];
    assert Batch(c[..k + 1], tick, b0.plan) == fs + [Firing(c[k], tick, b0.plan[c[k]])];
    RanThen(fs, [Firing(c[k], tick, b1.plan[c[k]])], since, mid, upto, b0, b1, b2);
  }

  /** `fs` runs each timer due at `tick` once, and no other. */
  ghost predicate ExactlyDue(fs: seq<Firing<Timer>>, tick: nat, plan: map<Timer, Plan>) {
    && (forall f | f in fs :: f.timer in plan && f == Firing(f.timer, tick, plan[f.timer]) && f.plan.due == tick)
    && (forall t: Timer | t in plan && plan[t].due == tick :: Firing(t, tick, plan[t]) in fs)
    && (forall i, j | 0 <= i < j < |fs| :: fs[i].timer != fs[j].timer)
  }

  /** A one-shot timer, or one whose interval is at least a tick. */
  predicate Steady(t: Timer) {
    t.interval == 0 || t.interval >= TICK
  }

  /** Nothing steady runs twice. */
  ghost predicate Once(fs: seq<Firing<Timer>>) {
    forall i, j | 0 <= i < j < |fs| && Steady(fs[i].timer) :: fs[i].timer != fs[j].timer
  }

  /** Every timer of `plan` due by `tick` has run, as it was planned. */
  ghost predicate Complete(fs: seq<Firing<Timer>>, tick: nat, plan: map<Timer, Plan>) {
    forall t: Timer | t in plan && plan[t].due <= tick :: Firing(t, plan[t].due, plan[t]) in fs
  }

  /** Every timer of `plan` due after `tick` is still pending as it was. */
  ghost predicate Waiting(tick: nat, plan: map<Timer, Plan>, now: map<Timer, Plan>) {
    forall t | t in plan && plan[t].due > tick :: t in now && now[t] == plan[t]
  }

  /** What ran is not due again by `end`. */
  ghost predicate NoReturn(fs: seq<Firing<Timer>>, end: nat, now: map<Timer, Plan>) {
    forall t | t in Fired(fs) && t in now && Steady(t) :: now[t].due > end
  }

  lemma OnceMore(fs: seq<Firing<Timer>>, gs: seq<Firing<Timer>>, tick: nat, end: nat, plan: map<Timer, Plan>)
    requires Once(fs) && ExactlyDue(gs, tick, plan) && NoReturn(fs, end, plan) && tick <= end
    ensures Once(fs + gs)
  {
    var hs := fs + gs;
    forall i, j | 0 <= i < j < |hs| && Steady(hs[i].timer) ensures hs[i].timer != hs[j].timer {
      if i < |fs| <= j {
        assert fs[i] in fs && hs[i].timer in Fired(fs);
        assert hs[j] in gs;
      }
    }
  }

  lemma CompleteNext(fs: seq<Firing<Timer>>, gs: seq<Firing<Timer>>, tick: nat, since: int, upto: int,
                     b: Books, c: Books, d: Books)
    requires Complete(fs, tick, b.plan) && Waiting(tick, b.plan, c.plan)
    requires ExactlyDue(gs, tick + 1, c.plan) && Ran(gs, since, upto, c, d)
    ensures Complete(fs + gs, tick + 1, b.plan) && Waiting(tick + 1, b.plan, d.plan)
  {
    forall t | t in b.plan && b.plan[t].due > tick + 1 ensures t in d.plan && d.plan[t] == b.plan[t] {
      assert forall f | f in gs :: f.timer in c.plan && c.plan[f.timer].due == tick + 1;
      assert t !in Fired(gs);
    }
  }

  /** A plan made by now for at least a tick after `end` runs after `end`. */
  lemma RunsAfter(origin: int, p: Plan, end: nat)
    requires Sound(origin, p) && p.made <= end && p.when >= TickTime(origin, end) + TICK
    ensures p.due > end
  {
  }

  /** From `b` to `c`, over the ticks after `from` up to `tick`: exactly `fs` ran, each timer at its tick; everything that
      was due by now, once; what is due later still waits. */
  ghost predicate Served(fs: seq<Firing<Timer>>, since: int, upto: int, from: nat, tick: nat, b: Books, c: Books) {
    && Ran(fs, since, upto, b, c)
    && Once(fs)
    && Complete(fs, tick, b.plan) && Waiting(tick, b.plan, c.plan)
    && (forall f | f in fs :: from < f.tick == f.plan.due <= tick)
  }

  lemma ServedNext(fs: seq<Firing<Timer>>, gs: seq<Firing<Timer>>, since: int, mid: int, upto: int, from: nat, tick: nat, end: nat,
                   b: Books, c: Books, d: Books)
    requires Served(fs, since, mid, from, tick, b, c) && from <= tick < end && mid <= upto
    requires ExactlyDue(gs, tick + 1, c.plan) && Ran(gs, since, upto, c, d) && NoReturn(fs, end, c.plan)
    ensures Served(fs + gs, since, upto, from, tick + 1, b, d)
  {
    RanThen(fs, gs, since, mid, upto, b, c, d);
    OnceMore(fs, gs, tick + 1, end, c.plan);
    CompleteNext(fs, gs, tick, since, upto, b, c, d);
  }

  ghost function Happened(log: seq<Firing<Timer>>): set<Firing<Timer>> {
    set f | f in log
  }

  /** The firings that the pending timers are there for. */
  ghost function Pending(plan: map<Timer, Plan>): set<Firing<Timer>> {
    set t: Timer | t in plan :: Firing(t, plan[t].due, plan[t])
  }

  lemma PendingPush(plan: map<Timer, Plan>, t: Timer, p: Plan)
    requires t !in plan
    ensures Pending(plan[t := p]) == Pending(plan) + {Firing(t, p.due, p)}
  {
    var f: Firing<Timer> := Firing(t, p.due, p);
    var after := plan[t := p];
    assert Firing(t, after[t].due, after[t]) in Pending(after);
    forall g | g in Pending(plan) ensures g in Pending(after) {
      assert g.timer in after && after[g.timer] == g.plan;
    }
  }

  lemma PendingPop(plan: map<Timer, Plan>, t: Timer)
    requires t in plan
    ensures Pending(plan) == Pending(plan - {t}) + {Firing(t, plan[t].due, plan[t])}
  {
    PendingPush(plan - {t}, t, plan[t]);
    assert (plan - {t})[t := plan[t]] == plan;
  }

  /** Every firing ever promised has happened, is pending or was cancelled, and no other has; each that happened did so at
      its tick. Nothing freed is pending. */
  ghost predicate Balanced(origin: int, ticks: nat, made: set<Firing<Timer>>, cancelled: set<Firing<Timer>>, b: Books) {
    && made == Happened(b.log) + Pending(b.plan) + cancelled
    && (forall f | f in made :: f.tick == f.plan.due && f.plan.made <= ticks && Sound(origin, f.plan))
    && (forall f | f in b.log :: f.tick <= ticks)
    && b.freed !! b.plan.Keys
  }

  predicate Audit(k: int) { true }

  /** The same, but spelled out only where `Audit` is named, as the lemmas below do. */
  ghost predicate Sealed(origin: int, ticks: nat, made: set<Firing<Timer>>, cancelled: set<Firing<Timer>>, b: Books) {
    forall k | Audit(k) :: Balanced(origin, ticks, made, cancelled, b)
  }

  lemma SealFile(origin: int, ticks: nat, made: set<Firing<Timer>>, cancelled: set<Firing<Timer>>, b: Books, t: Timer, p: Plan)
    requires Sealed(origin, ticks, made, cancelled, b) && t !in b.plan && t !in b.freed && Sound(origin, p) && p.made <= ticks
    ensures Sealed(origin, ticks, made + {Firing(t, p.due, p)}, cancelled, b.(plan := b.plan[t := p]))
  {
    assert Audit(0);
    PendingPush(b.plan, t, p);
  }

  lemma SealRun(origin: int, ticks: nat, made: set<Firing<Timer>>, cancelled: set<Firing<Timer>>, b: Books, t: Timer)
    requires Sealed(origin, ticks, made, cancelled, b) && t in b.plan && b.plan[t].due <= ticks
    ensures Sealed(origin, ticks, made, cancelled, b.(log := b.log + [Firing(t, b.plan[t].due, b.plan[t])]))
  {
    assert Audit(0);
    var f := Firing(t, b.plan[t].due, b.plan[t]);
    assert f in Pending(b.plan);
    assert Happened(b.log + [f]) == Happened(b.log) + {f};
  }

  lemma SealPop(origin: int, ticks: nat, made: set<Firing<Timer>>, cancelled: set<Firing<Timer>>, b: Books, t: Timer)
    requires Sealed(origin, ticks, made, cancelled, b)
    requires t in b.plan && Firing(t, b.plan[t].due, b.plan[t]) in b.log
    ensures t !in b.freed
    ensures Sealed(origin, ticks, made, cancelled, b.(plan := b.plan - {t}))
  {
    assert Audit(0);
    PendingPop(b.plan, t);
    assert Firing(t, b.plan[t].due, b.plan[t]) in Happened(b.log);
  }

  lemma SealCancel(origin: int, ticks: nat, made: set<Firing<Timer>>, cancelled: set<Firing<Timer>>, b: Books, t: Timer)
    requires Sealed(origin, ticks, made, cancelled, b) && t in b.plan
    ensures Sealed(origin, ticks, made, cancelled + {Firing(t, b.plan[t].due, b.plan[t])}, b.(plan := b.plan - {t}))
  {
    assert Audit(0);
    PendingPop(b.plan, t);
  }

  lemma SealFree(origin: int, ticks: nat, made: set<Firing<Timer>>, cancelled: set<Firing<Timer>>, b: Books, t: Timer)
    requires Sealed(origin, ticks, made, cancelled, b) && t !in b.plan
    ensures Sealed(origin, ticks, made, cancelled, b.(freed := b.freed + {t}))
  {
    assert Audit(0);
  }

  lemma SealTick(origin: int, ticks: nat, made: set<Firing<Timer>>, cancelled: set<Firing<Timer>>, b: Books)
    requires Sealed(origin, ticks, made, cancelled, b)
    ensures Sealed(origin, ticks + 1, made, cancelled, b)
  {
    assert Audit(0);
  }

  /** What the seal says of a pending timer. */
  lemma SealedPlan(origin: int, ticks: nat, made: set<Firing<Timer>>, cancelled: set<Firing<Timer>>, b: Books, t: Timer)
    requires Sealed(origin, ticks, made, cancelled, b) && t in b.plan
    ensures Sound(origin, b.plan[t]) && b.plan[t].made <= ticks && t !in b.freed
  {
    assert Audit(0);
    assert Firing(t, b.plan[t].due, b.plan[t]) in Pending(b.plan);
  }

  class TimeWheel {
    const slot: array<Timer?>
    const numSlot: int
    var start: int       // the time of the current tick
    var startIdx: int    // its slot

    ghost const origin: int              // the time of tick 0
    var clock: int       // the latest time anyone has read
    ghost var ticks: nat                 // ticks so far
    ghost var chains: seq<seq<Timer>>    // the lists, slot by slot
    ghost var plan: map<Timer, Plan>     // the pending timers
    ghost var freed: set<Timer>
    ghost var log: seq<Firing<Timer>>    // every callback run, in order
    ghost var made: set<Firing<Timer>>   // every firing ever promised
    ghost var cancelled: set<Firing<Timer>>
    ghost var asked: int                 // the latest time a timer was filed for

    ghost predicate Clocked()
      reads this
    {
      && slot.Length == numSlot && numSlot > 0
      && start == TickTime(origin, ticks) && startIdx == ticks % numSlot
    }

    ghost predicate Recorded()
      reads this
    {
      Sealed(origin, ticks, made, cancelled, Books())
    }

    ghost function Books(): Books
      reads this
    {
      Accounts(plan, freed, log)
    }

    /** Pending timers are due within one turn, from tick `low` on. */
    ghost predicate DueFrom(low: nat)
      reads this
    {
      forall t | t in plan :: low <= plan[t].due < low + numSlot
    }

    /** Where the list of slot `s` starts; that of the current slot starts at `head`. */
    ghost function Head(s: int, head: Timer?): Timer?
      requires 0 <= s < slot.Length
      reads this, slot
    {
      if s == startIdx then head else slot[s]
    }

    ghost predicate Linked(head: Timer?)
      requires slot.Length == |chains| && Tables(chains, |chains|, plan)
      reads this, slot, plan.Keys
    {
      forall s | 0 <= s < |chains| ::
        HoldsDue(chains[s], s, |chains|, plan) && ListOf(Head(s, head), chains[s], s)
    }

    ghost predicate State(low: nat, head: Timer?)
      reads this, slot, plan.Keys
    {
      Clocked() && Recorded() && DueFrom(low) && Tables(chains, numSlot, plan) && Linked(head)
    }

    ghost predicate Valid()
      reads this, slot, plan.Keys
    {
      Clocked() && State(ticks + 1, slot[startIdx])
    }

    /** In the middle of a walk: `head` starts what is left of the current slot's list, all of it due now. */
    ghost predicate Walking(head: Timer?)
      reads this, slot, plan.Keys
    {
      State(ticks, head)
    }

    constructor (numBucket: nat, now: int)
      requires numBucket > 0
      ensures Valid() && fresh(slot) && numSlot == numBucket && start == now && plan == map[] && log == [] && freed == {} && made == {}
      ensures clock == now
    {
      slot := new Timer?[numBucket](_ => null);
      numSlot := numBucket;
      start, startIdx := now, 0;
      origin, clock, ticks, asked := now, now, 0, now;
      chains := seq(numBucket, _ => []);
      plan, freed, log, made, cancelled := map[], {}, [], {}, {};
    }

    /** The clock: any time that is not before the last one. */
    method Now() returns (t: int)
      modifies this`clock
      ensures old(clock) <= t == clock
    {
      t :| t >= clock;
      clock := t;
    }

    /** Files a timer, at the front of its slot's list. During a walk (`walked`) the walked slot takes no timer: the
        original would then tie it to a list that is being taken apart. */
    method File(timer: Timer, when: int, ghost head: Timer?, walked: bool) returns (ok: bool)
      requires if walked then Walking(head) else Valid() && head == slot[startIdx]
      requires timer !in plan && timer !in freed && timer.next == null
      modifies this`chains, this`plan, this`made, this`asked, slot, timer
      ensures var index := Aim(start, startIdx, numSlot, when);
              ok == (index >= 0 && (walked ==> index != startIdx))
      ensures asked == when
      ensures ok ==> if walked then Walking(head) else Valid()
      ensures ok ==> timer.index == Aim(start, startIdx, numSlot, when)
      ensures ok ==> plan == old(plan)[timer := Plan(when, ticks, ticks + Ahead(startIdx, timer.index, numSlot))]
      ensures ok && walked ==> chains[startIdx] == old(chains[startIdx])
      ensures made == old(made) + if ok then {Firing(timer, plan[timer].due, plan[timer])} else {}
    {
      asked := when;
      var index := Aim(start, startIdx, numSlot, when);
      AimMeans(origin, ticks, numSlot, when);
      if index < 0 || (walked && index == startIdx) { return false; }
      AheadArrives(ticks, index, numSlot);
      ghost var p := Plan(when, ticks, ticks + Ahead(startIdx, index, numSlot));
      Push(timer, index, p, head);
      ok := true;
    }

    /** Puts a timer in front of a slot's list. */
    method Push(timer: Timer, index: int, ghost p: Plan, ghost head: Timer?)
      requires Clocked() && Tables(chains, numSlot, plan) && Linked(head) && Recorded()
      requires timer !in plan && timer !in freed && timer.next == null
      requires 0 <= index < numSlot && p.due % numSlot == index && Sound(origin, p) && p.made <= ticks
      requires head == slot[startIdx] || index != startIdx
      modifies this`chains, this`plan, this`made, slot, timer
      ensures Clocked() && Tables(chains, numSlot, plan) && Recorded()
      ensures Linked(if index == startIdx then slot[index] else head)
      ensures slot[..] == old(slot[..])[index := timer] && timer.index == index
      ensures plan == old(plan)[timer := p] && chains == old(chains)[index := [timer] + old(chains)[index]]
      ensures made == old(made) + {Firing(timer, p.due, p)}
    {
      SealFile(origin, ticks, made, cancelled, Books(), timer, p);
      made := made + {Firing(timer, p.due, p)};
      TablesPush(chains, numSlot, plan, timer, p);
      LinkFront(timer, index, head);
      chains := chains[index := [timer] + chains[index]];
      plan := plan[timer := p];
      ghost var newHead := if index == startIdx then timer else head;
      assert forall s | 0 <= s < numSlot :: ListOf(Head(s, newHead), chains[s], s);
    }

    /** The writes themselves. */
    method LinkFront(timer: Timer, index: int, ghost head: Timer?)
      requires Clocked() && Tables(chains, numSlot, plan) && Linked(head)
      requires timer !in plan && timer.next == null && 0 <= index < numSlot
      requires head == slot[startIdx] || index != startIdx
      modifies slot, timer
      ensures slot[..] == old(slot[..])[index := timer] && timer.index == index
      ensures ListOf(timer, [timer] + chains[index], index)
      ensures forall s | 0 <= s < numSlot && s != index :: ListOf(Head(s, head), chains[s], s)
    {
      assert ListOf(Head(index, head), chains[index], index);
      assert forall s | 0 <= s < numSlot :: HoldsDue(chains[s], s, numSlot, plan) && timer !in chains[s];
      if slot[index] != null { timer.next := slot[index]; }
      slot[index] := timer;
      timer.index := index;
      ListPush(timer, chains[index], index);
      forall s | 0 <= s < numSlot && s != index ensures ListOf(Head(s, head), chains[s], s) {
        assert old(ListOf(Head(s, head), chains[s], s));
      }
    }

    // ---- Adding and cancelling ----------------------------------------------------------------------

    /** A request the wheel can keep: at least one tick ahead, less than one turn. */
    ghost predicate InRange(when: int)
      reads this
    {
      start + TICK <= when < start + TICK * numSlot
    }

    /** addTimer from the reactor's own thread, outside a walk or from a callback. A time in the past stops the program,
        and so does one a turn or more ahead. */
    method AddTimer(when: int, interval: nat, ghost head: Timer?, walked: bool) returns (timer: Timer, ok: bool)
      requires if walked then Walking(head) else Valid() && head == slot[startIdx]
      modifies this`chains, this`plan, this`made, this`asked, slot
      ensures fresh(timer) && timer.expiration == when && timer.interval == interval && asked == when
      ensures ok <==> (if walked then start + TICK else start) <= when < start + TICK * numSlot
      ensures ok ==> if walked then Walking(head) else Valid()
      ensures ok ==> timer !in old(plan) && timer in plan && plan == old(plan)[timer := plan[timer]]
      ensures ok ==> plan[timer].when == when && plan[timer].made == ticks
      ensures ok ==> (OnTime(origin, plan[timer]) <==> when >= start + TICK)
      ensures ok && walked ==> chains[startIdx] == old(chains[startIdx])
      ensures made == old(made) + if ok then {Firing(timer, plan[timer].due, plan[timer])} else {}
    {
      assert head == slot[startIdx] || walked;
      timer := new Timer(when, interval);
      AimMeans(origin, ticks, numSlot, when);
      if when < start {
        asked := when;
        return timer, false;
      }
      ok := File(timer, timer.expiration, head, walked);
    }

    // ---- Running what is due --------------------------------------------------------------------------

    /** A callback: it takes its time and adds any timers it likes. */
    method RunCallback(ghost head: Timer) returns (ok: bool)
      requires Walking(head)
      modifies this`clock, this`chains, this`plan, this`made, this`asked, slot
      ensures old(made) <= made
      ensures old(clock) <= clock
      ensures ok ==> Walking(head) && chains[startIdx] == old(chains[startIdx])
      ensures ok ==> Keeps(old(plan), plan, {}) && fresh(plan.Keys - old(plan.Keys))
      ensures !ok ==> !InRange(asked)
    {
      var requests: nat := *;
      ok := true;
      while ok && requests > 0
        invariant old(clock) <= clock && old(made) <= made
        invariant ok ==> Walking(head)
        invariant ok ==> chains[startIdx] == old(chains[startIdx])
        invariant ok ==> Keeps(old(plan), plan, {}) && fresh(plan.Keys - old(plan.Keys))
        invariant !ok ==> !InRange(asked)
        decreases requests
      {
        var when: int, interval: nat := *, *;
        var now := Now();
        var timer;
        timer, ok := AddTimer(when, interval, head, true);
        requests := requests - 1;
      }
    }

    /** Takes the first timer off the list being walked. */
    method Pop(head: Timer) returns (rest: Timer?)
      requires Walking(head) && head in plan && Firing(head, plan[head].due, plan[head]) in log
      modifies this`chains, this`plan, head
      ensures Walking(rest) && head.next == null && head !in freed
      ensures old(chains[startIdx]) == [head] + chains[startIdx]
      ensures head in old(plan) && plan == old(plan) - {head}
    {
      assert ListOf(Head(startIdx, head), chains[startIdx], startIdx);
      ghost var was, c := chains, chains[startIdx];
      assert c[0] == head;
      ListPop(head, c, startIdx);
      rest := head.next;
      SealPop(origin, ticks, made, cancelled, Books(), head);
      TablesPop(was, numSlot, plan, startIdx);
      head.next := null;
      chains := was[startIdx := c[1..]];
      plan := plan - {head};
      forall s | 0 <= s < numSlot ensures ListOf(Head(s, rest), chains[s], s) {
        if s != startIdx { assert old(ListOf(Head(s, head), chains[s], s)); }
      }
    }

    /** Frees a timer that has run, or files it again for its interval after the time `at` that it reads. */
    method Settle(timer: Timer, ghost rest: Timer?, ghost since: int) returns (ok: bool, ghost at: int)
      requires Walking(rest) && timer !in plan && timer !in freed && timer.next == null && since <= clock
      modifies this`clock, this`chains, this`plan, this`made, this`asked, this`freed, slot, timer
      ensures old(made) <= made
      ensures old(clock) <= clock
      ensures ok ==> Walking(rest) && chains[startIdx] == old(chains[startIdx])
      ensures old(clock) <= at <= clock && (timer.interval > 0 ==> asked == at + timer.interval)
      ensures ok && timer.interval > 0 ==> timer in plan && plan[timer].when == at + timer.interval
      ensures ok ==> Settled(timer, since, clock, Books()) && Keeps(old(plan), plan, {}) && plan.Keys <= old(plan).Keys + {timer}
      ensures ok ==> freed == old(freed) + if timer.interval == 0 then {timer} else {}
      ensures !ok ==> !InRange(asked)
    {
      at := clock;
      if timer.interval > 0 {
        var now := Now();
        at := now;
        AimMeans(origin, ticks, numSlot, now + timer.interval);
        ok := File(timer, now + timer.interval, rest, true);
      } else {
        SealFree(origin, ticks, made, cancelled, Books(), timer);
        freed := freed + {timer};
        ok := true;
      }
    }

    /** What heads a walked list is due now. */
    lemma HeadIsDue(head: Timer)
      requires Walking(head)
      ensures head in plan && plan[head].due == ticks && head.index == startIdx
      ensures chains[startIdx] != [] && chains[startIdx][0] == head
    {
      assert ListOf(Head(startIdx, head), chains[startIdx], startIdx);
      assert chains[startIdx][0] == head;
      assert HoldsDue(chains[startIdx], startIdx, numSlot, plan);
      OneTickASlot(ticks, plan[head].due, numSlot);
    }

    /** Runs the first timer of the walked list. */
    method Run(head: Timer) returns (ok: bool)
      requires Walking(head)
      modifies this`clock, this`chains, this`plan, this`made, this`asked, this`log, slot
      ensures old(made) <= made
      ensures old(clock) <= clock
      ensures head in old(plan) && log == old(log) + [Firing(head, ticks, old(plan)[head])]
      ensures ok ==> head in plan && Firing(head, plan[head].due, plan[head]) in log
      ensures ok ==> Walking(head) && chains[startIdx] == old(chains[startIdx])
      ensures ok ==> Keeps(old(plan), plan, {}) && fresh(plan.Keys - old(plan.Keys))
      ensures !ok ==> !InRange(asked)
    {
      HeadIsDue(head);
      assert startIdx == head.index;
      SealRun(origin, ticks, made, cancelled, Books(), head);
      log := log + [Firing(head, ticks, plan[head])];
      ok := RunCallback(head);
    }

    /** Takes the timer that has just run off the list, and frees it or files it again. */
    method Release(head: Timer, ghost since: int) returns (rest: Timer?, ok: bool, ghost at: int)
      requires Walking(head) && head in plan && Firing(head, plan[head].due, plan[head]) in log && since <= clock
      modifies this`clock, this`chains, this`plan, this`made, this`asked, this`freed, slot, head
      ensures old(made) <= made
      ensures old(clock) <= clock
      ensures ok ==> Walking(rest) && old(chains[startIdx]) == [head] + chains[startIdx]
      ensures old(clock) <= at <= clock
      ensures ok && head.interval > 0 ==> head in plan && plan[head].when == at + head.interval
      ensures ok ==> Settled(head, since, clock, Books()) && Keeps(old(plan), plan, {head}) && plan.Keys <= old(plan).Keys
      ensures ok ==> freed == old(freed) + if head.interval == 0 then {head} else {}
      ensures !ok ==> !InRange(asked)
    {
      rest := Pop(head);
      ok, at := Settle(head, rest, since);
    }

    /** Runs the first timer of the walked list, then frees it or files it again for its interval after the time `at`, read
        when the callback has returned. */
    method FireOne(head: Timer, ghost since: int) returns (rest: Timer?, ok: bool, ghost ran: int, ghost at: int)
      requires Walking(head) && since <= clock
      modifies this`clock, this`chains, this`plan, this`made, this`asked, this`freed, this`log, slot, head
      ensures old(made) <= made
      ensures old(clock) <= clock
      ensures ok ==> Walking(rest)
      ensures ok ==> old(chains[startIdx]) == [head] + chains[startIdx]
      ensures ok ==> head in old(plan) && Ran([Firing(head, ticks, old(plan)[head])], since, clock, old(Books()), Books())
      ensures old(clock) <= ran <= at <= clock
      ensures ok && head.interval > 0 ==> head in plan && plan[head].when == at + head.interval
      ensures ok ==> fresh(plan.Keys - old(plan.Keys))
      ensures !ok ==> !InRange(asked)
    {
      ghost var b := Books();
      ok := Run(head);
      ran := clock;
      if !ok { return null, false, ran, ran; }
      rest, ok, at := Release(head, since);
      if ok { RanOne(Firing(head, ticks, b.plan[head]), since, clock, b, Books()); }
    }

    /** `k` timers of the list `due` have run, the rest begins at `head`. */
    ghost predicate Midway(head: Timer?, due: seq<Timer>, k: nat, since: int, b: Books)
      requires forall t | t in due :: t in b.plan
      reads this, slot, plan.Keys
    {
      && k <= |due| && Walking(head) && chains[startIdx] == due[k..]
      && since <= clock && Ran(Batch(due[..k], ticks, b.plan), since, clock, b, Books())
    }

    method FireNext(head: Timer, ghost due: seq<Timer>, ghost k: nat, ghost since: int, ghost b: Books)
      returns (rest: Timer?, ok: bool)
      requires forall t | t in due :: t in b.plan
      requires forall i, j | 0 <= i < j < |due| :: due[i] != due[j]
      requires Midway(head, due, k, since, b)
      modifies this`clock, this`chains, this`plan, this`made, this`asked, this`freed, this`log, slot, plan.Keys
      ensures old(made) <= made
      ensures old(clock) <= clock
      ensures ok ==> Midway(rest, due, k + 1, since, b)
      ensures ok ==> fresh(plan.Keys - old(plan.Keys))
      ensures !ok ==> !InRange(asked)
    {
      ghost var b1 := Books();
      HeadIsDue(head);
      assert due[k] == head && due[k..] == [head] + due[k + 1..];
      ghost var mid, ran, at := clock, clock, clock;
      rest, ok, ran, at := FireOne(head, since);
      if ok { BatchGrows(due, k, ticks, since, mid, clock, b, b1, Books()); }
    }

    method FireAll(first: Timer?, ghost due: seq<Timer>, ghost since: int, ghost b: Books) returns (ok: bool)
      requires forall t | t in due :: t in b.plan
      requires forall i, j | 0 <= i < j < |due| :: due[i] != due[j]
      requires Midway(first, due, 0, since, b)
      modifies this`clock, this`chains, this`plan, this`made, this`asked, this`freed, this`log, slot, plan.Keys
      ensures old(made) <= made
      ensures old(clock) <= clock
      ensures ok ==> Midway(null, due, |due|, since, b)
      ensures ok ==> fresh(plan.Keys - old(plan.Keys))
      ensures !ok ==> !InRange(asked)
    {
      var head := first;
      ghost var k := 0;
      ok := true;
      while head != null
        invariant old(clock) <= clock && old(made) <= made
        invariant k <= |due| && Midway(head, due, k, since, b)
        invariant fresh(plan.Keys - old(plan.Keys))
        decreases |due| - k
      {
        HeadIsDue(head);
        head, ok := FireNext(head, due, k, since, b);
        if !ok { return false; }
        k := k + 1;
      }
      assert ListOf(Head(startIdx, head), chains[startIdx], startIdx);
    }

    /** Walks the current slot's list to its end: everything due now runs once, front first. */
    method Walk(ghost since: int) returns (ok: bool)
      requires Clocked() && Walking(slot[startIdx]) && since <= clock
      modifies this`clock, this`chains, this`plan, this`made, this`asked, this`freed, this`log, slot, plan.Keys
      ensures old(made) <= made
      ensures old(clock) <= clock
      ensures ok ==> Valid()
      ensures forall t | t in old(chains[startIdx]) :: t in old(plan)
      ensures ok ==> Ran(Batch(old(chains[startIdx]), ticks, old(plan)), since, clock, old(Books()), Books())
      ensures ok ==> fresh(plan.Keys - old(plan.Keys))
      ensures !ok ==> !InRange(asked)
    {
      ghost var due, b := chains[startIdx], Books();
      assert HoldsDue(due, startIdx, numSlot, plan) && ListOf(Head(startIdx, slot[startIdx]), due, startIdx);
      assert due[0..] == due && due[..|due|] == due;
      ok := FireAll(slot[startIdx], due, since, b);
      if ok { FinishWalk(); }
    }

    /** The walked list is empty now. */
    method FinishWalk()
      requires Walking(null)
      modifies slot
      ensures Valid()
    {
      assert ListOf(Head(startIdx, null), chains[startIdx], startIdx);
      assert HoldsDue(chains[startIdx], startIdx, numSlot, plan);
      slot[startIdx] := null;
      forall s | 0 <= s < numSlot
        ensures HoldsDue(chains[s], s, numSlot, plan) && ListOf(Head(s, null), chains[s], s)
      {
        assert old(ListOf(Head(s, null), chains[s], s));
      }
    }

    lemma BatchIsDue(c: seq<Timer>)
      requires Clocked() && Walking(slot[startIdx]) && c == chains[startIdx]
      ensures (forall t | t in c :: t in plan) && ExactlyDue(Batch(c, ticks, plan), ticks, plan)
    {
      assert HoldsDue(c, startIdx, numSlot, plan) && ListOf(Head(startIdx, slot[startIdx]), c, startIdx);
      var fs := Batch(c, ticks, plan);
      forall t | t in c ensures plan[t].due == ticks { OneTickASlot(ticks, plan[t].due, numSlot); }
      forall t: Timer | t in plan && plan[t].due == ticks ensures Firing(t, ticks, plan[t]) in fs {
        var i :| 0 <= i < |c| && c[i] == t;
        assert fs[i] == Firing(t, ticks, plan[t]);
      }
    }

    /** The wheel moves on one slot and runs everything due. */
    method Tick(ghost since: int) returns (ok: bool, ghost fs: seq<Firing<Timer>>)
      requires Valid() && since <= clock
      modifies this, slot, plan.Keys
      ensures old(made) <= made && cancelled == old(cancelled)
      ensures old(clock) <= clock && ticks == old(ticks) + 1 && start == old(start) + TICK
      ensures ok ==> Valid() && ExactlyDue(fs, ticks, old(plan)) && Ran(fs, since, clock, old(Books()), Books())
      ensures ok ==> fresh(plan.Keys - old(plan.Keys))
      ensures !ok ==> !InRange(asked)
    {
      NextSlot(ticks, numSlot);
      SealTick(origin, ticks, made, cancelled, Books());
      startIdx := (startIdx + 1) % numSlot;
      start := start + TICK;
      ticks := ticks + 1;
      ok := true;
      assert Walking(slot[startIdx]);
      BatchIsDue(chains[startIdx]);
      fs := Batch(chains[startIdx], ticks, plan);
      if slot[startIdx] != null {
        ok := Walk(since);
      } else {
        Idle();
      }
    }

    /** An empty slot leaves nothing to do. */
    lemma Idle()
      requires Clocked() && slot[startIdx] == null && Walking(null)
      ensures Valid() && chains[startIdx] == []
    {
      assert ListOf(Head(startIdx, null), chains[startIdx], startIdx);
      assert HoldsDue(chains[startIdx], startIdx, numSlot, plan);
    }

    /** A timer that has run comes back only after `end`, when the clock had passed `end` before any ran. */
    lemma NoneReturns(fs: seq<Firing<Timer>>, since: int, upto: int, end: nat, b: Books)
      requires Valid() && Ran(fs, since, upto, b, Books()) && since >= TickTime(origin, end) && ticks <= end
      ensures NoReturn(fs, end, plan)
    {
      forall t | t in Fired(fs) && t in plan && Steady(t) ensures plan[t].due > end {
        SealedPlan(origin, ticks, made, cancelled, Books(), t);
        assert Settled(t, since, upto, Books());
        RunsAfter(origin, plan[t], end);
      }
    }

    /** Catches up with the clock, one slot a tick, whatever the callbacks add meanwhile. It stops early only when a timer
        was filed outside the wheel's range. The times `fs` ran at are the ticks they were planned for; afterwards the wheel
        is behind the time it read by less than a tick. */
    method Tock() returns (ok: bool, ghost now: int, ghost fs: seq<Firing<Timer>>)
      requires Valid()
      modifies this, slot, plan.Keys
      ensures old(made) <= made && cancelled == old(cancelled)
      ensures old(clock) <= now <= clock
      ensures ok ==> Valid() && Served(fs, now, clock, old(ticks), ticks, old(Books()), Books())
      ensures ok ==> fresh(plan.Keys - old(plan.Keys))
      ensures ok ==> if now < old(start) then start == old(start) else start <= now < start + TICK
      ensures !ok ==> !InRange(asked)
    {
      var time := Now();
      time := Now();
      now := time;
      var diff := Quotient(time - start, TICK);
      ghost var b, from := Books(), ticks;
      ghost var end := if diff > 0 then ticks + diff else ticks;
      fs := [];
      ok := true;
      var i := 1;
      while i <= diff
        invariant 1 <= i && (i <= diff + 1 || i == 1)
        invariant now <= clock && ticks == from + i - 1 && Valid()
        invariant old(made) <= made && cancelled == old(cancelled)
        invariant Served(fs, now, clock, from, ticks, b, Books())
        invariant fresh(plan.Keys - old(plan.Keys))
      {
        ok, fs := TickOn(fs, now, from, end, b);
        if !ok { return; }
        i := i + 1;
      }
    }

    /** One tick of several. */
    method TickOn(ghost fs: seq<Firing<Timer>>, ghost since: int, ghost from: nat, ghost end: nat, ghost b: Books)
      returns (ok: bool, ghost hs: seq<Firing<Timer>>)
      requires Valid() && TickTime(origin, end) <= since <= clock && from <= ticks < end
      requires Served(fs, since, clock, from, ticks, b, Books())
      modifies this, slot, plan.Keys
      ensures old(made) <= made && cancelled == old(cancelled)
      ensures old(clock) <= clock && ticks == old(ticks) + 1 && start == old(start) + TICK
      ensures ok ==> Valid() && Served(hs, since, clock, from, ticks, b, Books())
      ensures ok ==> fresh(plan.Keys - old(plan.Keys))
      ensures !ok ==> !InRange(asked)
    {
      ghost var c, gs := Books(), [];
      ghost var mid := clock;
      NoneReturns(fs, since, clock, end, b);
      ok, gs := Tick(since);
      hs := fs + gs;
      if ok { ServedNext(fs, gs, since, mid, clock, from, ticks - 1, end, b, c, Books()); }
    }

    // ---- Cancelling ------------------------------------------------------------------------------------

    /** Cancels a timer that heads its list, the last one filed under its slot. For any other the original follows a
        back link that is never set; `ok` is then false and nothing is claimed beyond that. */
    method Cancel(timer: Timer) returns (ok: bool)
      requires Valid() && timer in plan
      modifies this`chains, this`plan, this`freed, this`cancelled, slot
      ensures Valid()
      ensures ok ==> plan == old(plan) - {timer} && freed == old(freed) + {timer}
      ensures !ok ==> plan == old(plan) && freed == old(freed)
      ensures var s := old(plan)[timer].due % numSlot;
              ok <==> old(chains)[s][0] == timer
    {
      ghost var s := plan[timer].due % numSlot;
      assert HoldsDue(chains[s], s, numSlot, plan) && ListOf(Head(s, slot[startIdx]), chains[s], s);
      ok := slot[timer.index] == timer;
      if ok {
        ListPop(timer, chains[s], s);
        TablesPop(chains, numSlot, plan, s);
        slot[timer.index] := timer.next;
        ghost var was := chains;
        chains := was[s := was[s][1..]];
        SealCancel(origin, ticks, made, cancelled, Books(), timer);
        SealFree(origin, ticks, made, cancelled + {Firing(timer, plan[timer].due, plan[timer])},
                 Books().(plan := plan - {timer}), timer);
        freed, cancelled := freed + {timer}, cancelled + {Firing(timer, plan[timer].due, plan[timer])};
        plan := plan - {timer};
        forall r | 0 <= r < numSlot ensures ListOf(Head(r, slot[startIdx]), chains[r], r) {
          assert old(ListOf(Head(r, slot[startIdx]), was[r], r));
        }
      }
    }

    // ---- What it all comes to ----------------------------------------------------------------------------

    /** A slot holds exactly the pending timers whose due tick maps to it, and they are all due at the same tick. */
    lemma SlotHoldsOneTick(s: nat)
      requires Valid() && s < numSlot
      ensures |chains| == numSlot && ListOf(slot[s], chains[s], s)
      ensures forall t: Timer :: t in chains[s] <==> t in plan && plan[t].due % numSlot == s
      ensures forall t | t in chains[s] :: t in plan && plan[t].due == ticks + Ahead(startIdx, s, numSlot)
    {
      assert HoldsDue(chains[s], s, numSlot, plan) && ListOf(Head(s, slot[startIdx]), chains[s], s);
      AheadArrives(ticks, s, numSlot);
      var due := ticks + Ahead(startIdx, s, numSlot);
      forall t | t in chains[s] ensures plan[t].due == due {
        if plan[t].due <= due {
          OneTickASlot(plan[t].due, due, numSlot);
        } else {
          OneTickASlot(due, plan[t].due, numSlot);
        }
      }
    }

    /** Between calls, every firing promised for a tick that has passed has happened, unless cancelled; every firing that
        happened was promised, at that tick, which was the time asked for if and only if that was a tick ahead. */
    lemma PromisesKept()
      requires Valid()
      ensures forall f | f in made && f.tick <= ticks :: f in log || f in cancelled
      ensures forall f | f in log :: f in made && f.tick == f.plan.due <= ticks
      ensures forall f | f in log :: OnTime(origin, f.plan) <==> f.plan.when >= TickTime(origin, f.plan.made) + TICK
      ensures forall t | t in freed :: t !in plan
    {
      assert Audit(0);
      forall f | f in made && f.tick <= ticks ensures f in log || f in cancelled {
        assert forall g | g in Pending(plan) :: g.timer in plan && plan[g.timer].due == g.tick;
        assert f !in Pending(plan);
      }
      forall f | f in log ensures f in made && f.tick == f.plan.due && Sound(origin, f.plan) {
        assert f in Happened(log);
      }
    }
  }

  datatype Command = Add(when: int, interval: nat) | CancelFirst(slot: nat) | Tock

  /** Any commands at all on a new wheel. It serves them all, or stops at a timer filed outside its range. */
  method Drive(numBucket: nat, now: int, commands: seq<Command>) returns (w: TimeWheel, ok: bool)
    requires numBucket > 0
    ensures ok ==> w.Valid()
    ensures ok ==> forall f | f in w.made && f.tick <= w.ticks :: f in w.log || f in w.cancelled
    ensures ok ==> forall f | f in w.log :: f in w.made && f.tick == f.plan.due
    ensures !ok ==> !w.InRange(w.asked)
  {
    w := new TimeWheel(numBucket, now);
    ok := true;
    var i := 0;
    while i < |commands|
      invariant fresh(w) && fresh(w.slot) && w.Valid() && fresh(w.plan.Keys)
    {
      ok := Obey(w, commands[i]);
      if !ok { return; }
      i := i + 1;
    }
    w.PromisesKept();
  }

  method Obey(w: TimeWheel, c: Command) returns (ok: bool)
    requires w.Valid()
    modifies w, w.slot, w.plan.Keys
    ensures ok ==> w.Valid() && fresh(w.plan.Keys - old(w.plan.Keys))
    ensures !ok ==> !w.InRange(w.asked)
  {
    match c {
      case Add(when, interval) =>
        var t;
        t, ok := w.AddTimer(when, interval, w.slot[w.startIdx], false);
      case CancelFirst(s) =>
        if s < w.numSlot && w.slot[s] != null {
          w.SlotHoldsOneTick(s);
          ok := w.Cancel(w.slot[s]);
        }
        ok := true;
      case Tock =>
        ghost var time, fs;
        ok, time, fs := w.Tock();
    }
  }
}
