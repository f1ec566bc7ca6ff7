/** The lock-free-read sorted list as a machine of interleaved threads.

    Each `Tick` lets one thread make one access to shared memory: one field of one node, or one
    `test_and_set`/`clear` of a node's spin lock. Nodes are never freed. An entry is its place in the
    comparator's order (`key`, one number per class of equivalent values) together with the rest of it. */
module LazyList {

  datatype Entry = Entry(key: nat, payload: int)

  datatype Node = Node(entry: Entry, next: int, marked: bool)

  const HEAD := 0
  const TAIL := 1
  const NULL := -1
  const FREE := -1

  datatype Op = Add(entry: Entry) | Remove(at: nat) | Get(at: nat) | Contains(at: nat)

  /** What a call has decided so far: try again, a boolean answer, an entry, or the empty value `T()`. */
  datatype Outcome = Retry | Answer(ok: bool) | Found(entry: Entry) | Missing

  datatype Pc =
    | Idle | Start | Test | Advance
    | LockPred | LockCurr | CheckPred | CheckCurr | CheckLink | Compare
    | Mark | ReadNext | Unlink | Overwrite | Alloc | Link
    | UnlockCurr | UnlockPred
    | GetMarked | GetCompare | GetEntry | HasCompare | HasMarked
    | Done

  datatype Local = Local(pc: Pc, op: Op, pred: int, curr: int, tmp: int, out: Outcome)

  datatype State = State(nodes: seq<Node>, owner: seq<int>, threads: seq<Local>)

  datatype Event = Call(t: nat, op: Op) | Tick(t: nat)

  function KeyOf(op: Op): nat {
    if op.Add? then op.entry.key else op.at
  }

  predicate Updates(op: Op) {
    op.Add? || op.Remove?
  }

  predicate Active(l: Local) {
    !l.pc.Idle? && !l.pc.Done?
  }

  /** The thread's two node pointers can be dereferenced. */
  predicate PointersValid(s: State, l: Local) {
    0 <= l.pred < |s.nodes| && 0 <= l.curr < |s.nodes| && (l.pc.Link? ==> 0 <= l.tmp < |s.nodes|)
  }

  predicate Shaped(s: State) {
    |s.nodes| >= 2 && |s.owner| == |s.nodes|
  }

  function Init(threads: nat, default: Entry, max: Entry): State {
    State([Node(default, TAIL, false), Node(max, NULL, false)],
          [FREE, FREE],
          seq(threads, _ => Local(Idle, Get(0), HEAD, HEAD, NULL, Retry)))
  }

  function SetLocal(s: State, t: nat, l: Local): State
    requires t < |s.threads|
  {
    s.(threads := s.threads[t := l])
  }

  function SetNode(s: State, i: int, n: Node): State
    requires 0 <= i < |s.nodes|
  {
    s.(nodes := s.nodes[i := n])
  }

  function SetOwner(s: State, i: int, who: int): State
    requires 0 <= i < |s.owner|
  {
    s.(owner := s.owner[i := who])
  }

  /** Where the walk goes once `curr`'s key is not below the wanted one. */
  function AfterWalk(op: Op): Pc {
    match op
    case Add(_) => LockPred
    case Remove(_) => LockPred
    case Get(_) => GetMarked
    case Contains(_) => HasCompare
  }

  /** The steps that read one field of one node: how they change the thread's locals. */
  function Read(nodes: seq<Node>, l: Local): Local
    requires 2 <= |nodes| && 0 <= l.pred < |nodes| && 0 <= l.curr < |nodes|
  {
    var key := KeyOf(l.op);
    var curr := nodes[l.curr];
    match l.pc
    case Start => l.(pred := HEAD, curr := nodes[HEAD].next, pc := Test)
    case Test => l.(pc := if curr.entry.key < key then Advance else AfterWalk(l.op))
    case Advance => l.(pred := l.curr, curr := curr.next, pc := Test)
    // validate( pred, curr ), with both locks held
    case CheckPred => if nodes[l.pred].marked then l.(pc := UnlockCurr, out := Retry) else l.(pc := CheckCurr)
    case CheckCurr => if curr.marked then l.(pc := UnlockCurr, out := Retry) else l.(pc := CheckLink)
    case CheckLink => if nodes[l.pred].next == l.curr then l.(pc := Compare) else l.(pc := UnlockCurr, out := Retry)
    case Compare =>
      if l.op.Add? then l.(pc := if curr.entry.key == key then Overwrite else Alloc)
      else if curr.entry.key == key then l.(pc := Mark)
      else l.(pc := UnlockCurr, out := Answer(false))
    case ReadNext => l.(tmp := curr.next, pc := Unlink)
    // get: marked() first, then equal(), then the entry itself
    case GetMarked => if curr.marked then l.(pc := Done, out := Missing) else l.(pc := GetCompare)
    case GetCompare => if curr.entry.key == key then l.(pc := GetEntry) else l.(pc := Done, out := Missing)
    case GetEntry => l.(pc := Done, out := Found(curr.entry))
    // contains: equal() first, then marked()
    case HasCompare => if curr.entry.key == key then l.(pc := HasMarked) else l.(pc := Done, out := Answer(false))
    case HasMarked => l.(pc := Done, out := Answer(!curr.marked))
    case _ => l
  }

  /** One shared access of thread `t`, and the local assignments that go with it. */
  function Step(s: State, t: nat): State
    requires Shaped(s) && t < |s.threads| && PointersValid(s, s.threads[t])
  {
    var l := s.threads[t];
    match l.pc
    case LockPred =>
      if s.owner[l.pred] == FREE then SetLocal(SetOwner(s, l.pred, t), t, l.(pc := LockCurr)) else s
    case LockCurr =>
      if s.owner[l.curr] == FREE then SetLocal(SetOwner(s, l.curr, t), t, l.(pc := CheckPred)) else s
    case Mark =>
      SetLocal(SetNode(s, l.curr, s.nodes[l.curr].(marked := true)), t, l.(pc := ReadNext))
    case Unlink =>
      SetLocal(SetNode(s, l.pred, s.nodes[l.pred].(next := l.tmp)), t, l.(pc := UnlockCurr, out := Answer(true)))
    case Overwrite =>
      if l.op.Add? then
        SetLocal(SetNode(s, l.curr, s.nodes[l.curr].(entry := l.op.entry)), t,
                 l.(pc := UnlockCurr, out := Answer(true)))
      else s
    case Alloc =>
      if l.op.Add? then
        State(s.nodes + [Node(l.op.entry, l.curr, false)], s.owner + [FREE],
              s.threads[t := l.(tmp := |s.nodes|, pc := Link)])
      else s
    case Link =>
      SetLocal(SetNode(s, l.pred, s.nodes[l.pred].(next := l.tmp)), t, l.(pc := UnlockCurr, out := Answer(true)))
    case UnlockCurr =>
      SetLocal(SetOwner(s, l.curr, FREE), t, l.(pc := UnlockPred))
    case UnlockPred =>
      SetLocal(SetOwner(s, l.pred, FREE), t, l.(pc := if l.out.Retry? then Start else Done))
    case _ => SetLocal(s, t, Read(s.nodes, l))
  }

  /** The locals of a call that begins: `contains` walks from the head itself, the others read its link first. */
  function Begin(op: Op): Local {
    Local(if op.Contains? then Test else Start, op, HEAD, HEAD, NULL, Retry)
  }

  /** A call is accepted from a thread that has none running, for a key below the sentinel's. */
  predicate Accepts(s: State, t: nat, op: Op) {
    Shaped(s) && t < |s.threads| && !Active(s.threads[t]) && KeyOf(op) < s.nodes[TAIL].entry.key
  }

  predicate Runs(s: State, t: nat) {
    Shaped(s) && t < |s.threads| && PointersValid(s, s.threads[t])
  }

  /** A refused call, or a thread that would follow a null pointer, leaves the state as it is. */
  function Apply(s: State, e: Event): State {
    match e
    case Call(t, op) => if Accepts(s, t, op) then SetLocal(s, t, Begin(op)) else s
    case Tick(t) => if Runs(s, t) then Step(s, t) else s
  }

  function Run(s: State, events: seq<Event>): State {
    if events == [] then s else Apply(Run(s, events[..|events| - 1]), events[|events| - 1])
  }

  // ---- What a state means -------------------------------------------------------------------

  /** The nodes met by following `next_` from node `i`, at most `fuel` of them. */
  function Walk(nodes: seq<Node>, i: int, fuel: nat): seq<int>
    decreases fuel
  {
    if fuel == 0 || !(0 <= i < |nodes|) then [] else [i] + Walk(nodes, nodes[i].next, fuel - 1)
  }

  function Chain(s: State): seq<int> {
    Walk(s.nodes, HEAD, |s.nodes|)
  }

  predicate IsLive(nodes: seq<Node>, i: int) {
    2 <= i < |nodes| && !nodes[i].marked
  }

  /** The map a sequence of nodes stands for: an unmarked node binds its key to its entry. */
  function MapOf(nodes: seq<Node>, chain: seq<int>): map<nat, Entry> {
    if chain == [] then map[]
    else
      var rest := MapOf(nodes, chain[1..]);
      if IsLive(nodes, chain[0]) then rest[nodes[chain[0]].entry.key := nodes[chain[0]].entry] else rest
  }

  /** The abstract state of the list. */
  function Abs(s: State): map<nat, Entry> {
    MapOf(s.nodes, Chain(s))
  }

  /** What one call does to the map when it takes effect. */
  function Effect(op: Op, m: map<nat, Entry>): map<nat, Entry> {
    match op
    case Add(e) => m[e.key := e]
    case Remove(k) => m - {k}
    case Get(_) => m
    case Contains(_) => m
  }
}
