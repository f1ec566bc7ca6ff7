/** The registration of file descriptors with epoll, with assertions off as in a release build.

    `interest` is the kernel's side: the descriptors in the epoll set, each with its mask and the pointer kept for it. */
module Demultiplexer {

  /** The poll flags that an event may ask for. */
  datatype Mask = Mask(pollIn: bool, pollPri: bool, pollOut: bool)

  const NONE := Mask(false, false, false)

  /** `m | kReadEvent`, `m | kWriteEvent` and `m & ~kWriteEvent`. */
  function WithRead(m: Mask): Mask {
    m.(pollIn := true, pollPri := true)
  }

  function WithWrite(m: Mask): Mask {
    m.(pollOut := true)
  }

  function WithoutWrite(m: Mask): Mask {
    m.(pollOut := false)
  }

  datatype State = New | Added | Deled

  datatype Control = Add | Modify | Delete

  datatype Entry = Entry(mask: Mask, event: Event)

  class Event {
    const fd: int
    var state: State
    var events: Mask
    var revents: Mask

    constructor (fd: int)
      ensures this.fd == fd && state == New && events == NONE
    {
      this.fd, state, events, revents := fd, New, NONE, NONE;
    }
  }

  /** None of the first `n` reports after the `i`th is about the same descriptor; epoll_wait reports each at most once. */
  predicate Latest(ready: seq<(int, Mask)>, i: nat, n: nat)
    requires n <= |ready|
  {
    i < n && forall j | i < j < n :: ready[j].0 != ready[i].0
  }

  class Demultiplexer {
    var eventMap: map<int, Event>
    var interest: map<int, Entry>
    ghost var known: set<Event>    // the events that live on this reactor, one for each descriptor

    /** One event's state says where it is: in the map unless new, in the epoll set if and only if added, and then with
        its own mask and pointer; a deleted one asks for nothing. */
    ghost predicate Agrees(e: Event)
      reads this, e
    {
      && (e.fd in eventMap <==> e.state != New) && (e.fd in eventMap ==> eventMap[e.fd] == e)
      && (e.fd in interest <==> e.state == Added) && (e.fd in interest ==> interest[e.fd] == Entry(e.events, e))
      && (e.state == Deled ==> e.events == NONE)
    }

    /** A descriptor has no other event. */
    ghost predicate Alone(e: Event)
      reads this`known
    {
      e in known && forall f | f in known && f.fd == e.fd :: f == e
    }

    ghost predicate Valid()
      reads this, known
    {
      && (forall e | e in known :: Agrees(e) && Alone(e))
      && (forall fd | fd in eventMap :: eventMap[fd] in known && eventMap[fd].fd == fd)
      && (forall fd | fd in interest :: interest[fd].event in known && interest[fd].event.fd == fd)
    }

    /** What the kernel watches a descriptor for; nothing if it is not in the epoll set. */
    function Watched(fd: int): Mask
      reads this
    {
      if fd in interest then interest[fd].mask else NONE
    }

    /** The epoll set without one descriptor. */
    ghost function Others(fd: int): map<int, Entry>
      reads this
    {
      interest - {fd}
    }

    constructor ()
      ensures Valid() && known == {} && interest == map[]
    {
      eventMap, interest, known := map[], map[], {};
    }

    /** A new event for a descriptor that has none. */
    method Attach(fd: int) returns (e: Event)
      requires Valid() && forall f | f in known :: f.fd != fd
      modifies this`known
      ensures Valid() && fresh(e) && e.fd == fd && e.events == NONE && known == old(known) + {e}
      ensures Watched(fd) == NONE && interest == old(interest)
    {
      e := new Event(fd);
      known := known + {e};
    }

    /** epoll_ctl: adding what is there or changing what is not there is an error and changes nothing. */
    method Inner(op: Control, e: Event) returns (ok: bool)
      modifies this`interest
      ensures ok == (op.Add? <==> e.fd !in old(interest))
      ensures interest == if !ok then old(interest)
                          else if op.Delete? then old(interest) - {e.fd}
                          else old(interest)[e.fd := Entry(e.events, e)]
    {
      ok := op.Add? <==> e.fd !in interest;
      if ok {
        match op {
          case Delete => interest := interest - {e.fd};
          case _ => interest := interest[e.fd := Entry(e.events, e)];
        }
      }
    }

    /** Brings the kernel into line with an event whose mask has just changed. No call to epoll_ctl fails. */
    method RegisterEvent(e: Event)
      requires (forall f | f in known && f != e :: Agrees(f)) && (forall f | f in known :: Alone(f)) && e in known
      requires forall fd | fd in eventMap :: eventMap[fd] in known && eventMap[fd].fd == fd
      requires forall fd | fd in interest :: interest[fd].event in known && interest[fd].event.fd == fd
      requires e.fd in eventMap <==> e.state != New
      requires e.fd in interest <==> e.state == Added
      modifies this`eventMap, this`interest, e`state
      ensures Valid() && Watched(e.fd) == e.events && Others(e.fd) == old(Others(e.fd))
      ensures e.fd in interest <==> (old(e.state) != Added || e.events != NONE)
    {
      var ok;
      match e.state {
        case New =>
          eventMap := eventMap[e.fd := e];
          e.state := Added;
          ok := Inner(Add, e);
        case Deled =>
          e.state := Added;
          ok := Inner(Add, e);
        case Added =>
          if e.events == NONE {
            ok := Inner(Delete, e);
            e.state := Deled;
          } else {
            ok := Inner(Modify, e);
          }
      }
      assert ok;
    }

    method EnableReading(e: Event)
      requires Valid() && e in known
      modifies this`eventMap, this`interest, e`state, e`events
      ensures Valid() && e.events == Watched(e.fd) == WithRead(old(e.events)) && Others(e.fd) == old(Others(e.fd))
      ensures e.events.pollIn && e.events.pollPri && (e.events.pollOut <==> old(e.events.pollOut))
    {
      e.events := WithRead(e.events);
      RegisterEvent(e);
    }

    method EnableWriting(e: Event)
      requires Valid() && e in known
      modifies this`eventMap, this`interest, e`state, e`events
      ensures Valid() && e.events == Watched(e.fd) == WithWrite(old(e.events)) && Others(e.fd) == old(Others(e.fd))
      ensures e.events.pollOut && (e.events.pollIn, e.events.pollPri) == old((e.events.pollIn, e.events.pollPri))
    {
      e.events := WithWrite(e.events);
      RegisterEvent(e);
    }

    method DisableWriting(e: Event)
      requires Valid() && e in known
      modifies this`eventMap, this`interest, e`state, e`events
      ensures Valid() && e.events == Watched(e.fd) == WithoutWrite(old(e.events)) && Others(e.fd) == old(Others(e.fd))
      ensures !e.events.pollOut && (e.events.pollIn, e.events.pollPri) == old((e.events.pollIn, e.events.pollPri))
    {
      e.events := WithoutWrite(e.events);
      RegisterEvent(e);
    }

    method DisableAll(e: Event)
      requires Valid() && e in known
      modifies this`eventMap, this`interest, e`state, e`events
      ensures Valid() && e.events == Watched(e.fd) == NONE && Others(e.fd) == old(Others(e.fd))
      ensures !e.events.pollIn && !e.events.pollPri && !e.events.pollOut
    {
      e.events := NONE;
      RegisterEvent(e);
    }

    /** Takes an event out of the map and the epoll set, whatever it asks for. The kernel still agrees with the event if
        and only if it asked for nothing. */
    method UnregisterEvent(e: Event)
      requires Valid() && e in known
      modifies this`eventMap, this`interest, e`state
      ensures Valid() && e.state == New && Watched(e.fd) == NONE && Others(e.fd) == old(Others(e.fd))
      ensures Watched(e.fd) == e.events <==> old(e.events) == NONE
    {
      eventMap := eventMap - {e.fd};
      if e.state == Added {
        var ok := Inner(Delete, e);
        assert ok;
      }
      e.state := New;
    }

    /** One report, for the event whose pointer the kernel kept. */
    method Report(fd: int, mask: Mask) returns (e: Event)
      requires Valid() && fd in interest
      modifies interest[fd].event`revents
      ensures Valid() && fd in eventMap && e == eventMap[fd] == interest[fd].event && e.fd == fd && e.revents == mask
    {
      e := interest[fd].event;
      assert Agrees(e);
      e.revents := mask;
    }

    /** The first `n` reports have been passed on. */
    ghost predicate Reported(ready: seq<(int, Mask)>, active: seq<Event>, n: nat)
      reads this`eventMap, active
    {
      && |active| == n <= |ready|
      && (forall i | 0 <= i < n :: ready[i].0 in eventMap && active[i] == eventMap[ready[i].0] && active[i].fd == ready[i].0)
      && (forall i | 0 <= i < n && Latest(ready, i, n) :: active[i].revents == ready[i].1)
    }

    lemma ReportedOne(ready: seq<(int, Mask)>, active: seq<Event>, n: nat, e: Event)
      requires n < |ready| && |active| == n && e.fd == ready[n].0 && e.fd in eventMap && e == eventMap[e.fd]
      requires e.revents == ready[n].1
      requires forall i | 0 <= i < n :: ready[i].0 in eventMap && active[i] == eventMap[ready[i].0] && active[i].fd == ready[i].0
      requires forall i | 0 <= i < n && Latest(ready, i, n) && active[i] != e :: active[i].revents == ready[i].1
      ensures Reported(ready, active + [e], n + 1)
    {
      var now := active + [e];
      forall i | 0 <= i < n + 1 && Latest(ready, i, n + 1) ensures now[i].revents == ready[i].1 {
        if i < n { assert Latest(ready, i, n) && ready[i].0 != ready[n].0; }
      }
    }

    method ReportNext(ready: seq<(int, Mask)>, was: seq<Event>, n: nat) returns (active: seq<Event>)
      requires Valid() && n < |ready| && Reported(ready, was, n) && ready[n].0 in interest
      modifies interest[ready[n].0].event`revents
      ensures Valid() && Reported(ready, active, n + 1)
    {
      var e := Report(ready[n].0, ready[n].1);
      assert forall i | 0 <= i < n && was[i] != e :: was[i].revents == old(was[i].revents);
      ReportedOne(ready, was, n, e);
      active := was + [e];
    }

    /** epoll_wait reports descriptors of the epoll set; the pointer kept for each is the event in the map, which gets what
        was reported. */
    method Demultiplex(ready: seq<(int, Mask)>) returns (active: seq<Event>)
      requires Valid() && forall r | r in ready :: r.0 in interest
      modifies set e | e in known :: e`revents
      ensures Valid() && Reported(ready, active, |ready|)
    {
      active := [];
      for i := 0 to |ready|
        invariant Valid() && Reported(ready, active, i)
      {
        var fd := ready[i].0;
        assert ready[i] in ready && fd in interest;
        assert interest[fd].event in known;
        active := ReportNext(ready, active, i);
      }
    }
  }

  // ---- Any updates of any events -------------------------------------------------------------------

  datatype Update = EnableReading | EnableWriting | DisableWriting | DisableAll | Remove

  /** An update of the event with the given number. */
  datatype Command = Command(which: nat, update: Update)

  /** The mask of an event after updates, and what the kernel is to watch for: the same after every update but a removal,
      nothing after that. */
  datatype Wish = Wish(events: Mask, kernel: Mask)

  function After(w: Wish, u: Update): Wish {
    match u
    case EnableReading => Wish(WithRead(w.events), WithRead(w.events))
    case EnableWriting => Wish(WithWrite(w.events), WithWrite(w.events))
    case DisableWriting => Wish(WithoutWrite(w.events), WithoutWrite(w.events))
    case DisableAll => Wish(NONE, NONE)
    case Remove => Wish(w.events, NONE)
  }

  function AfterAll(cs: seq<Command>, k: nat): Wish {
    if cs == [] then Wish(NONE, NONE)
    else
      var w := AfterAll(cs[..|cs| - 1], k);
      if cs[|cs| - 1].which == k then After(w, cs[|cs| - 1].update) else w
  }

  lemma OneMore(cs: seq<Command>, i: nat, k: nat)
    requires i < |cs|
    ensures AfterAll(cs[..i + 1], k) == if cs[i].which == k then After(AfterAll(cs[..i], k), cs[i].update) else AfterAll(cs[..i], k)
  {
    assert cs[..i + 1][..i] == cs[..i];
  }

  /** Event `k` was last told `on` with none of `offs` coming after it. */
  ghost predicate Standing(cs: seq<Command>, k: nat, on: Update, offs: set<Update>) {
    exists i | 0 <= i < |cs| :: cs[i] == Command(k, on) && NoneFrom(cs, k, offs, i + 1)
  }

  ghost predicate NoneFrom(cs: seq<Command>, k: nat, offs: set<Update>, from: nat) {
    forall j | from <= j < |cs| && cs[j].which == k :: cs[j].update !in offs
  }

  const ALL_UPDATES := {EnableReading, EnableWriting, DisableWriting, DisableAll, Remove}

  /** The last that was said of event `k` was its removal. */
  ghost predicate Removed(cs: seq<Command>, k: nat) {
    Standing(cs, k, Remove, ALL_UPDATES)
  }

  /** One more update makes a flag stand, ends it, or leaves it as it was. */
  lemma StandingStep(cs: seq<Command>, c: Command, k: nat, on: Update, offs: set<Update>)
    ensures Standing(cs + [c], k, on, offs) <==>
              if c == Command(k, on) then true else Standing(cs, k, on, offs) && !(c.which == k && c.update in offs)
  {
    var ds := cs + [c];
    var n := |cs|;
    if c == Command(k, on) {
      assert ds[n] == c && NoneFrom(ds, k, offs, n + 1);
    } else {
      if Standing(cs, k, on, offs) && !(c.which == k && c.update in offs) {
        var i :| 0 <= i < n && cs[i] == Command(k, on) && NoneFrom(cs, k, offs, i + 1);
        assert ds[i] == Command(k, on) && NoneFrom(ds, k, offs, i + 1);
      }
      if Standing(ds, k, on, offs) {
        var i :| 0 <= i <= n && ds[i] == Command(k, on) && NoneFrom(ds, k, offs, i + 1);
        assert ds[n] == c && i < n && cs[i] == ds[i];
        assert forall j | i + 1 <= j < n :: cs[j] == ds[j];
        assert NoneFrom(cs, k, offs, i + 1);
      }
    }
  }

  /** The flags `m` are those that commands have set for event `k` and not cleared. */
  ghost predicate Flags(cs: seq<Command>, k: nat, m: Mask) {
    && (m.pollIn <==> Standing(cs, k, EnableReading, {DisableAll}))
    && (m.pollPri <==> Standing(cs, k, EnableReading, {DisableAll}))
    && (m.pollOut <==> Standing(cs, k, EnableWriting, {DisableWriting, DisableAll}))
  }

  /** What the updates of an event come to: reading is asked for if and only if it was enabled and not all disabled since,
      writing if and only if it was enabled and neither it nor all disabled since; the kernel watches for that, or for
      nothing if the event was removed last. */
  lemma {:induction false} UpdatesComeTo(cs: seq<Command>, k: nat)
    ensures Flags(cs, k, AfterAll(cs, k).events)
    ensures AfterAll(cs, k).kernel == if Removed(cs, k) then NONE else AfterAll(cs, k).events
    decreases |cs|
  {
    if cs != [] {
      var n := |cs| - 1;
      UpdatesComeTo(cs[..n], k);
      assert cs[..n] + [cs[n]] == cs;
      StandingStep(cs[..n], cs[n], k, EnableReading, {DisableAll});
      StandingStep(cs[..n], cs[n], k, EnableWriting, {DisableWriting, DisableAll});
      StandingStep(cs[..n], cs[n], k, Remove, ALL_UPDATES);
    }
  }

  method Apply(d: Demultiplexer, e: Event, u: Update)
    requires d.Valid() && e in d.known
    modifies d`eventMap, d`interest, e`state, e`events
    ensures d.Valid() && d.Others(e.fd) == old(d.Others(e.fd))
    ensures d.Watched(e.fd) == After(Wish(old(e.events), NONE), u).kernel
    ensures e.events == After(Wish(old(e.events), NONE), u).events
  {
    match u {
      case EnableReading => d.EnableReading(e);
      case EnableWriting => d.EnableWriting(e);
      case DisableWriting => d.DisableWriting(e);
      case DisableAll => d.DisableAll(e);
      case Remove => d.UnregisterEvent(e);
    }
  }

  /** Events for distinct descriptors and any updates of them, in any order: the kernel watches each descriptor for the
      flags that its own event's updates have left standing, and no call to epoll_ctl failed on the way. */
  method Drive(fds: seq<int>, cs: seq<Command>) returns (d: Demultiplexer, es: seq<Event>)
    requires forall i, j | 0 <= i < j < |fds| :: fds[i] != fds[j]
    requires forall c | c in cs :: c.which < |fds|
    ensures d.Valid() && |es| == |fds|
    ensures forall k | 0 <= k < |fds| ::
              && es[k].fd == fds[k] && Flags(cs, k, es[k].events)
              && d.Watched(fds[k]) == if Removed(cs, k) then NONE else es[k].events
  {
    d, es := AttachAll(fds);
    for i := 0 to |cs|
      invariant d.Valid() && fresh(d) && fresh(d.known) && |es| == |fds|
      invariant forall k | 0 <= k < |fds| :: es[k] in d.known && es[k].fd == fds[k]
      invariant forall k | 0 <= k < |fds| :: Granted(d, es[k], AfterAll(cs[..i], k))
    {
      assert cs[i] in cs;
      Step(d, fds, es, cs, i, es[cs[i].which]);
    }
    assert cs[..|cs|] == cs;
    forall k | 0 <= k < |fds|
      ensures Flags(cs, k, es[k].events) && d.Watched(fds[k]) == if Removed(cs, k) then NONE else es[k].events
    {
      UpdatesComeTo(cs, k);
      assert Granted(d, es[k], AfterAll(cs, k));
    }
  }

  /** One update: the event it names gets what the update comes to, all others keep what they have. */
  method Step(d: Demultiplexer, fds: seq<int>, es: seq<Event>, cs: seq<Command>, i: nat, e: Event)
    requires d.Valid() && |es| == |fds| && i < |cs| && cs[i].which < |es| && e == es[cs[i].which]
    requires forall j, k | 0 <= j < k < |fds| :: fds[j] != fds[k]
    requires forall k | 0 <= k < |fds| :: es[k] in d.known && es[k].fd == fds[k] && Granted(d, es[k], AfterAll(cs[..i], k))
    modifies d`eventMap, d`interest, e`state, e`events
    ensures d.Valid()
    ensures forall k | 0 <= k < |fds| :: Granted(d, es[k], AfterAll(cs[..i + 1], k))
  {
    var w := cs[i].which;
    Apply(d, e, cs[i].update);
    forall k | 0 <= k < |fds| ensures Granted(d, es[k], AfterAll(cs[..i + 1], k)) {
      OneMore(cs, i, k);
      assert old(Granted(d, es[k], AfterAll(cs[..i], k)));
      if k != w {
        assert fds[k] != fds[w];
        assert fds[k] in d.interest <==> fds[k] in d.Others(e.fd);
        assert old(fds[k] in d.interest <==> fds[k] in d.Others(e.fd));
      }
    }
  }

  predicate Granted(d: Demultiplexer, e: Event, w: Wish)
    reads d, e
  {
    e.events == w.events && d.Watched(e.fd) == w.kernel
  }

  method AttachAll(fds: seq<int>) returns (d: Demultiplexer, es: seq<Event>)
    requires forall i, j | 0 <= i < j < |fds| :: fds[i] != fds[j]
    ensures d.Valid() && fresh(d) && fresh(d.known) && |es| == |fds|
    ensures forall k | 0 <= k < |fds| :: es[k] in d.known && es[k].fd == fds[k] && Granted(d, es[k], Wish(NONE, NONE))
  {
    d := new Demultiplexer();
    es := [];
    for i := 0 to |fds|
      invariant d.Valid() && fresh(d) && fresh(d.known) && |es| == i && d.interest == map[]
      invariant forall k | 0 <= k < i :: es[k] in d.known && es[k].fd == fds[k] && es[k].events == NONE
      invariant forall f | f in d.known :: f.fd in fds[..i]
    {
      var e := d.Attach(fds[i]);
      es := es + [e];
    }
  }
}
