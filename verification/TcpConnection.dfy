/** The sending half of a connection: what the socket has taken and what waits in the output buffer.

    `write(2)` is an oracle: it takes any number of the bytes offered, or fails. `wire` records what it took. */
module TcpConnection {
  import opened Bytes
  import Buffer

  datatype ConnState = Disconnected | Connecting | Connected | Disconnecting

  /** The outcome of one `write`; `Broken` is EPIPE or ECONNRESET. */
  datatype WriteResult = Took(n: nat) | WouldBlock | Broken | OtherError

  /** Taking the front of a payload and queueing its rest keeps everything in order, if nothing waited before. */
  lemma Split(wire: Bytes, waiting: Bytes, payload: Bytes, n: nat)
    requires n <= |payload| && (n > 0 ==> waiting == [])
    ensures (wire + payload[..n]) + (waiting + payload[n..]) == (wire + waiting) + payload
    ensures waiting + [] == waiting && wire + [] == wire && payload[..0] == [] && payload[|payload|..] == []
  {
    assert payload == payload[..n] + payload[n..];
    if n > 0 {
      assert (wire + payload[..n]) + payload[n..] == wire + (payload[..n] + payload[n..]);
    } else {
      assert payload[..0] == [] && payload[0..] == payload;
      assert wire + (waiting + payload) == (wire + waiting) + payload;
    }
  }

  class TcpConnection {
    var state: ConnState
    var output: Buffer.Buffer
    var writing: bool      // the event asks for writability
    var shutDown: bool     // the write side has been shut down
    ghost var wire: Bytes

    ghost predicate Valid()
      reads this, output
    {
      output.Valid()
    }

    /** Every byte accepted for sending: those the socket has taken, then those still waiting. */
    ghost function Outgoing(): Bytes
      requires Valid()
      reads this, output, output.data
    {
      wire + output.Contents()
    }

    /** Write interest is on exactly while bytes wait. */
    ghost predicate InterestFits()
      requires Valid()
      reads this, output, output.data
    {
      writing <==> output.Contents() != []
    }

    constructor ()
      ensures Valid() && fresh(output) && fresh(output.data)
      ensures state == Disconnected && !writing && !shutDown && Outgoing() == [] && wire == [] && InterestFits()
    {
      var b := new Buffer.Buffer(Buffer.INITIAL_SIZE);
      output := b;
      state, writing, shutDown := Disconnected, false, false;
      wire := [];
    }

    method ConnectEstablished()
      requires Valid()
      modifies this`state
      ensures Valid() && state == Connected
    {
      state := Connected;
    }

    /** write(2) of the payload, as `result` has it; a failed write takes nothing. */
    method WriteOut(payload: Bytes, result: WriteResult) returns (numWrite: nat, intolerable: bool)
      requires result.Took? ==> result.n <= |payload|
      modifies this`wire
      ensures numWrite == (if result.Took? then result.n else 0) && intolerable == result.Broken?
      ensures numWrite <= |payload| && wire == old(wire) + payload[..numWrite]
    {
      numWrite, intolerable := 0, false;
      match result {
        case Took(n) => numWrite := n;
        case WouldBlock =>
        case Broken => intolerable := true;
        case OtherError =>
      }
      wire := wire + payload[..numWrite];
    }

    /** Bytes are offered to the socket at once only if none wait; what it does not take is queued behind the others,
        unless the peer is gone. */
    method SendInReactor(payload: Bytes, result: WriteResult)
      requires Valid() && (result.Took? ==> result.n <= |payload|)
      modifies this`writing, this`wire, output, output.data
      ensures Valid() && output == old(output) && state == old(state) && shutDown == old(shutDown)
      ensures output.data == old(output.data) || fresh(output.data)
      ensures old(InterestFits()) ==> InterestFits()
      ensures state == Disconnected ==> wire == old(wire) && writing == old(writing)
      ensures var direct := !old(writing) && old(output.Contents()) == [];
              && Outgoing() == old(Outgoing()) + (if state == Disconnected || (direct && result.Broken?) then [] else payload)
              && wire == old(wire) + if state != Disconnected && direct && result.Took? then payload[..result.n] else []
    {
      ghost var w, c := wire, output.Contents();
      var numWrite, intolerable := 0, false;
      if state == Disconnected {
        Split(w, c, [], 0);
        return;
      }
      if !writing && output.ReadableBytes() == 0 { numWrite, intolerable := WriteOut(payload, result); }
      var remaining := |payload| - numWrite;
      if !intolerable && remaining > 0 {
        output.Append(payload[numWrite..]);
        if !writing { writing := true; }
      }
      Split(w, c, if intolerable then [] else payload, numWrite);
    }

    /** The socket is writable: offer it everything that waits. */
    method HandleWrite(result: WriteResult)
      requires Valid() && (result.Took? ==> result.n <= output.ReadableBytes())
      modifies this`writing, this`wire, this`shutDown, output
      ensures Valid() && output == old(output) && state == old(state) && output.data == old(output.data)
      ensures Outgoing() == old(Outgoing())
      ensures wire == old(wire) + if old(writing) && result.Took? then old(output.Contents())[..result.n] else []
      ensures old(InterestFits()) ==> InterestFits()
      ensures shutDown <==> old(shutDown) || (old(writing) && result.Took? && result.n > 0
                                              && state == Disconnecting && output.Contents() == [])
    {
      if writing {
        match result {
          case Took(n) =>
            if n > 0 {
              wire := wire + output.Contents()[..n];
              output.Retrieve(n);
              if output.ReadableBytes() == 0 {
                writing := false;
                if state == Disconnecting { ShutdownInLoop(); }
              }
            }
          case _ =>
        }
      }
    }

    method ShutdownInLoop()
      modifies this`shutDown
      ensures shutDown == (old(shutDown) || !writing)
    {
      if !writing { shutDown := true; }
    }

    /** The peer has closed: no more interest, what waits stays unsent. */
    method HandleClose()
      requires Valid()
      modifies this`state, this`writing
      ensures Valid() && state == Disconnected && !writing && Outgoing() == old(Outgoing())
    {
      state := Disconnected;
      writing := false;
    }

    /** send( Buffer* ) from the reactor's own thread: the caller's buffer is emptied into the connection. */
    method SendBuffer(buf: Buffer.Buffer, result: WriteResult)
      requires Valid() && buf.Valid() && buf != output && buf.data != output.data
      requires result.Took? ==> result.n <= buf.ReadableBytes()
      modifies this`writing, this`wire, output, output.data, buf
      ensures Valid() && buf.Valid() && output == old(output) && state == old(state)
      ensures output.data == old(output.data) || fresh(output.data)
      ensures state == Connected ==>
                && buf.Contents() == []
                && Outgoing() == old(Outgoing()) +
                     (if !old(writing) && old(output.Contents()) == [] && result.Broken? then [] else old(buf.Contents()))
                && (old(InterestFits()) ==> InterestFits())
      ensures state != Connected ==> Outgoing() == old(Outgoing()) && buf.Contents() == old(buf.Contents())
    {
      if state == Connected {
        SendInReactor(buf.data[buf.readerIndex..buf.writerIndex], result);
        buf.RetrieveAll();
      }
    }
  }

  // ---- A whole conversation -----------------------------------------------------------------

  /** A send, or the socket becoming writable, with what the write then does; a write asked to take more than it is
      offered takes everything. */
  datatype Event = Send(payload: Bytes, result: WriteResult) | Writable(result: WriteResult)

  function Capped(result: WriteResult, offered: nat): WriteResult {
    if result.Took? && result.n > offered then Took(offered) else result
  }

  function Payloads(events: seq<Event>): Bytes {
    if events == [] then []
    else
      var e := events[|events| - 1];
      Payloads(events[..|events| - 1]) + if e.Send? then e.payload else []
  }

  lemma PayloadsOneMore(events: seq<Event>, e: Event)
    ensures Payloads(events + [e]) == Payloads(events) + if e.Send? then e.payload else []
  {
    assert (events + [e])[..|events + [e]| - 1] == events;
  }

  method Handle(c: TcpConnection, e: Event)
    requires c.Valid() && c.state == Connected && c.InterestFits() && !e.result.Broken?
    modifies c`writing, c`wire, c`shutDown, c.output, c.output.data
    ensures c.Valid() && c.state == Connected && c.InterestFits() && c.output == old(c.output)
    ensures c.output.data == old(c.output.data) || fresh(c.output.data)
    ensures c.Outgoing() == old(c.Outgoing()) + if e.Send? then e.payload else []
  {
    match e {
      case Send(payload, result) => c.SendInReactor(payload, Capped(result, |payload|));
      case Writable(result) =>
        ghost var out := c.Outgoing();
        c.HandleWrite(Capped(result, c.output.ReadableBytes()));
        assert out + [] == out;
    }
  }

  /** Any sends and any partial or failed writes while the peer stays: the socket has received a prefix of everything
      sent, the rest waits in order, nothing is lost or repeated, and write interest is on exactly while bytes wait. */
  method Converse(events: seq<Event>) returns (c: TcpConnection)
    requires forall e | e in events :: !e.result.Broken?
    ensures c.Valid() && c.wire + c.output.Contents() == Payloads(events)
    ensures c.writing <==> c.output.Contents() != []
  {
    c := new TcpConnection();
    c.ConnectEstablished();
    var i := 0;
    while i < |events|
      invariant 0 <= i <= |events| && c.Valid() && c.state == Connected
      invariant fresh(c) && fresh(c.output) && fresh(c.output.data)
      invariant c.Outgoing() == Payloads(events[..i]) && c.InterestFits()
    {
      Handle(c, events[i]);
      PayloadsOneMore(events[..i], events[i]);
      assert events[..i + 1] == events[..i] + [events[i]];
      i := i + 1;
    }
    assert events[..i] == events;
  }
}
