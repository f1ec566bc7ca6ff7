/** One client's conversation with the store: the request loop over the input buffer, in place. */
module Conversation {
  import opened Bytes
  import opened ByteOrder
  import opened Tokenizer
  import opened LineProtocol
  import Buffer
  import Entry
  import MiniMemcached

  datatype State = NewCommand | ReceiveValue | DiscardValue

  class Conversation {
    const server: MiniMemcached.MiniMemcached
    const currEntry: Entry.Entry
    var state: State
    var command: Bytes
    var sent: Bytes        // everything handed to the connection

    /** The store and the entry at hand are sound, and have nothing in common. */
    ghost predicate Standing()
      reads this, server, server.Repr, currEntry, currEntry.data
    {
      server.Valid() && currEntry.Valid() && {this, currEntry, currEntry.data} !! server.Repr
    }

    ghost predicate Valid()
      reads this, server, server.Repr, currEntry, currEntry.data
    {
      Standing() && state != DiscardValue && (state == State.ReceiveValue ==> Ready())
    }

    /** The entry at hand is ready for the value of its key. */
    ghost predicate Ready()
      requires currEntry.Valid()
      reads this, currEntry, currEntry.data
    {
      && currEntry.free > 0 && currEntry.Hashed() && currEntry.Value() == []
      && !MiniMemcached.TooGreat(currEntry.Key())
    }

    /** The conversation as a plain value. */
    ghost function AsSession(): Session
      requires currEntry.Valid() && (state == State.ReceiveValue ==> currEntry.free >= 0)
      reads this, server`view, currEntry, currEntry.data
    {
      Session(server.view, if state == State.ReceiveValue then AValue(currEntry.Key(), currEntry.free) else ALine, sent,
              currEntry.data.Length, Counted(), false)
    }

    /** The room that the entry at hand counts on. */
    ghost function Counted(): int
      reads this, currEntry
    {
      currEntry.keyLen + currEntry.valueLen + currEntry.free
    }

    constructor (server: MiniMemcached.MiniMemcached)
      requires server.Valid()
      ensures Valid() && this.server == server && fresh(currEntry) && fresh(currEntry.data)
      ensures AsSession() == Session(server.view, ALine, [], 135, 135, false)
    {
      this.server := server;
      currEntry := new Entry.Entry(Entry.Ascii("Invalid"), 128);
      state, command, sent := NewCommand, [], [];
    }

    method Reply(msg: Bytes)
      modifies this`sent
      ensures sent == old(sent) + msg
    {
      sent := sent + msg;
    }

    // ---- Handlers of a request: the command has been taken off the tokenizer ----------------------------------

    method TestHandler(tokenizer: Tokenizer)
      requires tokenizer.Valid()
      modifies this`sent, tokenizer
      ensures sent == old(sent) + Echo(old(tokenizer.left))
    {
      var more := tokenizer.HasMoreToken();
      ghost var words, before := tokenizer.left, sent;
      while more
        invariant tokenizer.Valid() && more == (tokenizer.left != [])
        invariant sent + Echo(tokenizer.left) == before + Echo(words)
        decreases |tokenizer.left|
      {
        var token := tokenizer.NextToken();
        ghost var was, left := sent, tokenizer.left;
        Reply(token);
        Reply([SPACE]);
        EchoStep(was, token, left);
        more := tokenizer.HasMoreToken();
      }
      Reply([CR, LF]);
    }

    /** The reply to a `get`; nothing for a `get` without a key. A key must fit the entry it is copied to. */
    method GetHandler(tokenizer: Tokenizer) returns (ok: bool)
      requires Valid() && tokenizer.Valid() && state == NewCommand
      modifies this`sent, tokenizer, currEntry, currEntry.data
      ensures Valid() && state == old(state) && currEntry.data == old(currEntry.data) && Counted() == old(Counted())
      ensures ok == (old(tokenizer.left) == []
                     || (|old(tokenizer.left)[0]| <= currEntry.data.Length && !MiniMemcached.TooGreat(old(tokenizer.left)[0])))
      ensures server.view == old(server.view)
      ensures sent == if ok && old(tokenizer.left) != [] then old(sent) + Answer(server.view, old(tokenizer.left)[0])
                      else old(sent)
    {
      var token := tokenizer.NextToken();
      if token == [] { return true; }
      ok := ReplyTo(token);
    }

    /** The reply for a key that fits. */
    method ReplyTo(token: Bytes) returns (ok: bool)
      requires Valid() && state == NewCommand
      modifies this`sent, currEntry, currEntry.data
      ensures Valid() && currEntry.data == old(currEntry.data) && Counted() == old(Counted())
      ensures ok == (|token| <= currEntry.data.Length && !MiniMemcached.TooGreat(token))
      ensures sent == if ok then old(sent) + Answer(server.view, token) else old(sent)
    {
      if |token| > currEntry.data.Length || MiniMemcached.TooGreat(token) { return false; }
      currEntry.ResetKey(token);
      var reply := Look();
      Reply(reply);
      ok := true;
    }

    /** The answer for the key of the entry at hand. */
    method Look() returns (reply: Bytes)
      requires Standing() && currEntry.Hashed() && !MiniMemcached.TooGreat(currEntry.Key())
      ensures reply == Answer(server.view, currEntry.Key())
    {
      var entry := server.Get(currEntry);
      var output := new Buffer.Buffer(Buffer.INITIAL_SIZE);
      ghost var key := currEntry.Key();
      if entry != null {
        entry.CopyToBuffer(output);
        Entry.RenderedBytes(key, server.view[key]);
        assert output.Contents() == Entry.Rendered(key, server.view[key]);
      }
      output.Append(Ascii("END\r\n"));
      reply := output.Peek(output.ReadableBytes());
    }

    /** A `set` needs four words after the command; the number of bytes decides whether a value is awaited. */
    method SetHandler(tokenizer: Tokenizer) returns (ok: bool)
      requires Valid() && tokenizer.Valid() && state == NewCommand
      modifies this`state, tokenizer, currEntry, currEntry.data
      ensures Valid() && (currEntry.data == old(currEntry.data) || fresh(currEntry.data))
      ensures server.view == old(server.view)
      ensures var t := old(tokenizer.left);
              var accepted := |t| >= 4 && 0 < Atoi(t[3]) <= MAX_VALUE;
              && ok == (accepted ==> !MiniMemcached.TooGreat(t[0]))
              && (state == State.ReceiveValue <==> accepted && ok)
              && (accepted && ok ==> currEntry.Key() == t[0] && currEntry.free == Atoi(t[3]) && Renewed(old(Counted()), old(currEntry.data.Length)))
              && (!accepted ==> currEntry.data == old(currEntry.data) && Counted() == old(Counted()))
    {
      var enough, token, bytes := FourWords(tokenizer);
      if !enough { return true; }
      ok := Await(token, Atoi(bytes));
    }

    /** The entry counts on what it needs; its block is another only if it counted on less before. */
    ghost predicate Renewed(counted: int, block: nat)
      reads this, currEntry
    {
      && Counted() == currEntry.keyLen + currEntry.free
      && currEntry.data.Length == if counted < Counted() then Counted() else block
    }

    /** Makes ready for a value of so many bytes, if that is in range. */
    method Await(key: Bytes, numBytes: int) returns (ok: bool)
      requires Valid() && state == NewCommand
      modifies this`state, currEntry, currEntry.data
      ensures Valid() && (currEntry.data == old(currEntry.data) || fresh(currEntry.data))
      ensures var accepted := 0 < numBytes <= MAX_VALUE;
              && ok == (accepted ==> !MiniMemcached.TooGreat(key))
              && (state == State.ReceiveValue <==> accepted && ok)
              && (accepted && ok ==> currEntry.Key() == key && currEntry.free == numBytes && Renewed(old(Counted()), old(currEntry.data.Length)))
              && (!accepted ==> currEntry.data == old(currEntry.data) && Counted() == old(Counted()))
    {
      if numBytes <= 0 || numBytes > MAX_VALUE { return true; }
      if MiniMemcached.TooGreat(key) { return false; }
      currEntry.ResetKeyFor(key, numBytes);
      state := State.ReceiveValue;
      ok := true;
    }

    /** The key and the number of bytes; between them stand two words that nothing looks at. */
    method FourWords(tokenizer: Tokenizer) returns (enough: bool, key: Bytes, bytes: Bytes)
      requires tokenizer.Valid()
      modifies tokenizer
      ensures enough == (|old(tokenizer.left)| >= 4)
      ensures enough ==> key == old(tokenizer.left)[0] && bytes == old(tokenizer.left)[3]
    {
      bytes := [];
      key := tokenizer.NextToken();
      enough := tokenizer.HasMoreToken();
      if !enough { return; }
      var flags := tokenizer.NextToken();
      enough := tokenizer.HasMoreToken();
      if !enough { return; }
      var exptime := tokenizer.NextToken();
      enough := tokenizer.HasMoreToken();
      if !enough { return; }
      bytes := tokenizer.NextToken();
    }

    /** Finds the command of a line and does what it says. */
    method HandleCommand(req: Bytes) returns (ok: bool)
      requires Valid() && state == NewCommand
      modifies this`state, this`command, this`sent, currEntry, currEntry.data
      ensures Valid() && (currEntry.data == old(currEntry.data) || fresh(currEntry.data))
      ensures ok ==> Obeyed(old(AsSession()), req, AsSession())
      ensures !ok ==> Refused(old(AsSession()), req)
    {
      var tokenizer := new Tokenizer(req);
      ghost var ss, t := AsSession(), tokenizer.left;
      var more := tokenizer.HasMoreToken();
      if !more {
        Reply(Ascii("Error\r\n"));
        ObeyedLine(ss, req, t, AsSession());
        return true;
      }
      command := tokenizer.NextToken();
      ok := Route(tokenizer);
      if ok {
        ObeyedLine(ss, req, t, AsSession());
      } else {
        RefusedLine(ss, req, t);
      }
    }

    /** Calls the handler of the command. */
    method Route(tokenizer: Tokenizer) returns (ok: bool)
      requires Valid() && tokenizer.Valid() && state == NewCommand
      modifies this`state, this`sent, tokenizer, currEntry, currEntry.data
      ensures Valid() && (currEntry.data == old(currEntry.data) || fresh(currEntry.data))
      ensures ok ==> Routed(old(AsSession()), command, old(tokenizer.left), AsSession())
      ensures !ok ==> RefusedArgs(old(AsSession()), command, old(tokenizer.left))
    {
      if command == TEST {
        TestHandler(tokenizer);
        ok := true;
      } else if command == GET {
        ok := GetHandler(tokenizer);
      } else if command == SET {
        ok := SetHandler(tokenizer);
      } else {
        Reply(Ascii("Invalid command:[%s]\r\n"));
        ok := true;
      }
    }

    // ---- The request loop -----------------------------------------------------------------------------------

    /** Takes as much of the awaited value as is at hand, and stores a copy of the entry. */
    method ReceiveValue(buf: Buffer.Buffer)
      requires Valid() && buf.Valid() && state == State.ReceiveValue && buf.ReadableBytes() > 0
      requires {buf, buf.data} !! server.Repr && buf.data != currEntry.data
      modifies this`state, this`command, this`sent, currEntry, currEntry.data, buf
      modifies server.Repr
      ensures Valid() && buf.Valid() && currEntry.data == old(currEntry.data) && buf.data == old(buf.data)
      ensures fresh(server.Repr - old(server.Repr))
      ensures |buf.Contents()| < |old(buf.Contents())|
      ensures Leads(old(AsSession()), old(buf.Contents()), AsSession(), buf.Contents())
    {
      ghost var ss, s := AsSession(), buf.Contents();
      var value := TakeIn(buf);
      TakeValueStep(ss, s, value, buf.Contents());
      var entry := new Entry.Entry.Copy(currEntry);
      Store(entry);
      Finish();
    }

    /** Moves what there is of the value from the buffer to the entry. */
    method TakeIn(buf: Buffer.Buffer) returns (value: Bytes)
      requires Valid() && buf.Valid() && state == State.ReceiveValue && buf.ReadableBytes() > 0
      requires {buf, buf.data} !! server.Repr && buf.data != currEntry.data
      modifies currEntry, currEntry.data, buf
      ensures Standing() && buf.Valid() && currEntry.data == old(currEntry.data) && buf.data == old(buf.data)
      ensures |value| == (if |old(buf.Contents())| < old(currEntry.free) then |old(buf.Contents())| else old(currEntry.free))
      ensures old(buf.Contents()) == value + buf.Contents()
      ensures currEntry.Hashed() && currEntry.free >= 0
      ensures currEntry.Key() == old(currEntry.Key()) && currEntry.Value() == value && Counted() == old(Counted())
    {
      var numBytes := if buf.ReadableBytes() < currEntry.free then buf.ReadableBytes() else currEntry.free;
      value := buf.Peek(numBytes);
      assert buf.Contents() == value + buf.Contents()[numBytes..];
      currEntry.Append(value);
      buf.Retrieve(numBytes);
    }

    /** Hands a copy of the entry to the store. */
    method Store(entry: Entry.Entry)
      requires Standing() && entry.Valid() && entry.Hashed() && !MiniMemcached.TooGreat(entry.Key())
      requires currEntry != entry && currEntry.data != entry.data && {entry, entry.data} !! server.Repr
      modifies server.Repr
      ensures Standing() && fresh(server.Repr - old(server.Repr) - {entry, old(entry.data)})
      ensures server.view == old(server.view[entry.Key() := entry.Value()])
    {
      server.Set(entry);
    }

    /** Answers, and forgets the request. */
    method Finish()
      requires Standing()
      modifies this`state, this`command, this`sent, currEntry
      ensures Valid() && state == NewCommand && sent == old(sent) + Ascii("STORED\r\n")
      ensures currEntry.data == old(currEntry.data) && Counted() == old(Counted())
    {
      Reply(Ascii("STORED\r\n"));
      state := NewCommand;
      command := [];
      currEntry.Reset();
    }

    /** The line that begins the buffer, if it is whole, and the length of its end. */
    method FrontLine(buf: Buffer.Buffer) returns (found: bool, line: Bytes, mark: nat)
      requires buf.Valid()
      ensures found ==> IsFront(buf.Contents(), line, mark) && 0 < |line| + mark <= |buf.Contents()|
      ensures !found ==> LineEnd(buf.Contents()).NoEnd?
    {
      found, line, mark := false, [], 0;
      var crlf := buf.FindCRLF();
      FirstIs(buf.Contents(), crlf);
      if crlf >= 0 {
        line := buf.Peek(crlf);
        return true, line, 2;
      }
      var lf := buf.FindEOL();
      FirstIs(buf.Contents(), lf);
      if lf >= 0 {
        line := buf.Peek(lf);
        return true, line, 1;
      }
    }

    /** One turn of the loop while a line is awaited; `line` tells whether there was one. */
    method NextLine(buf: Buffer.Buffer) returns (line: bool, ok: bool)
      requires Valid() && buf.Valid() && state == NewCommand && buf.ReadableBytes() > 0
      requires {buf, buf.data} !! server.Repr && buf.data != currEntry.data
      modifies this`state, this`command, this`sent, currEntry, currEntry.data, buf
      ensures Valid() && buf.Valid() && buf.data == old(buf.data)
      ensures currEntry.data == old(currEntry.data) || fresh(currEntry.data)
      ensures ok && line ==> |buf.Contents()| < |old(buf.Contents())|
      ensures ok ==> Leads(old(AsSession()), old(buf.Contents()), AsSession(), buf.Contents())
      ensures ok && !line ==> AtRest(AsSession(), buf.Contents()) && buf.Contents() == old(buf.Contents())
      ensures !ok ==> GetsStuck(old(AsSession()), old(buf.Contents()))
    {
      var req, mark;
      line, req, mark := FrontLine(buf);
      if !line {
        LeadsNowhere(AsSession(), buf.Contents());
        return false, true;
      }
      ok := TakeLine(buf, req, mark);
    }

    /** Does what the line at the front of the buffer says, and takes it off. */
    method TakeLine(buf: Buffer.Buffer, req: Bytes, mark: nat) returns (ok: bool)
      requires Valid() && buf.Valid() && state == NewCommand && {buf, buf.data} !! server.Repr && buf.data != currEntry.data
      requires IsFront(buf.Contents(), req, mark) && 0 < |req| + mark <= |buf.Contents()|
      modifies this`state, this`command, this`sent, currEntry, currEntry.data, buf
      ensures Valid() && buf.Valid() && buf.data == old(buf.data)
      ensures currEntry.data == old(currEntry.data) || fresh(currEntry.data)
      ensures |buf.Contents()| < |old(buf.Contents())|
      ensures ok ==> Leads(old(AsSession()), old(buf.Contents()), AsSession(), buf.Contents())
      ensures !ok ==> GetsStuck(old(AsSession()), old(buf.Contents()))
    {
      ghost var ss, s := AsSession(), buf.Contents();
      ok := HandleLine(buf, req);
      ghost var tt := AsSession();
      buf.Retrieve(|req| + mark);
      assert AsSession() == tt;
      if ok {
        TakeLineStep(ss, s, req, mark, tt, buf.Contents());
      } else {
        StuckLine(ss, s, req, mark);
      }
    }

    /** An empty line is no request; the buffer that the line came from stays as it is meanwhile. */
    method HandleLine(ghost buf: Buffer.Buffer, req: Bytes) returns (ok: bool)
      requires Valid() && buf.Valid() && state == NewCommand && buf.data != currEntry.data
      modifies this`state, this`command, this`sent, currEntry, currEntry.data
      ensures Valid() && (currEntry.data == old(currEntry.data) || fresh(currEntry.data))
      ensures !ok ==> req != [] && Refused(old(AsSession()), req)
      ensures ok ==> if req == [] then AsSession() == old(AsSession()) else Obeyed(old(AsSession()), req, AsSession())
      ensures buf.Valid() && buf.Contents() == old(buf.Contents())
    {
      ok := true;
      if req != [] { ok := HandleCommand(req); }
    }

    /** The loop: lines and values as long as there are any. It ends on every input, and leaves the conversation and the
        buffer exactly as the protocol says, unless a key does not fit. */
    method MsgCb(buf: Buffer.Buffer) returns (ok: bool)
      requires Valid() && buf.Valid() && {buf, buf.data} !! server.Repr && buf.data != currEntry.data
      modifies this`state, this`command, this`sent, currEntry, currEntry.data, buf
      modifies server.Repr
      ensures Valid() && buf.Valid() && buf.data == old(buf.data) && {buf, buf.data} !! server.Repr && buf.data != currEntry.data
      ensures currEntry.data == old(currEntry.data) || fresh(currEntry.data)
      ensures fresh(server.Repr - old(server.Repr))
      ensures ok ==> (AsSession(), buf.Contents()) == Take(old(AsSession()), old(buf.Contents()))
      ensures ok == !Take(old(AsSession()), old(buf.Contents())).0.stuck
    {
      ok := true;
      ghost var ss, s := AsSession(), buf.Contents();
      LeadsNowhere(ss, s);
      var more := buf.ReadableBytes() > 0;
      while more
        invariant Valid() && buf.Valid() && buf.data == old(buf.data) && {buf, buf.data} !! server.Repr && buf.data != currEntry.data
        invariant currEntry.data == old(currEntry.data) || fresh(currEntry.data)
        invariant fresh(server.Repr - old(server.Repr))
        invariant Leads(ss, s, AsSession(), buf.Contents())
        invariant more ==> buf.Contents() != []
        invariant !more ==> AtRest(AsSession(), buf.Contents())
        decreases |buf.Contents()|, more
      {
        more, ok := Turn(buf, ss, s);
        if !ok {
          StuckAtLast(ss, s);
          return;
        }
      }
      LeadsToRest(ss, s, AsSession(), buf.Contents());
    }

    /** One turn of the loop; `more` tells whether there is to be another. */
    method Turn(buf: Buffer.Buffer, ghost ss: Session, ghost s: Bytes)
      returns (more: bool, ok: bool)
      requires Valid() && buf.Valid() && {buf, buf.data} !! server.Repr && buf.data != currEntry.data
      requires buf.Contents() != [] && Leads(ss, s, AsSession(), buf.Contents())
      modifies this`state, this`command, this`sent, currEntry, currEntry.data, buf
      modifies server.Repr
      ensures Valid() && buf.Valid() && buf.data == old(buf.data) && {buf, buf.data} !! server.Repr && buf.data != currEntry.data
      ensures currEntry.data == old(currEntry.data) || fresh(currEntry.data)
      ensures fresh(server.Repr - old(server.Repr))
      ensures ok ==> Leads(ss, s, AsSession(), buf.Contents())
      ensures ok && more ==> |buf.Contents()| < |old(buf.Contents())| && buf.Contents() != []
      ensures ok && !more ==> |buf.Contents()| <= |old(buf.Contents())| && AtRest(AsSession(), buf.Contents())
      ensures !ok ==> GetsStuck(ss, s)
    {
      ghost var tt, t := AsSession(), buf.Contents();
      more, ok := true, true;
      if state == NewCommand {
        more, ok := NextLine(buf);
      } else {
        ReceiveValue(buf);
      }
      if ok {
        LeadsOn(ss, s, tt, t, AsSession(), buf.Contents());
      } else {
        StuckLater(ss, s, tt, t);
      }
      more := more && buf.ReadableBytes() > 0;
    }
  }

  lemma EchoStep(sent: Bytes, token: Bytes, words: seq<Bytes>)
    ensures sent + Echo([token] + words) == sent + token + [SPACE] + Echo(words)
  {
    assert ([token] + words)[1..] == words;
    assert sent + (token + [SPACE] + Echo(words)) == sent + token + [SPACE] + Echo(words);
  }

  /** A new store and one client whose bytes arrive in chunks: the conversation and what is left in the input buffer are
      what the protocol says, unless a key does not fit. */
  method Serve(chunks: seq<Bytes>) returns (c: Conversation, buf: Buffer.Buffer, ok: bool)
    ensures c.Valid() && buf.Valid()
    ensures var start := Session(map[MiniMemcached.MAX_KEY := []], ALine, [], 135, 135, false);
            && ok == !TakeAll(start, [], chunks).0.stuck
            && (ok ==> (c.AsSession(), buf.Contents()) == TakeAll(start, [], chunks))
  {
    var server := new MiniMemcached.MiniMemcached();
    c := new Conversation(server);
    buf := new Buffer.Buffer(Buffer.INITIAL_SIZE);
    ok := true;
    ghost var start := c.AsSession();
    SoFarAtFirst(start, chunks);
    var i := 0;
    while i < |chunks|
      invariant 0 <= i <= |chunks| && c.server == server && fresh(c) && fresh(c.currEntry) && fresh(c.currEntry.data)
      invariant fresh(server.Repr) && fresh(buf) && fresh(buf.data)
      invariant c.Valid() && buf.Valid() && {buf, buf.data} !! server.Repr && buf.data != c.currEntry.data
      invariant SoFar(start, chunks, i, c.AsSession(), buf.Contents())
    {
      ghost var ss, rest := c.AsSession(), buf.Contents();
      ok := NextRead(c, buf, chunks[i]);
      if !ok {
        StuckChunk(start, chunks, i, ss, rest);
        return;
      }
      OneMoreChunk(start, chunks, i, ss, rest, c.AsSession(), buf.Contents());
      i := i + 1;
    }
    AllChunks(start, chunks, c.AsSession(), buf.Contents());
  }

  /** Bytes arrive behind those that wait, and the callback runs. */
  method NextRead(c: Conversation, buf: Buffer.Buffer, chunk: Bytes) returns (ok: bool)
    requires c.Valid() && buf.Valid() && {buf, buf.data} !! c.server.Repr && buf.data != c.currEntry.data
    modifies c`state, c`command, c`sent, c.currEntry, c.currEntry.data, buf, buf.data, c.server.Repr
    ensures c.Valid() && buf.Valid() && {buf, buf.data} !! c.server.Repr && buf.data != c.currEntry.data
    ensures buf.data == old(buf.data) || fresh(buf.data)
    ensures c.currEntry.data == old(c.currEntry.data) || fresh(c.currEntry.data)
    ensures fresh(c.server.Repr - old(c.server.Repr))
    ensures ok == !Take(old(c.AsSession()), old(buf.Contents()) + chunk).0.stuck
    ensures ok ==> (c.AsSession(), buf.Contents()) == Take(old(c.AsSession()), old(buf.Contents()) + chunk)
  {
    ghost var ss := c.AsSession();
    buf.Append(chunk);
    assert c.AsSession() == ss;
    ok := c.MsgCb(buf);
  }
}
