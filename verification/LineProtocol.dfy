/** What the request loop makes of a stream of bytes: lines, requests, and what becomes of the store. */
module LineProtocol {
  import opened Bytes
  import opened Tokenizer
  import Entry
  import Buffer
  import MiniMemcached

  // ---- Lines ------------------------------------------------------------------------------------

  predicate CRLFAt(s: Bytes, i: nat) {
    i + 1 < |s| && s[i] == CR && s[i + 1] == LF
  }

  /** The first CR LF from `from` on, or -1. */
  function FirstCRLF(s: Bytes, from: nat): (r: int)
    ensures -1 <= r && (r >= 0 ==> from <= r && CRLFAt(s, r))
    decreases |s| - from
  {
    if from >= |s| then -1 else if CRLFAt(s, from) then from else FirstCRLF(s, from + 1)
  }

  /** The first LF from `from` on, or -1. */
  function FirstLF(s: Bytes, from: nat): (r: int)
    ensures -1 <= r && (r >= 0 ==> from <= r < |s| && s[r] == LF)
    decreases |s| - from
  {
    if from >= |s| then -1 else if s[from] == LF then from else FirstLF(s, from + 1)
  }

  const CRLF: Bytes := [CR, LF]
  const NEWLINE: Bytes := [LF]

  /** The first line end from `from` on: that of CR LF if there is one anywhere, else that of a lone LF. The line's length
      and the length of what ends it. */
  datatype End = NoEnd | End(len: nat, mark: nat)

  function LineEndFrom(s: Bytes, from: nat): (e: End)
    ensures e.End? ==> 0 < e.mark && from + e.len + e.mark <= |s|
  {
    var c := FirstCRLF(s, from);
    if c >= 0 then End(c - from, 2)
    else
      var f := FirstLF(s, from);
      if f >= 0 then End(f - from, 1) else NoEnd
  }

  function LineEnd(s: Bytes): (e: End)
    ensures e.End? ==> e.mark > 0 && e.len + e.mark <= |s|
  {
    LineEndFrom(s, 0)
  }

  /** An empty line is no request. */
  function Request(line: Bytes): seq<Bytes> {
    if line == [] then [] else [line]
  }

  /** The requests in a stream from `from` on, in order. */
  function Requests(s: Bytes, from: nat): seq<Bytes>
    decreases |s| - from
  {
    match LineEndFrom(s, from)
    case NoEnd => []
    case End(len, mark) => Request(s[from..from + len]) + Requests(s, from + len + mark)
  }

  /** Where the last whole line ends. */
  function Stop(s: Bytes, from: nat): (k: nat)
    ensures from <= k && (from <= |s| ==> k <= |s|)
    decreases |s| - from
  {
    match LineEndFrom(s, from)
    case NoEnd => from
    case End(len, mark) => Stop(s, from + len + mark)
  }

  /** The requests when the stream arrives in chunks, each handled as far as it goes, and what is left at the end. */
  function Feed(rest: Bytes, chunks: seq<Bytes>): (seq<Bytes>, Bytes)
    decreases |chunks|
  {
    if chunks == [] then ([], rest)
    else
      var s := rest + chunks[0];
      var (more, end) := Feed(s[Stop(s, 0)..], chunks[1..]);
      (Requests(s, 0) + more, end)
  }

  function Concat(chunks: seq<Bytes>): Bytes {
    if chunks == [] then [] else chunks[0] + Concat(chunks[1..])
  }

  lemma {:induction false} NoneBefore(s: Bytes, from: nat)
    ensures forall i: nat | from <= i && (FirstCRLF(s, from) < 0 || i < FirstCRLF(s, from)) :: !CRLFAt(s, i)
    ensures forall i: nat | from <= i < |s| && (FirstLF(s, from) < 0 || i < FirstLF(s, from)) :: s[i] != LF
    decreases |s| - from
  {
    if from < |s| { NoneBefore(s, from + 1); }
  }

  lemma Occurs(s: Bytes, i: nat)
    ensures Buffer.OccursAt(s, i, CRLF) <==> CRLFAt(s, i)
    ensures Buffer.OccursAt(s, i, NEWLINE) <==> i < |s| && s[i] == LF
  {
    if i + 2 <= |s| { assert s[i..i + 2] == [s[i], s[i + 1]]; }
    if i < |s| { assert s[i..i + 1] == [s[i]]; }
  }

  /** These are the places that the buffer's own searches find. */
  lemma FirstIs(s: Bytes, r: int)
    ensures Buffer.IsFirst(s, CRLF, 0, r) ==> r == FirstCRLF(s, 0)
    ensures Buffer.IsFirst(s, NEWLINE, 0, r) ==> r == FirstLF(s, 0)
  {
    NoneBefore(s, 0);
    var c, f := FirstCRLF(s, 0), FirstLF(s, 0);
    if c >= 0 { Occurs(s, c); }
    if f >= 0 { Occurs(s, f); }
    if r >= 0 { Occurs(s, r); }
  }

  predicate Spelled(k: int) { true }

  // ---- Requests ---------------------------------------------------------------------------------------

  predicate Blank(b: Byte) {
    b == SPACE || 9 <= b <= 13
  }

  predicate Digit(b: Byte) {
    48 <= b <= 57
  }

  /** The number that the leading digits stand for, after `acc`. */
  function Number(s: Bytes, acc: nat): nat {
    if s != [] && Digit(s[0]) then Number(s[1..], 10 * acc + (s[0] - 48)) else acc
  }

  /** atoi: blanks, a sign, digits; whatever follows is ignored. */
  function Atoi(s: Bytes): int {
    if s == [] then 0
    else if Blank(s[0]) then Atoi(s[1..])
    else if s[0] == 45 then var n: int := Number(s[1..], 0); -n
    else if s[0] == 43 then Number(s[1..], 0)
    else Number(s, 0)
  }

  /** The decimal digits of a number. */
  function Decimal(n: nat): Bytes {
    if n < 10 then [48 + n] else Decimal(n / 10) + [48 + n % 10]
  }

  /** The number goes on behind the digits of `n`. */
  lemma {:induction false} NumberIs(n: nat, rest: Bytes)
    ensures Number(Decimal(n) + rest, 0) == Number(rest, n)
  {
    if n < 10 {
      assert (Decimal(n) + rest)[1..] == rest;
    } else {
      var last: Bytes := [48 + n % 10];
      assert Decimal(n) + rest == Decimal(n / 10) + (last + rest);
      NumberIs(n / 10, last + rest);
      assert (last + rest)[1..] == rest;
    }
  }

  lemma {:induction false} DecimalBegins(n: nat)
    ensures Decimal(n) != [] && Digit(Decimal(n)[0])
  {
    if n >= 10 { DecimalBegins(n / 10); }
  }

  lemma {:induction false} AtoiSkips(blanks: Bytes, s: Bytes)
    requires forall b | b in blanks :: Blank(b)
    ensures Atoi(blanks + s) == Atoi(s)
    decreases |blanks|
  {
    if blanks == [] {
      assert blanks + s == s;
    } else {
      AtoiSkips(blanks[1..], s);
      assert (blanks + s)[1..] == blanks[1..] + s;
    }
  }

  /** Whatever number is written out in decimal digits, behind blanks and with nothing or another character after it, is read
      as that number; with a minus sign in front, as its negative. */
  lemma AtoiReads(blanks: Bytes, n: nat, rest: Bytes)
    requires (forall b | b in blanks :: Blank(b)) && (rest == [] || !Digit(rest[0]))
    ensures Atoi(blanks + (Decimal(n) + rest)) == n
    ensures Atoi(blanks + ([45] + (Decimal(n) + rest))) + n == 0
  {
    var digits, minus := Decimal(n) + rest, [45] + (Decimal(n) + rest);
    DecimalBegins(n);
    NumberIs(n, rest);
    AtoiSkips(blanks, digits);
    AtoiSkips(blanks, minus);
    assert digits[0] == Decimal(n)[0];
    assert minus[1..] == digits;
  }

  const MAX_VALUE: int := 1024

  /** What the connection waits for: a line, or a value for a key, with room for so many bytes. */
  datatype Want = ALine | AValue(key: Bytes, room: nat)

  /** A connection to the store, as a plain value. The entry at hand has a block of memory and counts on some of it;
      `stuck` tells that a key did not fit, and stays. */
  datatype Session = Session(store: map<Bytes, Bytes>, want: Want, sent: Bytes, block: nat, counted: int, stuck: bool)

  /** A `set` that is followed by a value: four words after the command, the last a number in range. */
  predicate AcceptsArgs(command: Bytes, args: seq<Bytes>) {
    command == SET && |args| >= 4 && 0 < Atoi(args[3]) <= MAX_VALUE
  }

  const TEST: Bytes := [84, 101, 115, 116]
  const GET: Bytes := [103, 101, 116]
  const SET: Bytes := [115, 101, 116]

  predicate AcceptsWords(t: seq<Bytes>) {
    t != [] && AcceptsArgs(t[0], t[1..])
  }

  predicate Accepts(line: Bytes) {
    AcceptsWords(Tokens(line))
  }

  function Echo(words: seq<Bytes>): Bytes {
    if words == [] then [CR, LF] else words[0] + [SPACE] + Echo(words[1..])
  }

  function Answer(store: map<Bytes, Bytes>, key: Bytes): Bytes {
    (if key in store then Entry.Rendered(key, store[key]) else []) + Ascii("END\r\n")
  }

  function Ascii(s: string): Bytes {
    Entry.Ascii(s)
  }

  /** Makes ready for a value; the block is replaced only if the room that is counted on is too small. */
  function Await(ss: Session, key: Bytes, n: nat): Session {
    var need := |key| + n;
    ss.(want := AValue(key, n), block := if ss.counted < need then need else ss.block, counted := need)
  }

  /** What a command with its arguments does. A key to look up is copied to the block, which has to be long enough. */
  function ObeyCommand(ss: Session, command: Bytes, args: seq<Bytes>): Session {
    if command == TEST then ss.(sent := ss.sent + Echo(args))
    else if command == GET then
      if args == [] then ss
      else if |args[0]| > ss.block || MiniMemcached.TooGreat(args[0]) then ss.(stuck := true)
      else ss.(sent := ss.sent + Answer(ss.store, args[0]))
    else if command == SET then
      if !AcceptsArgs(command, args) then ss
      else if MiniMemcached.TooGreat(args[0]) then ss.(stuck := true)
      else Await(ss, args[0], Atoi(args[3]))
    else ss.(sent := ss.sent + Ascii("Invalid command:[%s]\r\n"))
  }

  function ObeyWords(ss: Session, t: seq<Bytes>): Session {
    if t == [] then ss.(sent := ss.sent + Ascii("Error\r\n")) else ObeyCommand(ss, t[0], t[1..])
  }

  /** What a line that is not empty does. */
  function Obey(ss: Session, line: Bytes): Session {
    if ss.stuck then ss else ObeyWords(ss, Tokens(line))
  }

  function Stored(ss: Session, value: Bytes): Session
    requires ss.want.AValue?
  {
    ss.(store := ss.store[ss.want.key := value], want := ALine, sent := ss.sent + Ascii("STORED\r\n"))
  }

  /** How far the bytes at hand are handled, and what is left. A value is whatever part of it is at hand. */
  function Take(ss: Session, s: Bytes): (Session, Bytes)
    decreases |s|
  {
    if s == [] then (ss, s)
    else
      match ss.want
      case ALine =>
        var e := LineEnd(s);
        if e.NoEnd? then (ss, s)
        else Take(if e.len == 0 then ss else Obey(ss, s[..e.len]), s[e.len + e.mark..])
      case AValue(_, room) =>
        if room == 0 then (ss, s)
        else
          var n := if |s| < room then |s| else room;
          Take(Stored(ss, s[..n]), s[n..])
  }

  /** Taking `s` comes to the same as taking `t` from the session `tt`; spelled out only where `Spelled` is named. */
  ghost predicate Leads(ss: Session, s: Bytes, tt: Session, t: Bytes) {
    forall k | Spelled(k) :: Take(ss, s) == Take(tt, t)
  }

  lemma LeadsOn(ss: Session, s: Bytes, tt: Session, t: Bytes, uu: Session, u: Bytes)
    requires Leads(ss, s, tt, t) && Leads(tt, t, uu, u)
    ensures Leads(ss, s, uu, u)
  {
    assert Spelled(0);
  }

  lemma LeadsNowhere(ss: Session, s: Bytes)
    ensures Leads(ss, s, ss, s)
  {
  }

  /** Nothing more can be taken: no bytes, or no whole line. */
  predicate AtRest(ss: Session, s: Bytes) {
    s == [] || (ss.want.ALine? && LineEnd(s).NoEnd?)
  }

  lemma LeadsToRest(ss: Session, s: Bytes, tt: Session, t: Bytes)
    requires Leads(ss, s, tt, t) && AtRest(tt, t)
    ensures Take(ss, s) == (tt, t)
  {
    assert Spelled(0);
  }

  /** `tt` is what obeying the line makes of `ss`; spelled out only where `Spelled` is named. */
  ghost predicate Obeyed(ss: Session, line: Bytes, tt: Session) {
    forall k | Spelled(k) :: tt == Obey(ss, line)
  }

  ghost predicate Routed(ss: Session, command: Bytes, args: seq<Bytes>, tt: Session) {
    forall k | Spelled(k) :: tt == ObeyCommand(ss, command, args)
  }

  lemma ObeyedLine(ss: Session, line: Bytes, t: seq<Bytes>, tt: Session)
    requires t == Tokens(line) && !ss.stuck
    requires if t == [] then tt == ss.(sent := ss.sent + Ascii("Error\r\n")) else Routed(ss, t[0], t[1..], tt)
    ensures Obeyed(ss, line, tt)
  {
    assert Spelled(0);
  }

  /** The first line, and the length of its end; spelled out only where `Spelled` is named. */
  ghost predicate IsFront(s: Bytes, line: Bytes, mark: nat) {
    forall k | Spelled(k) :: LineEnd(s) == End(|line|, mark) && line == s[..|line|]
  }

  /** One step of `Take`, for a line with its end. */
  lemma TakeLineStep(ss: Session, s: Bytes, line: Bytes, mark: nat, tt: Session, rest: Bytes)
    requires ss.want.ALine? && IsFront(s, line, mark) && |line| + mark <= |s| && rest == s[|line| + mark..]
    requires if line == [] then tt == ss else Obeyed(ss, line, tt)
    ensures Leads(ss, s, tt, rest)
  {
    assert Spelled(0);
  }

  /** One step of `Take`, for a value. */
  lemma TakeValueStep(ss: Session, s: Bytes, value: Bytes, rest: Bytes)
    requires s != [] && ss.want.AValue? && ss.want.room > 0 && s == value + rest
    requires |value| == if |s| < ss.want.room then |s| else ss.want.room
    ensures Leads(ss, s, Stored(ss, value), rest)
  {
    assert s[..|value|] == value && s[|value|..] == rest;
  }

  /** Taking `s` comes to a key that does not fit; spelled out only where `Spelled` is named. */
  ghost predicate GetsStuck(ss: Session, s: Bytes) {
    forall k | Spelled(k) :: Take(ss, s).0.stuck
  }

  /** Obeying the line gets stuck; spelled out only where `Spelled` is named. */
  ghost predicate Refused(ss: Session, line: Bytes) {
    forall k | Spelled(k) :: Obey(ss, line).stuck && Obey(ss, line).want.ALine?
  }

  ghost predicate RefusedArgs(ss: Session, command: Bytes, args: seq<Bytes>) {
    forall k | Spelled(k) :: ObeyCommand(ss, command, args).stuck && ObeyCommand(ss, command, args).want.ALine?
  }

  lemma RefusedLine(ss: Session, line: Bytes, t: seq<Bytes>)
    requires t == Tokens(line) && t != [] && !ss.stuck && RefusedArgs(ss, t[0], t[1..])
    ensures Refused(ss, line)
  {
    assert Spelled(0);
  }

  lemma StuckLine(ss: Session, s: Bytes, line: Bytes, mark: nat)
    requires ss.want.ALine? && IsFront(s, line, mark) && |line| + mark <= |s|
    requires line != [] && Refused(ss, line)
    ensures GetsStuck(ss, s)
  {
    assert Spelled(0);
    StaysStuck(Obey(ss, line), s[|line| + mark..]);
  }

  lemma StuckLater(ss: Session, s: Bytes, tt: Session, t: Bytes)
    requires Leads(ss, s, tt, t) && GetsStuck(tt, t)
    ensures GetsStuck(ss, s)
  {
    assert Spelled(0);
  }

  lemma StuckAtLast(ss: Session, s: Bytes)
    requires GetsStuck(ss, s)
    ensures Take(ss, s).0.stuck
  {
    assert Spelled(0);
  }

  lemma {:induction false} StuckStaysInChunks(ss: Session, rest: Bytes, chunks: seq<Bytes>)
    requires ss.stuck && ss.want.ALine?
    ensures TakeAll(ss, rest, chunks).0.stuck
    decreases |chunks|
  {
    if chunks != [] {
      StaysStuck(ss, rest + chunks[0]);
      var (tt, left) := Take(ss, rest + chunks[0]);
      StuckStaysInChunks(tt, left, chunks[1..]);
    }
  }

  /** Once stuck, stuck for good. */
  lemma {:induction false} StaysStuck(ss: Session, s: Bytes)
    requires ss.stuck && ss.want.ALine?
    ensures Take(ss, s).0.stuck && Take(ss, s).0.want.ALine?
    decreases |s|
  {
    if s != [] {
      match LineEnd(s)
      case NoEnd =>
      case End(len, mark) => StaysStuck(ss, s[len + mark..]);
    }
  }

  function ObeyAll(ss: Session, lines: seq<Bytes>): Session
    decreases |lines|
  {
    if lines == [] then ss else ObeyAll(Obey(ss, lines[0]), lines[1..])
  }

  function TakeAll(ss: Session, rest: Bytes, chunks: seq<Bytes>): (Session, Bytes)
    decreases |chunks|
  {
    if chunks == [] then (ss, rest)
    else
      var (tt, left) := Take(ss, rest + chunks[0]);
      TakeAll(tt, left, chunks[1..])
  }

  /** After `i` chunks the session is `ss`, with `rest` left; spelled out only where `Spelled` is named. */
  ghost predicate SoFar(start: Session, chunks: seq<Bytes>, i: nat, ss: Session, rest: Bytes)
    requires i <= |chunks|
  {
    forall k | Spelled(k) :: TakeAll(ss, rest, chunks[i..]) == TakeAll(start, [], chunks)
  }

  lemma SoFarAtFirst(start: Session, chunks: seq<Bytes>)
    ensures SoFar(start, chunks, 0, start, [])
  {
    assert chunks[0..] == chunks;
  }

  lemma OneMoreChunk(start: Session, chunks: seq<Bytes>, i: nat, ss: Session, rest: Bytes, tt: Session, left: Bytes)
    requires i < |chunks| && SoFar(start, chunks, i, ss, rest) && (tt, left) == Take(ss, rest + chunks[i])
    ensures SoFar(start, chunks, i + 1, tt, left)
  {
    assert Spelled(0);
    assert chunks[i..][0] == chunks[i] && chunks[i..][1..] == chunks[i + 1..];
  }

  lemma ObeyStuck(ss: Session, line: Bytes)
    requires ss.want.ALine?
    ensures Obey(ss, line).stuck ==> Obey(ss, line).want.ALine?
  {
  }

  /** A session gets stuck only at a line. */
  lemma {:induction false} StuckAtLine(ss: Session, s: Bytes)
    requires ss.stuck ==> ss.want.ALine?
    ensures Take(ss, s).0.stuck ==> Take(ss, s).0.want.ALine?
    decreases |s|
  {
    if s != [] {
      match ss.want
      case ALine =>
        match LineEnd(s) {
          case NoEnd =>
          case End(len, mark) =>
            ObeyStuck(ss, s[..len]);
            StuckAtLine(if len == 0 then ss else Obey(ss, s[..len]), s[len + mark..]);
        }
      case AValue(_, room) =>
        var n := if |s| < room then |s| else room;
        if room > 0 { StuckAtLine(Stored(ss, s[..n]), s[n..]); }
    }
  }

  lemma StuckChunk(start: Session, chunks: seq<Bytes>, i: nat, ss: Session, rest: Bytes)
    requires i < |chunks| && SoFar(start, chunks, i, ss, rest) && Take(ss, rest + chunks[i]).0.stuck && !ss.stuck
    ensures TakeAll(start, [], chunks).0.stuck
  {
    assert Spelled(0);
    assert chunks[i..][0] == chunks[i] && chunks[i..][1..] == chunks[i + 1..];
    var (tt, left) := Take(ss, rest + chunks[i]);
    StuckAtLine(ss, rest + chunks[i]);
    StuckStaysInChunks(tt, left, chunks[i + 1..]);
  }

  lemma AllChunks(start: Session, chunks: seq<Bytes>, ss: Session, rest: Bytes)
    requires SoFar(start, chunks, |chunks|, ss, rest)
    ensures (ss, rest) == TakeAll(start, [], chunks)
  {
    assert Spelled(0);
  }

  // ---- Setting a value and getting it back ----------------------------------------------------------------

  predicate NoLineEnd(s: Bytes) {
    CR !in s && LF !in s
  }

  /** The words of a request, one space between them. */
  function Line(words: seq<Bytes>): Bytes {
    Joined(words, Gaps(|words|))
  }

  function Gaps(n: nat): seq<nat> {
    seq(n, i => if i == n - 1 then 0 else 1)
  }

  lemma {:induction false} JoinedStaysOnLine(words: seq<Bytes>, gaps: seq<nat>)
    requires |words| == |gaps| && forall w | w in words :: NoLineEnd(w)
    ensures NoLineEnd(Joined(words, gaps))
    decreases |words|
  {
    if words != [] {
      assert NoLineEnd(words[0]);
      JoinedStaysOnLine(words[1..], gaps[1..]);
    }
  }

  lemma LineTokens(words: seq<Bytes>)
    requires words != [] && forall w | w in words :: OneWord(w)
    ensures Tokens(Line(words)) == words && NoLineEnd(Line(words)) && Line(words) != []
  {
    var gaps := Gaps(|words|);
    assert forall w | w in words :: OneWord(w) ==> IsWord(w) && NoLineEnd(w);
    TokensOfJoined(0, words, gaps);
    assert Spaces(0) + Joined(words, gaps) == Joined(words, gaps);
    JoinedStaysOnLine(words, gaps);
    assert OneWord(words[0]);
  }

  /** A line that ends in CR LF is taken off the front. */
  lemma TakeLine(ss: Session, line: Bytes, rest: Bytes)
    requires ss.want.ALine? && NoLineEnd(line)
    ensures Take(ss, line + CRLF + rest) == Take(if line == [] then ss else Obey(ss, line), rest)
  {
    var s := line + CRLF + rest;
    NoneBefore(s, 0);
    assert CRLFAt(s, |line|);
    assert forall i | 0 <= i < |line| :: s[i] == line[i];
    assert LineEnd(s) == End(|line|, 2);
    assert s[..|line|] == line && s[|line| + 2..] == rest;
  }

  lemma TakeValue(ss: Session, value: Bytes, rest: Bytes)
    requires ss.want.AValue? && ss.want.room == |value| > 0
    ensures Take(ss, value + rest) == Take(Stored(ss, value), rest)
  {
    var s := value + rest;
    assert s[..|value|] == value && s[|value|..] == rest;
  }

  predicate OneWord(w: Bytes) {
    IsWord(w) && NoLineEnd(w)
  }

  /** A `set` whose number is written in decimal is accepted if and only if the number is from 1 to 1024. */
  lemma AcceptsMeans(key: Bytes, flags: Bytes, time: Bytes, n: nat)
    requires OneWord(key) && OneWord(flags) && OneWord(time)
    ensures Accepts(Line([SET, key, flags, time, Decimal(n)])) <==> 1 <= n <= 1024
  {
    var words := [SET, key, flags, time, Decimal(n)];
    DecimalIsWord(n);
    LineTokens(words);
    AtoiReads([], n, []);
    assert [] + (Decimal(n) + []) == Decimal(n);
  }

  lemma {:induction false} DecimalIsWord(n: nat)
    ensures OneWord(Decimal(n))
  {
    if n >= 10 { DecimalIsWord(n / 10); }
  }

  lemma TakeSet(ss: Session, key: Bytes, flags: Bytes, time: Bytes, number: Bytes, rest: Bytes)
    requires ss.want.ALine? && !ss.stuck && 0 < Atoi(number) <= MAX_VALUE && !MiniMemcached.TooGreat(key)
    requires OneWord(key) && OneWord(flags) && OneWord(time) && OneWord(number)
    ensures Take(ss, Line([SET, key, flags, time, number]) + CRLF + rest)
         == Take(Await(ss, key, Atoi(number)), rest)
  {
    var words := [SET, key, flags, time, number];
    LineTokens(words);
    assert Accepts(Line(words));
    TakeLine(ss, Line(words), rest);
  }

  lemma TakeGet(ss: Session, key: Bytes, rest: Bytes)
    requires ss.want.ALine? && !ss.stuck && OneWord(key) && |key| <= ss.block && !MiniMemcached.TooGreat(key)
    ensures Take(ss, Line([GET, key]) + CRLF + rest) == Take(ss.(sent := ss.sent + Answer(ss.store, key)), rest)
  {
    var words := [GET, key];
    LineTokens(words);
    TakeLine(ss, Line(words), rest);
  }

  lemma RepliesInBytes(store: map<Bytes, Bytes>, key: Bytes)
    requires key in store
    ensures Ascii("STORED\r\n") == [83, 84, 79, 82, 69, 68, 13, 10]
    ensures Answer(store, key) == [86, 65, 76, 85, 69, 32] + key + [13, 10] + store[key] + [69, 78, 68, 13, 10]
  {
    Entry.RenderedBytes(key, store[key]);
    assert Ascii("END\r\n") == [69, 78, 68, 13, 10];
  }

  /** A `set` with its value and a `get` for the same key: the value comes back, whatever the store held, and nothing else
      in the store changes. */
  lemma SetThenGet(ss: Session, key: Bytes, flags: Bytes, time: Bytes, number: Bytes, value: Bytes)
    requires ss.want.ALine? && !ss.stuck && ss.counted <= ss.block && !MiniMemcached.TooGreat(key)
    requires 0 < |value| <= MAX_VALUE && Atoi(number) == |value|
    requires OneWord(key) && OneWord(flags) && OneWord(time) && OneWord(number)
    ensures var get := Line([GET, key]) + CRLF + [];
            var set_ := Line([SET, key, flags, time, number]) + CRLF;
            var (tt, rest) := Take(ss, set_ + (value + (CRLF + get)));
            && tt.store == ss.store[key := value] && tt.want == ALine && !tt.stuck && rest == []
            && tt.sent == ss.sent + ([83, 84, 79, 82, 69, 68, 13, 10]
                                     + ([86, 65, 76, 85, 69, 32] + key + [13, 10] + value + [69, 78, 68, 13, 10]))
  {
    var get := Line([GET, key]) + CRLF + [];
    TakeSet(ss, key, flags, time, number, value + (CRLF + get));
    var tt := Await(ss, key, |value|);
    var uu := Stored(tt, value);
    TakeValue(tt, value, CRLF + get);
    assert [] + CRLF + get == CRLF + get;
    TakeLine(uu, [], get);
    TakeGet(uu, key, []);
    Grouped(ss.sent, Ascii("STORED\r\n"), Answer(uu.store, key));
    RepliesInBytes(uu.store, key);
  }

  // ---- What a client makes of the replies ----------------------------------------------------------------

  datatype Reply = Miss | Hit(key: Bytes, value: Bytes) | Garbled

  /** The bytes of "VALUE " and of the end mark. */
  const VALUE_MARK: Bytes := [86, 65, 76, 85, 69, 32]
  const END_MARK: Bytes := [69, 78, 68, 13, 10]

  /** Reads the reply to a `get`: the key is what stands between the first mark and the first line end. */
  function ReadReply(r: Bytes): Reply {
    if r == END_MARK then Miss
    else if |r| < 13 || r[..6] != VALUE_MARK || r[|r| - 5..] != END_MARK then Garbled
    else
      var c := FirstCRLF(r, 6);
      if c < 0 || c + 7 > |r| then Garbled else Hit(r[6..c], r[c + 2..|r| - 5])
  }

  /** The first line end from `from` on is where it is seen with none before. */
  lemma FirstCRLFIs(s: Bytes, from: nat, c: nat)
    requires from <= c && CRLFAt(s, c) && forall i: nat | from <= i < c :: !CRLFAt(s, i)
    ensures FirstCRLF(s, from) == c
  {
    NoneBefore(s, from);
  }

  lemma HitReadsBack(key: Bytes, value: Bytes, r: Bytes)
    requires (forall i: nat :: !CRLFAt(key, i)) && r == VALUE_MARK + key + [13, 10] + value + END_MARK
    ensures ReadReply(r) == Hit(key, value)
  {
    var n := |key|;
    assert r[6..6 + n] == key && r[8 + n..|r| - 5] == value;
    forall i: nat | 6 <= i < 6 + n ensures !CRLFAt(r, i) {
      assert !CRLFAt(key, i - 6);
      assert r[i] == key[i - 6];
      if i + 1 < 6 + n { assert r[i + 1] == key[i - 5]; }
    }
    FirstCRLFIs(r, 6, 6 + n);
  }

  /** A client reads back, from the reply to a `get`, exactly the key and the value bound to it, or that there is none. */
  lemma AnswerReadsBack(store: map<Bytes, Bytes>, key: Bytes)
    requires forall i: nat :: !CRLFAt(key, i)
    ensures ReadReply(Answer(store, key)) == if key in store then Hit(key, store[key]) else Miss
  {
    if key in store {
      RepliesInBytes(store, key);
      HitReadsBack(key, store[key], Answer(store, key));
    } else {
      assert Ascii("END\r\n") == END_MARK;
    }
  }

  lemma {:induction false} SkippedSpaces(s: Bytes)
    ensures SkipSpaces(s) == s[|s| - |SkipSpaces(s)|..]
  {
    if s != [] && s[0] == SPACE { SkippedSpaces(s[1..]); }
  }

  predicate NoCRLF(s: Bytes) {
    forall i: nat | i < |s| :: !CRLFAt(s, i)
  }

  lemma PartHasNoCRLF(s: Bytes, i: nat, j: nat)
    requires NoCRLF(s) && i <= j <= |s|
    ensures NoCRLF(s[i..j])
  {
    forall k: nat | k < j - i ensures !CRLFAt(s[i..j], k) { assert !CRLFAt(s, i + k); }
  }

  lemma {:induction false} WordsHaveNoCRLF(s: Bytes, w: Bytes)
    requires NoCRLF(s) && w in Tokens(s)
    ensures NoCRLF(w)
    decreases |s|
  {
    var t := SkipSpaces(s);
    var n := |Word(t)|;
    SkippedSpaces(s);
    PartHasNoCRLF(s, |s| - |t|, |s|);
    assert s[|s| - |t|..|s|] == t;
    if w == Word(t) {
      PartHasNoCRLF(t, 0, n);
    } else {
      PartHasNoCRLF(t, n, |t|);
      assert t[n..|t|] == t[n..];
      WordsHaveNoCRLF(t[n..], w);
    }
  }

  /** Whatever line begins the stream, if it asks for a key the client reads back what the key is bound to. */
  lemma GetReadsBack(store: map<Bytes, Bytes>, s: Bytes)
    requires LineEnd(s).End? && |Tokens(s[..LineEnd(s).len])| >= 2
    ensures var key := Tokens(s[..LineEnd(s).len])[1];
            ReadReply(Answer(store, key)) == if key in store then Hit(key, store[key]) else Miss
  {
    var n := LineEnd(s).len;
    NoneBefore(s, 0);
    forall i: nat | i < n ensures !CRLFAt(s[..n], i) { assert CRLFAt(s[..n], i) ==> CRLFAt(s, i); }
    WordsHaveNoCRLF(s[..n], Tokens(s[..n])[1]);
    AnswerReadsBack(store, Tokens(s[..n])[1]);
  }

  /** An echo has the words, a space behind each, and a line end: split at its spaces it gives the words back. */
  lemma {:induction false} EchoReadsBack(words: seq<Bytes>)
    requires forall w | w in words :: IsWord(w)
    ensures var n := |Echo(words)| - 2;
            n >= 0 && Echo(words)[n..] == [13, 10] && Tokens(Echo(words)[..n]) == words
  {
    var gaps := seq(|words|, _ => 1);
    EchoIs(words);
    TokensOfJoined(0, words, gaps);
    assert Spaces(0) + Joined(words, gaps) == Joined(words, gaps);
    assert Echo(words)[..|Echo(words)| - 2] == Joined(words, gaps);
  }

  lemma {:induction false} EchoIs(words: seq<Bytes>)
    ensures Echo(words) == Joined(words, seq(|words|, _ => 1)) + [13, 10]
  {
    if words != [] {
      var gaps := seq(|words|, _ => 1);
      EchoIs(words[1..]);
      JoinedStep(words, gaps);
      assert gaps[1..] == seq(|words[1..]|, _ => 1);
      assert Spaces(1) == [SPACE];
    }
  }

  lemma Grouped(a: Bytes, b: Bytes, c: Bytes)
    ensures (a + b) + c == a + (b + c)
  {
  }
}
