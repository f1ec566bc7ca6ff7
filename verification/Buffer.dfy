/** The growable byte buffer with room to prepend, in place over an array and two indices. */
module Buffer {
  import opened Bytes

  const CHEAP_PREPEND: nat := 8
  const INITIAL_SIZE: nat := 1024
  const EXTRA_SIZE: nat := 65536

  /** What one read of the socket yields: an error, or the bytes that arrived. */
  datatype ReadResult = Failed(errno: int) | Arrived(bytes: Bytes)

  /** `b` occurs in `s` at `i`. */
  predicate OccursAt(s: Bytes, i: nat, b: Bytes) {
    i + |b| <= |s| && s[i..i + |b|] == b
  }

  /** `r` is the first place at or after `from` where `b` occurs, or -1 if there is none. */
  ghost predicate IsFirst(s: Bytes, b: Bytes, from: nat, r: int) {
    if r < 0 then r == -1 && forall i: nat | from <= i :: !OccursAt(s, i, b)
    else from <= r && OccursAt(s, r, b) && forall i: nat | from <= i < r :: !OccursAt(s, i, b)
  }

  class Buffer {
    var data: array<Byte>
    var readerIndex: nat
    var writerIndex: nat

    ghost predicate Valid()
      reads this
    {
      CHEAP_PREPEND <= data.Length && readerIndex <= writerIndex <= data.Length
    }

    /** The readable bytes. */
    ghost function Contents(): (c: Bytes)
      requires Valid()
      reads this, data
      ensures |c| == writerIndex - readerIndex
    {
      data[readerIndex..writerIndex]
    }

    constructor (initialSize: nat)
      ensures Valid() && fresh(data) && Contents() == []
      ensures data.Length == CHEAP_PREPEND + initialSize && readerIndex == CHEAP_PREPEND
    {
      data := new Byte[CHEAP_PREPEND + initialSize](_ => 0);
      readerIndex := CHEAP_PREPEND;
      writerIndex := CHEAP_PREPEND;
    }

    function ReadableBytes(): nat
      requires Valid()
      reads this
    {
      writerIndex - readerIndex
    }

    function WritableBytes(): nat
      requires Valid()
      reads this
    {
      data.Length - writerIndex
    }

    function PrependableBytes(): nat
      reads this
    {
      readerIndex
    }

    /** The first `len` readable bytes. */
    method Peek(len: nat) returns (b: Bytes)
      requires Valid() && len <= ReadableBytes()
      ensures b == Contents()[..len]
    {
      b := data[readerIndex..readerIndex + len];
    }

    method FindCRLF() returns (r: int)
      requires Valid()
      ensures IsFirst(Contents(), [CR, LF], 0, r)
    {
      var i := readerIndex;
      while i + 2 <= writerIndex
        invariant readerIndex <= i <= writerIndex
        invariant forall j: nat | j < i - readerIndex :: !OccursAt(Contents(), j, [CR, LF])
      {
        var k := i - readerIndex;
        assert OccursAt(Contents(), k, [CR, LF]) <==> data[i] == CR && data[i + 1] == LF by {
          assert Contents()[k..k + 2] == [data[i], data[i + 1]];
        }
        if data[i] == CR && data[i + 1] == LF { return k; }
        i := i + 1;
      }
      r := -1;
    }

    method FindEOL() returns (r: int)
      requires Valid()
      ensures IsFirst(Contents(), [LF], 0, r)
    {
      var i := readerIndex;
      while i < writerIndex
        invariant readerIndex <= i <= writerIndex
        invariant forall j: nat | j < i - readerIndex :: !OccursAt(Contents(), j, [LF])
      {
        var k := i - readerIndex;
        assert OccursAt(Contents(), k, [LF]) <==> data[i] == LF by { assert Contents()[k..k + 1] == [data[i]]; }
        if data[i] == LF { return k; }
        i := i + 1;
      }
      r := -1;
    }

    /** Asking for more than there is empties the buffer. */
    method Retrieve(len: nat)
      requires Valid()
      modifies this
      ensures Valid() && data == old(data)
      ensures Contents() == if len < |old(Contents())| then old(Contents())[len..] else []
    {
      if len < ReadableBytes() {
        readerIndex := readerIndex + len;
      } else {
        RetrieveAll();
      }
    }

    method RetrieveAll()
      requires Valid()
      modifies this
      ensures Valid() && data == old(data) && Contents() == []
      ensures readerIndex == CHEAP_PREPEND
    {
      readerIndex := CHEAP_PREPEND;
      writerIndex := CHEAP_PREPEND;
    }

    method RetrieveAsString(len: nat) returns (s: Bytes)
      requires Valid() && len <= ReadableBytes()
      modifies this
      ensures Valid() && data == old(data)
      ensures s + Contents() == old(Contents()) && |s| == len
    {
      s := data[readerIndex..readerIndex + len];
      Retrieve(len);
    }

    /** Copies `n` bytes from `from` down to `to`, lowest first. */
    method CopyDown(from: nat, to: nat, n: nat)
      requires to < from && from + n <= data.Length
      modifies data
      ensures data[to..to + n] == old(data[from..from + n])
    {
      var i := 0;
      while i < n
        invariant 0 <= i <= n
        invariant forall j | to <= j < to + i :: data[j] == old(data[j + (from - to)])
        invariant forall j | from + i <= j < data.Length :: data[j] == old(data[j])
      {
        data[to + i] := data[from + i];
        i := i + 1;
      }
    }

    /** vector::resize to a larger size: a new array with the old bytes in front. */
    method Resize(size: nat)
      requires data.Length <= size
      modifies this`data
      ensures fresh(data) && data.Length == size
      ensures forall i | 0 <= i < old(data.Length) :: data[i] == old(data[i])
    {
      var bigger := new Byte[size](_ => 0);
      var i := 0;
      while i < data.Length
        invariant 0 <= i <= data.Length <= bigger.Length
        invariant forall j | 0 <= j < i :: bigger[j] == data[j]
        modifies bigger
      {
        bigger[i] := data[i];
        i := i + 1;
      }
      data := bigger;
    }

    /** Room for `len` more bytes: the array grows if and only if what is free in front and behind does not make up for them;
        otherwise what is readable moves to the front. */
    method MakeSpace(len: nat)
      requires Valid() && WritableBytes() < len
      modifies this, data
      ensures Valid() && (data == old(data) || fresh(data))
      ensures Contents() == old(Contents())
      ensures WritableBytes() >= len
      ensures if old(data.Length - ReadableBytes()) < len + CHEAP_PREPEND
              then data.Length == old(writerIndex) + len && readerIndex == old(readerIndex)
              else data == old(data) && readerIndex == CHEAP_PREPEND
    {
      if WritableBytes() + PrependableBytes() < len + CHEAP_PREPEND {
        Resize(writerIndex + len);
      } else {
        assert CHEAP_PREPEND < readerIndex;
        var readable := ReadableBytes();
        CopyDown(readerIndex, CHEAP_PREPEND, readable);
        readerIndex := CHEAP_PREPEND;
        writerIndex := readerIndex + readable;
        assert readable == ReadableBytes();
      }
    }

    method EnsureWritableBytes(len: nat)
      requires Valid()
      modifies this, data
      ensures Valid() && (data == old(data) || fresh(data))
      ensures Contents() == old(Contents())
      ensures WritableBytes() >= len
      ensures old(WritableBytes()) >= len ==> data == old(data) && readerIndex == old(readerIndex)
      ensures old(writerIndex) == CHEAP_PREPEND && old(WritableBytes()) < len ==> data.Length == CHEAP_PREPEND + len
    {
      if WritableBytes() < len { MakeSpace(len); }
    }

    /** Copies `bytes` to `at`. */
    method Store(at: nat, bytes: Bytes)
      requires Valid() && at + |bytes| <= data.Length
      modifies data
      ensures data[at..at + |bytes|] == bytes
      ensures forall i | 0 <= i < data.Length && !(at <= i < at + |bytes|) :: data[i] == old(data[i])
    {
      var i := 0;
      while i < |bytes|
        invariant 0 <= i <= |bytes|
        invariant forall j | 0 <= j < i :: data[at + j] == bytes[j]
        invariant forall j | 0 <= j < data.Length && !(at <= j < at + i) :: data[j] == old(data[j])
      {
        data[at + i] := bytes[i];
        i := i + 1;
      }
    }

    /** Copies `bytes` behind what is readable; they have room. */
    method Write(bytes: Bytes)
      requires Valid() && |bytes| <= WritableBytes()
      modifies this, data
      ensures Valid() && data == old(data)
      ensures Contents() == old(Contents()) + bytes
      ensures WritableBytes() == old(WritableBytes()) - |bytes|
    {
      ghost var before := Contents();
      Store(writerIndex, bytes);
      writerIndex := writerIndex + |bytes|;
      assert data[readerIndex..writerIndex - |bytes|] == before;
      assert Contents() == data[readerIndex..writerIndex - |bytes|] + data[writerIndex - |bytes|..writerIndex];
    }

    method Append(bytes: Bytes)
      requires Valid()
      modifies this, data
      ensures Valid() && (data == old(data) || fresh(data))
      ensures Contents() == old(Contents()) + bytes
      ensures |bytes| <= old(WritableBytes()) ==> data == old(data) && readerIndex == old(readerIndex)
    {
      EnsureWritableBytes(|bytes|);
      Write(bytes);
    }

    method Unwrite(len: nat)
      requires Valid() && len <= ReadableBytes()
      modifies this
      ensures Valid() && data == old(data)
      ensures Contents() == old(Contents())[..|old(Contents())| - len]
    {
      writerIndex := writerIndex - len;
    }

    method Prepend(bytes: Bytes)
      requires Valid() && |bytes| <= PrependableBytes()
      modifies this, data
      ensures Valid() && data == old(data)
      ensures Contents() == bytes + old(Contents())
    {
      ghost var before := Contents();
      readerIndex := readerIndex - |bytes|;
      Store(readerIndex, bytes);
      assert data[readerIndex + |bytes|..writerIndex] == before;
      assert Contents() == data[readerIndex..readerIndex + |bytes|] + data[readerIndex + |bytes|..writerIndex];
    }

    /** Moves the readable bytes to a new array with room for `reserve` more. */
    method Shrink(reserve: nat)
      requires Valid()
      modifies this
      ensures Valid() && fresh(data)
      ensures Contents() == old(Contents())
      ensures WritableBytes() >= reserve
      ensures var need := old(ReadableBytes()) + reserve;
              data.Length == CHEAP_PREPEND + if INITIAL_SIZE < need then need else INITIAL_SIZE
    {
      var other := new Buffer(INITIAL_SIZE);
      other.EnsureWritableBytes(ReadableBytes() + reserve);
      other.Write(data[readerIndex..writerIndex]);
      data, readerIndex, writerIndex := other.data, other.readerIndex, other.writerIndex;
    }

    // ---- Reading a socket -------------------------------------------------------------------

    /** How many bytes one read may bring: the writable part, and the extra block unless that part is larger. */
    function ReadLimit(): nat
      requires Valid()
      reads this
    {
      WritableBytes() + if WritableBytes() < EXTRA_SIZE then EXTRA_SIZE else 0
    }

    /** One scatter read: the kernel fills the writable part first and the extra block after it. */
    method ReadFd(result: ReadResult) returns (n: int, savedErrno: int)
      requires Valid() && (result.Arrived? ==> |result.bytes| <= ReadLimit())
      modifies this, data
      ensures Valid() && (data == old(data) || fresh(data))
      ensures match result
              case Failed(errno) => n == -1 && savedErrno == errno && Contents() == old(Contents())
              case Arrived(bytes) => n == |bytes| && savedErrno == 0 && Contents() == old(Contents()) + bytes
      ensures n <= old(WritableBytes()) ==> data == old(data)
    {
      if result.Failed? { return -1, result.errno; }
      var bytes := result.bytes;
      var writable := WritableBytes();
      if |bytes| <= writable {
        Write(bytes);
      } else {
        Write(bytes[..writable]);
        assert writerIndex == data.Length;
        Append(bytes[writable..]);
        assert bytes == bytes[..writable] + bytes[writable..];
      }
      return |bytes|, 0;
    }

    // ---- Whole numbers in network order -----------------------------------------------------

    method AppendInt(x: int, k: nat)
      requires Valid() && k in {1, 2, 4, 8} && Fits(x, k)
      modifies this, data
      ensures Valid() && (data == old(data) || fresh(data))
      ensures Contents() == old(Contents()) + BigEndian(x, k)
    {
      Append(BigEndian(x, k));
    }

    method PrependInt(x: int, k: nat)
      requires Valid() && k in {1, 2, 4, 8} && Fits(x, k) && k <= PrependableBytes()
      modifies this, data
      ensures Valid() && data == old(data)
      ensures Contents() == BigEndian(x, k) + old(Contents())
    {
      Prepend(BigEndian(x, k));
    }

    method PeekInt(k: nat) returns (x: int)
      requires Valid() && k in {1, 2, 4, 8} && k <= ReadableBytes()
      ensures x == Signed(Contents()[..k])
      ensures forall y, rest | Fits(y, k) && Contents() == BigEndian(y, k) + rest :: x == y
    {
      x := Signed(data[readerIndex..readerIndex + k]);
      assert data[readerIndex..readerIndex + k] == Contents()[..k];
      forall y, rest | Fits(y, k) && Contents() == BigEndian(y, k) + rest ensures x == y {
        assert Contents()[..k] == BigEndian(y, k);
        BigEndianRoundTrip(y, k);
      }
    }

    /** Reading a number takes off exactly the bytes that carry it, however it was put there. */
    method ReadInt(k: nat) returns (x: int)
      requires Valid() && k in {1, 2, 4, 8} && k <= ReadableBytes()
      modifies this
      ensures Valid() && data == old(data)
      ensures Contents() == old(Contents())[k..]
      ensures forall y, rest | Fits(y, k) && old(Contents()) == BigEndian(y, k) + rest :: x == y && Contents() == rest
    {
      x := PeekInt(k);
      Retrieve(k);
    }
  }

  // ---- Any sequence of operations ---------------------------------------------------------------

  datatype Op =
    | DoAppend(bytes: Bytes) | DoRetrieve(len: nat) | DoPrepend(bytes: Bytes) | DoUnwrite(len: nat)
    | DoShrink(reserve: nat) | DoRead(result: ReadResult)

  /** The same operations on a plain byte sequence. */
  function Plain(s: Bytes, op: Op): Bytes {
    match op
    case DoAppend(bytes) => s + bytes
    case DoRetrieve(len) => if len < |s| then s[len..] else []
    case DoPrepend(bytes) => bytes + s
    case DoUnwrite(len) => if len <= |s| then s[..|s| - len] else s
    case DoShrink(_) => s
    case DoRead(result) => if result.Arrived? then s + result.bytes else s
  }

  function PlainAll(s: Bytes, ops: seq<Op>): Bytes {
    if ops == [] then s else Plain(PlainAll(s, ops[..|ops| - 1]), ops[|ops| - 1])
  }

  /** These may always be asked for; the others only within what the buffer has at the time. */
  predicate Unconditional(op: Op) {
    op.DoAppend? || op.DoRetrieve? || op.DoShrink?
  }

  /** What may be asked for now: a prepend or an unwrite within the room or the bytes there are, a read within what it
      is offered. */
  ghost predicate MayAsk(b: Buffer, op: Op)
    requires b.Valid()
    reads b, b.data
  {
    match op
    case DoPrepend(bytes) => |bytes| <= b.readerIndex
    case DoUnwrite(len) => len <= |b.Contents()|
    case DoRead(result) => result.Failed? || |result.bytes| <= b.ReadLimit()
    case _ => true
  }

  /** One operation, if it may be asked for. */
  method Perform(b: Buffer, op: Op) returns (allowed: bool)
    requires b.Valid()
    modifies b, b.data
    ensures b.Valid() && (b.data == old(b.data) || fresh(b.data))
    ensures allowed == old(MayAsk(b, op))
    ensures b.Contents() == if allowed then Plain(old(b.Contents()), op) else old(b.Contents())
    ensures Unconditional(op) ==> allowed
  {
    allowed := true;
    match op {
      case DoAppend(bytes) => b.Append(bytes);
      case DoRetrieve(len) => b.Retrieve(len);
      case DoPrepend(bytes) =>
        if |bytes| <= b.PrependableBytes() { b.Prepend(bytes); } else { allowed := false; }
      case DoUnwrite(len) =>
        if len <= b.ReadableBytes() { b.Unwrite(len); } else { allowed := false; }
      case DoShrink(reserve) => b.Shrink(reserve);
      case DoRead(result) =>
        if result.Failed? || |result.bytes| <= b.ReadLimit() { var n, e := b.ReadFd(result); } else { allowed := false; }
    }
  }

  predicate AllUnconditional(ops: seq<Op>) {
    forall i | 0 <= i < |ops| :: Unconditional(ops[i])
  }

  lemma PlainOneMore(ops: seq<Op>, op: Op)
    ensures PlainAll([], ops + [op]) == Plain(PlainAll([], ops), op)
  {
    assert (ops + [op])[..|ops + [op]| - 1] == ops;
  }

  /** Any operations, in any order, on a buffer of any size: those that may be asked for when their turn comes, each
      with its effect on the plain sequence and no other. */
  method Replay(initialSize: nat, ops: seq<Op>) returns (b: Buffer, done: seq<Op>)
    ensures b.Valid() && b.Contents() == PlainAll([], done)
    ensures AllUnconditional(ops) ==> done == ops
  {
    b := new Buffer(initialSize);
    done := [];
    var i := 0;
    while i < |ops|
      invariant 0 <= i <= |ops| && b.Valid() && fresh(b) && fresh(b.data)
      invariant b.Contents() == PlainAll([], done)
      invariant AllUnconditional(ops) ==> done == ops[..i]
    {
      ghost var before := b.Contents();
      var allowed := Perform(b, ops[i]);
      if allowed {
        assert b.Contents() == Plain(before, ops[i]);
        PlainOneMore(done, ops[i]);
        done := done + [ops[i]];
      }
      assert ops[..i + 1] == ops[..i] + [ops[i]];
      i := i + 1;
    }
    assert ops[..i] == ops;
  }
}
