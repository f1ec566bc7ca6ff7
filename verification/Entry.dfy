/** The store's entries: key and value side by side in one block of memory that is reused in place.

    The meaning is that of a build without assertions, so `free` may fall below zero when a key is longer than the room
    the entry counts on; the block itself is never overrun. */
module Entry {
  import opened Bytes
  import Buffer

  const HASH_RANGE: int := 0x1_0000_0000_0000_0000

  /** A byte as a signed char. */
  function AsChar(b: Byte): int {
    if b < 128 then b else b - 256
  }

  /** The hash of a key, in 64-bit arithmetic. */
  function Hash(key: Bytes): nat {
    if key == [] then 0 else (Hash(key[..|key| - 1]) * 131 + AsChar(key[|key| - 1])) % HASH_RANGE
  }

  function Power131(k: nat): nat {
    if k == 0 then 1 else 131 * Power131(k - 1)
  }

  /** The polynomial in 131 with the key's characters for coefficients, first character highest, in unbounded arithmetic. */
  function Polynomial(key: Bytes): int {
    if key == [] then 0 else AsChar(key[0]) * Power131(|key| - 1) + Polynomial(key[1..])
  }

  lemma {:induction false} PolynomialLast(key: Bytes, b: Byte)
    ensures Polynomial(key + [b]) == 131 * Polynomial(key) + AsChar(b)
  {
    if key != [] {
      PolynomialLast(key[1..], b);
      assert (key + [b])[1..] == key[1..] + [b];
      var a, p := AsChar(key[0]), Power131(|key| - 1);
      assert Power131(|key|) == 131 * p;
      assert a * (131 * p) == 131 * (a * p);
    }
  }

  lemma SameRemainder(x: int, y: int, c: int)
    requires x % HASH_RANGE == y
    ensures (y * 131 + c) % HASH_RANGE == (131 * x + c) % HASH_RANGE
  {
    var q := x / HASH_RANGE;
    assert x == HASH_RANGE * q + y;
    assert 131 * x + c == (y * 131 + c) + HASH_RANGE * (131 * q);
    AddMultiple(y * 131 + c, 131 * q);
  }

  lemma AddMultiple(x: int, k: int)
    ensures (x + HASH_RANGE * k) % HASH_RANGE == x % HASH_RANGE
  {
  }

  /** The hash is the polynomial's remainder: wrapping at every step comes to wrapping at the end. */
  lemma {:induction false} HashIsPolynomial(key: Bytes)
    ensures Hash(key) == Polynomial(key) % HASH_RANGE
  {
    if key != [] {
      var n := |key| - 1;
      HashIsPolynomial(key[..n]);
      assert key[..n] + [key[n]] == key;
      PolynomialLast(key[..n], key[n]);
      SameRemainder(Polynomial(key[..n]), Hash(key[..n]), AsChar(key[n]));
    }
  }

  function Ascii(s: string): (b: Bytes)
    ensures |b| == |s|
  {
    seq(|s|, i requires 0 <= i < |s| => (s[i] as int) % 256)
  }

  /** How an entry is sent to a client. */
  function Rendered(key: Bytes, value: Bytes): Bytes {
    Ascii("VALUE ") + key + [CR, LF] + value
  }

  lemma MarkInBytes()
    ensures Ascii("VALUE ") == [86, 65, 76, 85, 69, 32]
  {
  }

  /** In bytes: the word VALUE and a space, the key, a line end, the value. */
  lemma RenderedBytes(key: Bytes, value: Bytes)
    ensures Rendered(key, value) == [86, 65, 76, 85, 69, 32] + key + [13, 10] + value
  {
    MarkInBytes();
  }

  class Entry {
    var keyLen: nat
    var valueLen: nat
    var free: int
    var data: array<Byte>
    var hash: nat

    ghost predicate Valid()
      reads this
    {
      keyLen + valueLen <= data.Length && keyLen + valueLen + free <= data.Length
    }

    function Key(): (k: Bytes)
      requires Valid()
      reads this, data
      ensures |k| == keyLen
    {
      data[..keyLen]
    }

    ghost function Value(): Bytes
      requires Valid()
      reads this, data
    {
      data[keyLen..keyLen + valueLen]
    }

    /** The hash is that of the key; `Reset` leaves it stale. */
    ghost predicate Hashed()
      requires Valid()
      reads this, data
    {
      hash == Hash(Key())
    }

    constructor (key: Bytes, valueLen: nat)
      ensures Valid() && fresh(data) && Key() == key && Value() == [] && Hashed()
      ensures free == valueLen && data.Length == |key| + valueLen
    {
      this.keyLen, this.valueLen, free, hash := 0, 0, |key| + valueLen, 0;
      data := new Byte[|key| + valueLen](_ => 0);
      new;
      ResetKey(key);
    }

    /** A copy in a block of its own. */
    constructor Copy(source: Entry)
      requires source.Valid() && source.free >= 0
      ensures Valid() && fresh(data) && Hashed()
      ensures Key() == source.Key() && Value() == source.Value() && free == source.free
    {
      keyLen, valueLen, free, hash := source.keyLen, source.valueLen, source.free, 0;
      data := new Byte[source.keyLen + source.valueLen + source.free](_ => 0);
      new;
      Put(0, source.data[..source.keyLen + source.valueLen]);
      assert Key() == source.data[..source.keyLen + source.valueLen][..keyLen];
      hash := HashStr(data[..keyLen]);
    }

    /** memmove to `at`, from outside this entry's block. */
    method Put(at: nat, bytes: Bytes)
      requires at + |bytes| <= data.Length
      modifies data
      ensures data[at..at + |bytes|] == bytes
      ensures data[..at] == old(data[..at])
    {
      var i := 0;
      while i < |bytes|
        invariant 0 <= i <= |bytes|
        invariant forall j | 0 <= j < i :: data[at + j] == bytes[j]
        invariant forall j | 0 <= j < at :: data[j] == old(data[j])
      {
        data[at + i] := bytes[i];
        i := i + 1;
      }
    }

    method HashStr(str: Bytes) returns (ret: nat)
      ensures ret == Hash(str)
    {
      ret := 0;
      var i := 0;
      while i < |str|
        invariant 0 <= i <= |str| && ret == Hash(str[..i])
      {
        ret := (ret * 131 + AsChar(str[i])) % HASH_RANGE;
        i := i + 1;
        assert str[..i][..i - 1] == str[..i - 1];
      }
      assert str[..i] == str;
    }

    method Append(bytes: Bytes)
      requires Valid() && |bytes| <= free
      modifies this`valueLen, this`free, data
      ensures Valid() && Key() == old(Key()) && Value() == old(Value()) + bytes
      ensures free == old(free) - |bytes|
    {
      ghost var before := data[..keyLen + valueLen];
      Put(keyLen + valueLen, bytes);
      assert data[..keyLen + valueLen] == before;
      assert before[..keyLen] == old(Key()) && before[keyLen..] == old(Value());
      valueLen := valueLen + |bytes|;
      free := free - |bytes|;
      assert Key() == before[..keyLen];
      assert Value() == before[keyLen..] + bytes;
    }

    /** A new key in the same block, which has to be long enough. */
    method ResetKey(key: Bytes)
      requires Valid() && |key| <= data.Length
      modifies this`keyLen, this`valueLen, this`free, this`hash, data
      ensures Valid() && Key() == key && Value() == [] && Hashed()
      ensures keyLen + free == old(keyLen + valueLen + free)
    {
      free := free + keyLen + valueLen;
      keyLen := |key|;
      valueLen := 0;
      Put(0, key);
      free := free - keyLen;
      assert data[..keyLen] == data[0..0 + |key|];
      hash := HashStr(key);
    }

    /** A new key with room for a value of `valueLen` bytes, in a new block if the counted room is too small. */
    method ResetKeyFor(key: Bytes, valueLen: nat)
      requires Valid()
      modifies this, data
      ensures Valid() && Key() == key && Value() == [] && Hashed() && free == valueLen
      ensures data == old(data) || fresh(data)
      ensures var need := |key| + valueLen;
              data.Length == if old(keyLen + this.valueLen + free) < need then need else old(data.Length)
    {
      var curTotal := keyLen + this.valueLen + free;
      keyLen := |key|;
      if curTotal < |key| + valueLen { data := new Byte[|key| + valueLen](_ => 0); }
      Put(0, key);
      this.valueLen := 0;
      free := valueLen;
      assert data[..keyLen] == data[0..0 + |key|];
      hash := HashStr(key);
    }

    method Reset()
      requires Valid()
      modifies this`keyLen, this`valueLen, this`free
      ensures Valid() && keyLen == 0 && Value() == [] && free == old(keyLen + valueLen + free)
    {
      free := free + keyLen + valueLen;
      keyLen, valueLen := 0, 0;
    }

    method CopyToBuffer(buf: Buffer.Buffer)
      requires Valid() && buf.Valid() && buf.data != data
      modifies buf, buf.data
      ensures buf.Valid() && (buf.data == old(buf.data) || fresh(buf.data))
      ensures buf.Contents() == old(buf.Contents()) + ([86, 65, 76, 85, 69, 32] + Key() + [13, 10] + Value())
      ensures Key() == old(Key()) && Value() == old(Value())
    {
      AppendParts(buf, data[..keyLen], data[keyLen..keyLen + valueLen]);
    }
  }

  /** Key and value with their marks, part by part. */
  method AppendParts(buf: Buffer.Buffer, key: Bytes, value: Bytes)
    requires buf.Valid()
    modifies buf, buf.data
    ensures buf.Valid() && (buf.data == old(buf.data) || fresh(buf.data))
    ensures buf.Contents() == old(buf.Contents()) + ([86, 65, 76, 85, 69, 32] + key + [13, 10] + value)
  {
    buf.Append(Ascii("VALUE "));
    buf.Append(key);
    buf.Append([CR, LF]);
    buf.Append(value);
    Flatten(old(buf.Contents()), Ascii("VALUE "), key, [CR, LF], value);
    MarkInBytes();
  }

  lemma Flatten(a: Bytes, b: Bytes, c: Bytes, d: Bytes, e: Bytes)
    ensures a + b + c + d + e == a + (b + c + d + e)
  {
  }
}
