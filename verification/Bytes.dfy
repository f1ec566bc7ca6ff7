/** Bytes, and whole numbers in network byte order. */
module Bytes {

  type Byte = x: int | 0 <= x < 256

  type Bytes = seq<Byte>

  const CR: Byte := 13
  const LF: Byte := 10

  /** Half the range of a signed number of `k` bytes. */
  function Half(k: nat): nat
    requires k > 0
  {
    if k == 1 then 128 else 256 * Half(k - 1)
  }

  predicate Fits(x: int, k: nat)
    requires k > 0
  {
    0 - Half(k) <= x < Half(k)
  }

  /** The low byte of a number and what is left above it; the division rounds down, as a shift does. */
  function LowByte(x: int): Byte {
    x % 256
  }

  /** Most significant byte first, two's complement. */
  function BigEndian(x: int, k: nat): (b: Bytes)
    requires k > 0
    ensures |b| == k
    decreases k
  {
    if k == 1 then [LowByte(x)] else BigEndian(x / 256, k - 1) + [LowByte(x)]
  }

  function Power256(k: nat): (p: nat)
    ensures p > 0
  {
    if k == 0 then 1 else 256 * Power256(k - 1)
  }

  lemma AtLeast(n: nat, k: int)
    requires n > 0 && k >= 1
    ensures n * k >= n
  {
    assert n * (k - 1) >= 0;
  }

  lemma Unique(n: nat, q: int, r: int, q': int, r': int)
    requires 0 <= r < n && 0 <= r' < n && n * q + r == n * q' + r'
    ensures q == q'
  {
    if q > q' { AtLeast(n, q - q'); }
    if q < q' { AtLeast(n, q' - q); }
  }

  /** Dividing by 256 and then by `b` is dividing by their product. */
  lemma DivideTwice(x: int, b: nat)
    requires b > 0
    ensures x / 256 / b == x / (256 * b)
  {
    var n, q := 256 * b, x / 256;
    var p, r := q / b, 256 * (q % b) + x % 256;
    assert q == b * p + q % b;
    assert x == 256 * (b * p) + r;
    assert 256 * (b * p) == n * p;
    assert x == n * (x / n) + x % n;
    Unique(n, x / n, x % n, p, r);
  }

  /** Byte `i` of `k` is the one that counts for 256 to the power `k - 1 - i`. */
  lemma {:induction false} BigEndianByte(x: int, k: nat, i: nat)
    requires i < k
    ensures BigEndian(x, k)[i] == (x / Power256(k - 1 - i)) % 256
    decreases k
  {
    if i < k - 1 {
      BigEndianByte(x / 256, k - 1, i);
      DivideTwice(x, Power256(k - 2 - i));
      assert Power256(k - 1 - i) == 256 * Power256(k - 2 - i);
    }
  }

  /** The number that bytes in network order stand for: the first byte carries the sign. */
  function Signed(b: Bytes): int
    requires |b| > 0
  {
    if |b| == 1 then (if b[0] < 128 then b[0] else b[0] - 256)
    else 256 * Signed(b[..|b| - 1]) + b[|b| - 1]
  }

  /** Every signed number survives the trip through its bytes. */
  lemma {:induction false} BigEndianRoundTrip(x: int, k: nat)
    requires k > 0 && Fits(x, k)
    ensures Signed(BigEndian(x, k)) == x
    decreases k
  {
    if k > 1 {
      BigEndianRoundTrip(x / 256, k - 1);
      assert BigEndian(x, k)[..k - 1] == BigEndian(x / 256, k - 1);
    }
  }
}
