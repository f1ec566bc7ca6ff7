/** How the log stream prints whole numbers: digits into a character array, lowest first, then reversed in place. */
module LogStream {
  import opened Truncation

  /** Nine down to zero and up to nine again; `ZERO` is the middle, so that a negative digit finds its character too. */
  const DIGITS := "9876543210123456789"
  const ZERO := 9
  const DIGITS_HEX := "0123456789ABCDEF"

  const MAX_NUMERIC_SIZE: int := 32

  // ---- What is to be printed ------------------------------------------------------------------------

  /** The digits of a number, highest first. */
  function Digits(n: nat, base: nat): (s: string)
    requires 2 <= base <= 16
    ensures s != []
  {
    if n < base then [Digit(n)] else Digits(n / base, base) + [Digit(n % base)]
  }

  function Text(v: int): string {
    if v < 0 then "-" + Digits(-v, 10) else Digits(v, 10)
  }

  function DigitValue(c: char): int {
    if '0' <= c <= '9' then c as int - '0' as int
    else if 'A' <= c <= 'F' then c as int - 'A' as int + 10
    else -1
  }

  /** Reading digits back, in any base. */
  function Read(s: string, base: nat): int {
    if s == [] then 0 else Read(s[..|s| - 1], base) * base + DigitValue(s[|s| - 1])
  }

  function Parse(s: string): int {
    if s != [] && s[0] == '-' then -Read(s[1..], 10) else Read(s, 10)
  }

  function Digit(d: nat): char
    requires d < 16
  {
    DIGITS_HEX[d]
  }

  lemma DigitIs(d: nat)
    requires d < 16
    ensures DigitValue(Digit(d)) == d
  {
  }

  lemma ReadMore(s: string, c: char, base: nat)
    ensures Read(s + [c], base) == Read(s, base) * base + DigitValue(c)
  {
    assert (s + [c])[..|s|] == s;
  }

  lemma {:induction false} ReadDigits(n: nat, base: nat)
    requires 2 <= base <= 16
    ensures Read(Digits(n, base), base) == n
    decreases n
  {
    DigitIs(n % base);
    if n < base {
      assert n % base == n;
      ReadMore([], Digit(n), base);
      assert [] + [Digit(n)] == Digits(n, base) && Read([], base) == 0;
    } else {
      var q, d := n / base, n % base;
      SmallerQuotient(n, base);
      ReadDigits(q, base);
      ReadMore(Digits(q, base), Digit(d), base);
      Divided(n, base);
    }
  }

  /** The first digit is zero only for zero itself. */
  lemma {:induction false} FirstDigit(n: nat, base: nat)
    requires 2 <= base <= 16
    ensures 0 <= DigitValue(Digits(n, base)[0]) && (n > 0 ==> DigitValue(Digits(n, base)[0]) > 0)
    decreases n
  {
    if n < base {
      DigitIs(n);
    } else {
      SmallerQuotient(n, base);
      FirstDigit(n / base, base);
      assert Digits(n, base)[0] == Digits(n / base, base)[0];
    }
  }

  lemma Divided(n: nat, base: nat)
    requires base > 0
    ensures n / base * base + n % base == n
  {
  }

  lemma SmallerQuotient(n: nat, base: nat)
    requires 2 <= base <= n
    ensures 0 < n / base < n
  {
  }

  /** What is printed reads back as the number, and has no leading zero but for zero itself. */
  lemma TextReadsBack(v: int)
    ensures Parse(Text(v)) == v
    ensures v > 0 ==> DigitValue(Text(v)[0]) > 0
    ensures v < 0 ==> |Text(v)| > 1 && Text(v)[0] == '-' && DigitValue(Text(v)[1]) > 0
    ensures v == 0 ==> Text(v) == [Digit(0)]
  {
    var n := if v < 0 then -v else v;
    ReadDigits(n, 10);
    FirstDigit(n, 10);
    assert v < 0 ==> Text(v)[1..] == Digits(n, 10);
    assert DigitValue('-') == -1;
  }

  /** So that different numbers are printed differently. */
  lemma TextIsInjective(v: int, w: int)
    requires Text(v) == Text(w)
    ensures v == w
  {
    TextReadsBack(v);
    TextReadsBack(w);
  }

  function Power(base: nat, k: nat): nat {
    if k == 0 then 1 else base * Power(base, k - 1)
  }

  lemma {:induction false} DigitsAreShort(n: nat, base: nat, k: nat)
    requires 2 <= base <= 16 && k > 0 && n < Power(base, k)
    ensures |Digits(n, base)| <= k
    decreases k
  {
    if n >= base {
      assert k > 1;
      assert n / base < Power(base, k - 1);
      DigitsAreShort(n / base, base, k - 1);
    }
  }

  /** Every signed or unsigned number of up to 64 bits fits the space reserved for it, with its terminator. */
  lemma TextFits(v: int)
    requires -0x8000_0000_0000_0000 <= v <= 0xFFFF_FFFF_FFFF_FFFF
    ensures |Text(v)| + 1 <= 21 < MAX_NUMERIC_SIZE
  {
    assert Power(10, 5) == 100000 && Power(10, 10) == 100000 * 100000 && Power(10, 15) == 100000 * Power(10, 10) by {
      assert Power(10, 1) == 10 && Power(10, 2) == 100 && Power(10, 3) == 1000 && Power(10, 4) == 10000;
      assert Power(10, 6) == 1000000 && Power(10, 7) == 10000000 && Power(10, 8) == 100000000 && Power(10, 9) == 1000000000;
      assert Power(10, 11) == 10 * Power(10, 10) && Power(10, 12) == 10 * Power(10, 11);
      assert Power(10, 13) == 10 * Power(10, 12) && Power(10, 14) == 10 * Power(10, 13);
    }
    assert Power(10, 16) == 10 * Power(10, 15) && Power(10, 17) == 10 * Power(10, 16);
    assert Power(10, 18) == 10 * Power(10, 17) && Power(10, 19) == 10 * Power(10, 18) && Power(10, 20) == 10 * Power(10, 19);
    if v < 0 { DigitsAreShort(-v, 10, 19); } else { DigitsAreShort(v, 10, 20); }
  }

  // ---- Printing in place ------------------------------------------------------------------------------

  function Abs(a: int): nat {
    if a >= 0 then a else -a
  }

  /** The digits as they are produced, lowest first. */
  function LowFirst(n: nat, base: nat): (s: string)
    requires 2 <= base <= 16
    ensures s != []
  {
    if n < base then [Digit(n)] else [Digit(n % base)] + LowFirst(n / base, base)
  }

  function Reversed<T>(s: seq<T>): (r: seq<T>)
    ensures |r| == |s|
  {
    seq(|s|, i requires 0 <= i < |s| => s[|s| - 1 - i])
  }

  lemma {:induction false} LowFirstReversed(n: nat, base: nat)
    requires 2 <= base <= 16
    ensures Reversed(LowFirst(n, base)) == Digits(n, base)
    decreases n
  {
    if n >= base {
      SmallerQuotient(n, base);
      LowFirstReversed(n / base, base);
      var s := LowFirst(n / base, base);
      assert Reversed([Digit(n % base)] + s) == Reversed(s) + [Digit(n % base)];
    }
  }

  /** std::reverse. */
  method Reverse(data: array<char>, from: nat, to: nat)
    requires from <= to <= data.Length
    modifies data
    ensures data[from..to] == Reversed(old(data[from..to]))
    ensures forall j | 0 <= j < data.Length && !(from <= j < to) :: data[j] == old(data[j])
  {
    var a, b := from, to;
    while a < b
      invariant from <= a && b <= to && a - from == to - b && a <= b + 1
      invariant forall j | 0 <= j < data.Length && (!(from <= j < to) || a <= j < b) :: data[j] == old(data[j])
      invariant forall j | from <= j < a :: data[j] == old(data[from + to - 1 - j])
      invariant forall j | b <= j < to :: data[j] == old(data[from + to - 1 - j])
    {
      b := b - 1;
      data[a], data[b] := data[b], data[a];
      a := a + 1;
    }
    ghost var was, n := old(data[from..to]), to - from;
    forall k | 0 <= k < n ensures data[from..to][k] == Reversed(was)[k] {
      assert data[from + k] == old(data[to - 1 - k]) && was[n - 1 - k] == old(data[to - 1 - k]);
    }
  }

  /** One digit of a number of either sign, from the mirrored table. */
  lemma Mirrored(d: int)
    requires -10 < d < 10
    ensures DIGITS[ZERO + d] == Digit(Abs(d))
  {
  }

  /** One turn of the digit loop, for either sign. */
  lemma NextDigit(i: int, base: nat)
    requires 2 <= base <= 16
    ensures var q, d := Quotient(i, base), Abs(Remainder(i, base));
            && d < base && Abs(q) <= Abs(i) && (i != 0 ==> Abs(q) < Abs(i))
            && LowFirst(Abs(i), base) == [Digit(d)] + if q == 0 then [] else LowFirst(Abs(q), base)
  {
    var n := Abs(i);
    if n >= base {
      SmallerQuotient(n, base);
    } else {
      OneDigit(n, base);
      assert [Digit(n)] + [] == [Digit(n)];
    }
  }

  lemma OneDigit(n: nat, base: nat)
    requires n < base
    ensures n / base == 0 && n % base == n
  {
  }

  lemma Appended(a: string, c: char, b: string)
    ensures a + ([c] + b) == (a + [c]) + b
  {
  }

  /** The digits of `value`, lowest first; those of a negative number are found without ever negating it. */
  method PutDigits(data: array<char>, at: nat, value: int) returns (p: nat)
    requires at + |LowFirst(Abs(value), 10)| <= data.Length
    modifies data
    ensures p == at + |LowFirst(Abs(value), 10)| && data[at..p] == LowFirst(Abs(value), 10)
    ensures forall j | 0 <= j < data.Length && !(at <= j < p) :: data[j] == old(data[j])
  {
    ghost var whole := LowFirst(Abs(value), 10);
    ghost var left := whole;
    var i, more := value, true;
    p := at;
    while more
      invariant at <= p <= at + |whole| && data[at..p] + left == whole
      invariant left == if more then LowFirst(Abs(i), 10) else []
      invariant forall j | 0 <= j < data.Length && !(at <= j < p) :: data[j] == old(data[j])
      decreases Abs(i), more
    {
      NextDigit(i, 10);
      Truncates(i, 10);
      var lsd := Remainder(i, 10);
      Mirrored(lsd);
      i := Quotient(i, 10);
      more := i != 0;
      ghost var before := data[at..p];
      Appended(before, Digit(Abs(lsd)), left[1..]);
      data[p] := DIGITS[ZERO + lsd];
      p := p + 1;
      assert data[at..p] == before + [data[p - 1]];
      left := left[1..];
    }
  }

  /** The whole text, last character first. */
  function LowText(v: int): string {
    if v < 0 then LowFirst(-v, 10) + ['-'] else LowFirst(v, 10)
  }

  lemma LowTextReversed(v: int)
    ensures Reversed(LowText(v)) == Text(v)
  {
    LowFirstReversed(Abs(v), 10);
    if v < 0 { assert Reversed(LowFirst(-v, 10) + ['-']) == ['-'] + Reversed(LowFirst(-v, 10)); }
  }

  /** Prints `value` at `at` and ends it with a NUL. */
  method Convert(data: array<char>, at: nat, value: int) returns (len: nat)
    requires at + |Text(value)| < data.Length
    modifies data
    ensures len == |Text(value)| && data[at..at + len] == Text(value) && data[at + len] == '\0'
    ensures forall j | 0 <= j < data.Length && !(at <= j <= at + len) :: data[j] == old(data[j])
  {
    LowTextReversed(value);
    var p := PutDigits(data, at, value);
    ghost var whole := data[at..p];
    if value < 0 {
      data[p] := '-';
      p := p + 1;
      assert data[at..p] == whole + ['-'];
    }
    data[p] := '\0';
    assert data[at..p] == LowText(value);
    Reverse(data, at, p);
    len := p - at;
  }

  method PutHexDigits(data: array<char>, at: nat, value: nat) returns (p: nat)
    requires at + |LowFirst(value, 16)| <= data.Length
    modifies data
    ensures p == at + |LowFirst(value, 16)| && data[at..p] == LowFirst(value, 16)
    ensures forall j | 0 <= j < data.Length && !(at <= j < p) :: data[j] == old(data[j])
  {
    ghost var whole := LowFirst(value, 16);
    ghost var left := whole;
    var i, more := value, true;
    p := at;
    while more
      invariant at <= p <= at + |whole| && data[at..p] + left == whole
      invariant left == if more then LowFirst(i, 16) else []
      invariant forall j | 0 <= j < data.Length && !(at <= j < p) :: data[j] == old(data[j])
      decreases i, more
    {
      NextDigit(i, 16);
      var lsd := i % 16;
      i := i / 16;
      more := i != 0;
      ghost var before := data[at..p];
      Appended(before, Digit(lsd), left[1..]);
      data[p] := DIGITS_HEX[lsd];
      p := p + 1;
      assert data[at..p] == before + [data[p - 1]];
      left := left[1..];
    }
  }

  /** The same for a pointer's value, in base 16. */
  method ConvertHex(data: array<char>, at: nat, value: nat) returns (len: nat)
    requires at + |Digits(value, 16)| < data.Length
    modifies data
    ensures len == |Digits(value, 16)| && data[at..at + len] == Digits(value, 16) && data[at + len] == '\0'
    ensures forall j | 0 <= j < data.Length && !(at <= j <= at + len) :: data[j] == old(data[j])
  {
    LowFirstReversed(value, 16);
    var p := PutHexDigits(data, at, value);
    ghost var whole := data[at..p];
    data[p] := '\0';
    assert data[at..p] == whole;
    Reverse(data, at, p);
    len := p - at;
  }

  // ---- The stream's buffer ------------------------------------------------------------------------------

  class FixedBuffer {
    const data: array<char>
    var cur: nat

    ghost predicate Valid()
      reads this
    {
      cur <= data.Length
    }

    ghost function Contents(): string
      requires Valid()
      reads this, data
    {
      data[..cur]
    }

    constructor (size: nat)
      ensures Valid() && fresh(data) && data.Length == size && Contents() == ""
    {
      data := new char[size](_ => '\0');
      cur := 0;
    }

    function Avail(): nat
      requires Valid()
      reads this
    {
      data.Length - cur
    }

    /** A number of up to 64 bits is printed whole if the reserved space is there, and else not at all. */
    method FormatInteger(v: int)
      requires Valid() && -0x8000_0000_0000_0000 <= v <= 0xFFFF_FFFF_FFFF_FFFF
      modifies this, data
      ensures Valid()
      ensures Contents() == old(Contents()) + if old(Avail()) >= MAX_NUMERIC_SIZE then Text(v) else ""
    {
      if Avail() >= MAX_NUMERIC_SIZE {
        TextFits(v);
        Put(v);
      }
    }

    method Put(v: int)
      requires Valid() && |Text(v)| < Avail()
      modifies this, data
      ensures Valid() && Contents() == old(Contents()) + Text(v)
    {
      ghost var before, at := Contents(), cur;
      var len := Convert(data, cur, v);
      assert data[..at] == before;
      Joined(data, at, at + len);
      cur := cur + len;
    }
  }

  lemma Joined(data: array<char>, a: nat, b: nat)
    requires a <= b <= data.Length
    ensures data[..b] == data[..a] + data[a..b]
  {
  }

  /** A pointer's value printed in base 16 reads back. */
  lemma HexReadsBack(v: nat)
    requires v <= 0xFFFF_FFFF_FFFF_FFFF
    ensures Read(Digits(v, 16), 16) == v && |Digits(v, 16)| + 1 <= 17
  {
    ReadDigits(v, 16);
    assert Power(16, 4) == 0x1_0000 by { assert Power(16, 1) == 16 && Power(16, 2) == 256 && Power(16, 3) == 4096; }
    assert Power(16, 8) == 0x1_0000_0000 by {
      assert Power(16, 5) == 0x10_0000 && Power(16, 6) == 0x100_0000 && Power(16, 7) == 0x1000_0000;
    }
    assert Power(16, 12) == 0x1_0000_0000_0000 by {
      assert Power(16, 9) == 0x10_0000_0000 && Power(16, 10) == 0x100_0000_0000 && Power(16, 11) == 0x1000_0000_0000;
    }
    assert Power(16, 16) == 0x1_0000_0000_0000_0000 by {
      assert Power(16, 13) == 0x10_0000_0000_0000 && Power(16, 14) == 0x100_0000_0000_0000;
      assert Power(16, 15) == 0x1000_0000_0000_0000;
    }
    DigitsAreShort(v, 16, 16);
  }
}
