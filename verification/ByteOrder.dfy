/** The order of byte strings that string_view's `<` gives: unsigned bytes, first difference decides, prefixes first. */
module ByteOrder {
  import opened Bytes

  predicate Less(a: Bytes, b: Bytes) {
    if b == [] then false
    else if a == [] then true
    else a[0] < b[0] || (a[0] == b[0] && Less(a[1..], b[1..]))
  }

  lemma {:induction false} LessTrichotomy(a: Bytes, b: Bytes)
    ensures !Less(a, b) && !Less(b, a) ==> a == b
    ensures a == b ==> !Less(a, b)
    ensures Less(a, b) ==> !Less(b, a)
  {
    if a != [] && b != [] {
      LessTrichotomy(a[1..], b[1..]);
      assert a == [a[0]] + a[1..] && b == [b[0]] + b[1..];
    }
  }

  lemma {:induction false} LessTransitive(a: Bytes, b: Bytes, c: Bytes)
    requires Less(a, b) && Less(b, c)
    ensures Less(a, c)
  {
    if a != [] && b != [] && c != [] && a[0] == b[0] == c[0] { LessTransitive(a[1..], b[1..], c[1..]); }
  }

  /** `a` is below `b` if and only if it is a proper prefix of it or smaller at the first place where they differ. */
  lemma {:induction false} LessMeans(a: Bytes, b: Bytes)
    ensures Less(a, b) <==> (a < b || exists i :: 0 <= i < |a| && i < |b| && a[..i] == b[..i] && a[i] < b[i])
  {
    if a != [] && b != [] {
      var p, q := a[1..], b[1..];
      LessMeans(p, q);
      assert a == [a[0]] + p && b == [b[0]] + q;
      if a[0] == b[0] {
        assert a < b <==> p < q;
        if i :| 0 <= i < |p| && i < |q| && p[..i] == q[..i] && p[i] < q[i] {
          assert a[..i + 1] == [a[0]] + p[..i] && b[..i + 1] == [b[0]] + q[..i];
          assert a[i + 1] < b[i + 1];
        }
        if i :| 0 <= i < |a| && i < |b| && a[..i] == b[..i] && a[i] < b[i] {
          assert i > 0;
          assert p[..i - 1] == a[..i][1..] && q[..i - 1] == b[..i][1..];
          assert p[i - 1] < q[i - 1];
        }
      } else {
        assert a[..0] == b[..0];
        assert forall i | 0 < i < |a| && i < |b| :: a[..i][0] == a[0] && b[..i][0] == b[0];
      }
    } else if a == [] && b != [] {
      assert a < b;
    }
  }

  // ---- The same order, closed -------------------------------------------------------------------

  predicate Peek(k: int) { true }

  /** `Less`, spelled out only where `Peek` is named; otherwise it is known by the lemmas below. */
  ghost predicate Below(a: Bytes, b: Bytes) {
    forall k | Peek(k) :: Less(a, b)
  }

  function IsBelow(a: Bytes, b: Bytes): (r: bool)
    ensures r == Below(a, b)
  {
    assert Peek(0);
    Less(a, b)
  }

  lemma Trichotomy(a: Bytes, b: Bytes)
    ensures !Below(a, b) && !Below(b, a) ==> a == b
    ensures a == b ==> !Below(a, b)
    ensures Below(a, b) ==> !Below(b, a)
  {
    assert Peek(0);
    LessTrichotomy(a, b);
  }

  lemma Transitive(a: Bytes, b: Bytes, c: Bytes)
    requires Below(a, b) && Below(b, c)
    ensures Below(a, c)
  {
    assert Peek(0);
    LessTransitive(a, b, c);
  }
}
