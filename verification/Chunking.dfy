/** When it matters how a stream of requests is cut into reads, and when it does not. */
module Chunking {
  import opened Bytes
  import opened LineProtocol

  predicate LoneLF(s: Bytes, i: nat) {
    i < |s| && s[i] == LF && (i == 0 || s[i - 1] != CR)
  }

  /** No lone LF stands before a CR LF, from `from` on. */
  ghost predicate CleanFrom(s: Bytes, from: nat) {
    forall i: nat, j: nat | from <= i < j && LoneLF(s, i) :: !CRLFAt(s, j)
  }

  ghost predicate Clean(s: Bytes) {
    CleanFrom(s, 0)
  }

  /** A stream in which every LF follows a CR is clean. */
  lemma EveryLFAfterCR(s: Bytes)
    requires forall i | 0 <= i < |s| && s[i] == LF :: i > 0 && s[i - 1] == CR
    ensures Clean(s)
  {
  }

  /** `from` begins a line: at the start, or behind a line end. */
  predicate Begins(s: Bytes, from: nat) {
    from == 0 || (from <= |s| && s[from - 1] == LF)
  }

  // ---- Lines ---------------------------------------------------------------------------------------------

  predicate Scanned(k: int) { true }

  /** The line from `from` on, and where the next one begins; spelled out only where `Scanned` is named. */
  ghost predicate LineAt(s: Bytes, from: nat, line: Bytes, next: nat) {
    forall k | Scanned(k) ::
      && from + |line| < next <= |s| && LineEndFrom(s, from) == End(|line|, next - from - |line|)
      && line == s[from..from + |line|]
  }

  ghost predicate NoLine(s: Bytes, from: nat) {
    forall k | Scanned(k) :: LineEndFrom(s, from).NoEnd?
  }

  lemma NextLine(s: Bytes, from: nat) returns (found: bool, line: Bytes, next: nat)
    requires from <= |s|
    ensures if found then LineAt(s, from, line, next) && from < next <= |s| else NoLine(s, from)
  {
    found, line, next := false, [], 0;
    match LineEndFrom(s, from)
    case NoEnd =>
    case End(len, mark) =>
      found, line, next := true, s[from..from + len], from + len + mark;
  }

  /** A line in the first part of a clean stream is a line of the whole. */
  lemma SameLine(s: Bytes, n: nat, from: nat, line: Bytes, next: nat)
    requires from <= n <= |s| && CleanFrom(s, from) && Begins(s, from) && LineAt(s[..n], from, line, next)
    ensures LineAt(s, from, line, next) && next <= n && Begins(s, next) && CleanFrom(s, next)
  {
    assert Scanned(0);
    var a := s[..n];
    NoneBefore(a, from);
    NoneBefore(s, from);
    var c, f := FirstCRLF(a, from), FirstLF(a, from);
    var c', f' := FirstCRLF(s, from), FirstLF(s, from);
    if c >= 0 {
      assert CRLFAt(s, c) && 0 <= c' <= c;
      assert CRLFAt(a, c');
    } else {
      assert f > from ==> !CRLFAt(a, f - 1);
      assert LoneLF(s, f) && 0 <= f' <= f;
      assert a[f'] == LF;
      forall j: nat | from <= j ensures !CRLFAt(s, j) {
        if j < f { assert !CRLFAt(a, j); }
      }
    }
    assert a[from..from + |line|] == s[from..from + |line|];
  }

  // ---- Cutting a stream into requests ------------------------------------------------------------------

  /** The requests from `from` on, and where the last line ends; spelled out only where `Spelled` is named. */
  ghost predicate IsCut(s: Bytes, from: nat, lines: seq<Bytes>, stop: nat) {
    forall k | Spelled(k) :: Requests(s, from) == lines && Stop(s, from) == stop
  }

  lemma CutIs(s: Bytes, from: nat) returns (lines: seq<Bytes>, stop: nat)
    requires from <= |s|
    ensures IsCut(s, from, lines, stop) && from <= stop <= |s|
  {
    lines, stop := Requests(s, from), Stop(s, from);
  }

  lemma CutUnique(s: Bytes, from: nat, lines: seq<Bytes>, stop: nat, lines': seq<Bytes>, stop': nat)
    requires IsCut(s, from, lines, stop) && IsCut(s, from, lines', stop')
    ensures lines == lines' && stop == stop'
  {
    assert Spelled(0);
  }

  lemma CutNothing(s: Bytes, from: nat)
    requires NoLine(s, from)
    ensures IsCut(s, from, [], from)
  {
    assert Scanned(0);
  }

  lemma CutNone(s: Bytes, from: nat, lines: seq<Bytes>, stop: nat)
    requires NoLine(s, from) && IsCut(s, from, lines, stop)
    ensures lines == [] && stop == from
  {
    CutNothing(s, from);
    CutUnique(s, from, lines, stop, [], from);
  }

  /** The first line, then the rest. */
  lemma CutStep(s: Bytes, from: nat, line: Bytes, next: nat, tail: seq<Bytes>, stop: nat, lines: seq<Bytes>)
    requires LineAt(s, from, line, next) && IsCut(s, next, tail, stop) && lines == Request(line) + tail
    ensures IsCut(s, from, lines, stop)
  {
    assert Scanned(0);
    assert from + |line| + (next - from - |line|) == next;
    assert Spelled(0);
  }

  lemma CutBack(s: Bytes, from: nat, line: Bytes, next: nat, lines: seq<Bytes>, stop: nat) returns (tail: seq<Bytes>)
    requires LineAt(s, from, line, next) && IsCut(s, from, lines, stop)
    ensures IsCut(s, next, tail, stop) && lines == Request(line) + tail
  {
    assert Scanned(0) && Spelled(0);
    tail := Requests(s, next);
  }

  // ---- When chunking does not matter -------------------------------------------------------------------

  /** In a clean stream, going on where the first part stopped handles the same requests, and stops at the same place. */
  lemma {:induction false} SplitClean(s: Bytes, n: nat, from: nat, la: seq<Bytes>, k: nat, lb: seq<Bytes>, stop: nat)
    requires from <= n <= |s| && CleanFrom(s, from) && Begins(s, from)
    requires IsCut(s[..n], from, la, k) && IsCut(s, k, lb, stop)
    ensures IsCut(s, from, la + lb, stop) && from <= k <= n && Begins(s, k)
    decreases n - from
  {
    var a := s[..n];
    var found, line, next := NextLine(a, from);
    if found {
      SameLine(s, n, from, line, next);
      var tail := CutBack(a, from, line, next, la, k);
      SplitClean(s, n, next, tail, k, lb, stop);
      Regroup(Request(line), tail, lb);
      CutStep(s, from, line, next, tail + lb, stop, la + lb);
    } else {
      CutNothing(a, from);
      CutUnique(a, from, la, k, [], from);
      assert [] + lb == lb;
    }
  }

  lemma Regroup(q: seq<Bytes>, x: seq<Bytes>, y: seq<Bytes>)
    ensures q + (x + y) == (q + x) + y
  {
  }

  // ---- Suffixes ------------------------------------------------------------------------------------------

  lemma {:induction false} FirstShift(p: Bytes, x: Bytes, from: nat)
    ensures FirstCRLF(p + x, |p| + from) == if FirstCRLF(x, from) < 0 then -1 else |p| + FirstCRLF(x, from)
    ensures FirstLF(p + x, |p| + from) == if FirstLF(x, from) < 0 then -1 else |p| + FirstLF(x, from)
    decreases |x| - from
  {
    if from < |x| {
      assert CRLFAt(p + x, |p| + from) <==> CRLFAt(x, from);
      assert (p + x)[|p| + from] == x[from];
      FirstShift(p, x, from + 1);
    }
  }

  lemma LineShift(p: Bytes, x: Bytes, from: nat, line: Bytes, next: nat)
    requires from <= |x| && LineAt(x, from, line, next)
    ensures LineAt(p + x, |p| + from, line, |p| + next)
  {
    assert Scanned(0);
    FirstShift(p, x, from);
    assert (p + x)[|p| + from..|p| + from + |line|] == x[from..from + |line|];
  }

  lemma NoLineShift(p: Bytes, x: Bytes, from: nat)
    requires from <= |x| && NoLine(x, from)
    ensures NoLine(p + x, |p| + from)
  {
    assert Scanned(0);
    FirstShift(p, x, from);
  }

  /** What is handled behind a prefix does not depend on it. */
  lemma {:induction false} CutShift(p: Bytes, x: Bytes, from: nat, lines: seq<Bytes>, stop: nat)
    requires from <= |x| && IsCut(x, from, lines, stop)
    ensures IsCut(p + x, |p| + from, lines, |p| + stop) && NoLine(x, stop) && from <= stop <= |x|
    decreases |x| - from
  {
    var found, line, next := NextLine(x, from);
    if found {
      var tail := CutBack(x, from, line, next, lines, stop);
      CutShift(p, x, next, tail, stop);
      LineShift(p, x, from, line, next);
      CutStep(p + x, |p| + from, line, |p| + next, tail, |p| + stop, lines);
    } else {
      CutNone(x, from, lines, stop);
      NoLineShift(p, x, from);
      CutNothing(p + x, |p| + from);
    }
  }

  lemma CutSuffix(s: Bytes, k: nat, lines: seq<Bytes>, stop: nat)
    requires k <= |s| && IsCut(s, k, lines, stop)
    ensures k <= stop <= |s| && IsCut(s[k..], 0, lines, stop - k)
  {
    var l, end := CutIs(s[k..], 0);
    CutShift(s[..k], s[k..], 0, l, end);
    assert s[..k] + s[k..] == s;
    CutUnique(s, k, lines, stop, l, k + end);
  }

  lemma CleanSuffix(s: Bytes, k: nat)
    requires CleanFrom(s, 0) && k <= |s| && Begins(s, k)
    ensures Clean(s[k..])
  {
    var t := s[k..];
    forall i: nat, j: nat | i < j && LoneLF(t, i) ensures !CRLFAt(t, j) {
      assert LoneLF(s, k + i);
      assert !CRLFAt(s, k + j);
    }
  }

  lemma FeedStep(rest: Bytes, chunks: seq<Bytes>, lines: seq<Bytes>, stop: nat, more: seq<Bytes>, end: Bytes)
    requires chunks != [] && IsCut(rest + chunks[0], 0, lines, stop) && stop <= |rest + chunks[0]|
    requires Feed((rest + chunks[0])[stop..], chunks[1..]) == (more, end)
    ensures Feed(rest, chunks) == (lines + more, end)
  {
    assert Spelled(0);
  }

  /** However a clean stream is cut into chunks, the same requests are handled in the same order, and the same is left. */
  lemma {:induction false} ChunksDoNotMatter(rest: Bytes, chunks: seq<Bytes>, lines: seq<Bytes>, stop: nat)
    requires Clean(rest + Concat(chunks)) && NoLine(rest, 0)
    requires IsCut(rest + Concat(chunks), 0, lines, stop)
    ensures stop <= |rest + Concat(chunks)| && Feed(rest, chunks) == (lines, (rest + Concat(chunks))[stop..])
    decreases |chunks|
  {
    var w := rest + Concat(chunks);
    if chunks == [] {
      assert w == rest;
      CutNothing(rest, 0);
      CutUnique(rest, 0, lines, stop, [], 0);
    } else {
      var x, t := rest + chunks[0], Concat(chunks[1..]);
      var la, k, lb := ChunkAndRest(w, x, t, lines, stop);
      assert (x + t)[k..] == x[k..] + t && (x[k..] + t)[stop - k..] == w[stop..];
      ChunksDoNotMatter(x[k..], chunks[1..], lb, stop - k);
      FeedStep(rest, chunks, la, k, lb, w[stop..]);
    }
  }

  /** The first chunk, and what is left to do after it. */
  lemma ChunkAndRest(w: Bytes, x: Bytes, t: Bytes, lines: seq<Bytes>, stop: nat) returns (la: seq<Bytes>, k: nat, lb: seq<Bytes>)
    requires w == x + t && Clean(w) && IsCut(w, 0, lines, stop)
    ensures k <= |x| && k <= stop <= |w| && lines == la + lb
    ensures IsCut(x, 0, la, k) && IsCut(x[k..] + t, 0, lb, stop - k) && Clean(x[k..] + t) && NoLine(x[k..], 0)
  {
    la, k := CutIs(x, 0);
    var end;
    assert w[..|x|] == x;
    lb, end := CutIs(w, k);
    SplitClean(w, |x|, 0, la, k, lb, end);
    CutUnique(w, 0, lines, stop, la + lb, end);
    CutSuffix(w, k, lb, stop);
    CleanSuffix(w, k);
    assert w[k..] == x[k..] + t;
    NothingLeft(x, la, k);
  }

  lemma NothingLeft(x: Bytes, lines: seq<Bytes>, k: nat)
    requires IsCut(x, 0, lines, k)
    ensures k <= |x| && NoLine(x[k..], 0)
  {
    assert [] + x == x;
    CutShift([], x, 0, lines, k);
    var found, line, next := NextLine(x[k..], 0);
    if found { LineShift(x[..k], x[k..], 0, line, next); }
    assert x[..k] + x[k..] == x;
    assert Scanned(0);
  }

  // ---- Exactly when it does not --------------------------------------------------------------------------

  /** Handling the stream in two parts, split at `n`, handles the same requests: those of the first part, then those from
      where it stopped. */
  predicate SplitAt(s: Bytes, n: nat)
    requires n <= |s|
  {
    Requests(s[..n], 0) + Requests(s, Stop(s[..n], 0)) == Requests(s, 0)
  }

  /** Split at `n`, the requests from `from` on are others; spelled out only where `Spelled` is named. */
  ghost predicate Matters(s: Bytes, n: nat, from: nat)
    requires n <= |s|
  {
    forall k | Spelled(k) :: Requests(s[..n], from) + Requests(s, Stop(s[..n], from)) != Requests(s, from)
  }

  lemma MattersIf(s: Bytes, n: nat, from: nat, la: seq<Bytes>, k: nat, lb: seq<Bytes>, stop: nat, l: seq<Bytes>, end: nat)
    requires n <= |s| && IsCut(s[..n], from, la, k) && IsCut(s, k, lb, stop) && IsCut(s, from, l, end) && la + lb != l
    ensures Matters(s, n, from)
  {
    assert Spelled(0);
  }

  lemma MattersOnlyIf(s: Bytes, n: nat, from: nat, la: seq<Bytes>, k: nat, lb: seq<Bytes>, stop: nat, l: seq<Bytes>, end: nat)
    requires n <= |s| && IsCut(s[..n], from, la, k) && IsCut(s, k, lb, stop) && IsCut(s, from, l, end)
    requires Matters(s, n, from)
    ensures la + lb != l
  {
    assert Spelled(0);
  }

  /** A lone LF before the first CR LF ends a line for the first part, but not for the whole. */
  lemma LinesHere(s: Bytes, from: nat, f: nat, c: nat)
    requires FirstLF(s, from) == f && FirstCRLF(s, from) == c && f < c
    ensures LineAt(s[..f + 1], from, s[from..f], f + 1) && NoLine(s[..f + 1], f + 1)
    ensures LineAt(s, f + 1, s[f + 1..c], c + 2) && LineAt(s, from, s[from..c], c + 2)
  {
    var a := s[..f + 1];
    NoneBefore(s, from);
    NoneBefore(a, from);
    NoneBefore(s, f + 1);
    assert forall i: nat | CRLFAt(a, i) :: CRLFAt(s, i);
    assert a[f] == LF && a[from..f] == s[from..f];
    assert LineEndFrom(a, from) == End(f - from, 1);
    assert LineEndFrom(s, from) == End(c - from, 2) && LineEndFrom(s, f + 1) == End(c - f - 1, 2);
  }

  lemma MattersHere(s: Bytes, n: nat, from: nat, x: Bytes, y: Bytes, z: Bytes, next: nat)
    requires n <= |s| && LineAt(s[..n], from, x, n) && NoLine(s[..n], n)
    requires LineAt(s, n, y, next) && LineAt(s, from, z, next) && next <= |s| && |x| < |z| && |y| < |z|
    ensures Matters(s, n, from)
  {
    var a := s[..n];
    var t, stop := CutIs(s, next);
    var la, lb, l := Request(x) + [], Request(y) + t, Request(z) + t;
    CutNothing(a, n);
    CutStep(a, from, x, n, [], n, la);
    CutStep(s, n, y, next, t, stop, lb);
    CutStep(s, from, z, next, t, stop, l);
    Lengths(x, y, z, t);
    MattersIf(s, n, from, la, n, lb, stop, l, stop);
  }

  lemma Lengths(x: Bytes, y: Bytes, z: Bytes, t: seq<Bytes>)
    requires |x| < |z| && |y| < |z|
    ensures Request(x) + [] + (Request(y) + t) != Request(z) + t
  {
    var l, r := Request(x) + [] + (Request(y) + t), Request(z) + t;
    assert r[0] == z;
    if x != [] {
      assert l[0] == x;
    } else if y != [] {
      assert l[0] == y;
    }
  }

  /** What matters after the first line matters from that line on. */
  lemma MattersLater(s: Bytes, n: nat, from: nat, line: Bytes, next: nat)
    requires next <= n <= |s| && LineAt(s[..n], from, line, next) && LineAt(s, from, line, next) && Matters(s, n, next)
    ensures Matters(s, n, from)
  {
    var a, q := s[..n], Request(line);
    var la, k := CutIs(a, next);
    var lb, stop := CutIs(s, k);
    var l, end := CutIs(s, next);
    MattersOnlyIf(s, n, next, la, k, lb, stop, l, end);
    CutStep(a, from, line, next, la, k, q + la);
    CutStep(s, from, line, next, l, end, q + l);
    Prepend(q, la, lb, l);
    MattersIf(s, n, from, q + la, k, lb, stop, q + l, end);
  }

  lemma SameCRLF(s: Bytes, n: nat, from: nat, c: nat)
    requires FirstCRLF(s, from) == c && c + 2 <= n <= |s|
    ensures LineAt(s[..n], from, s[from..c], c + 2) && LineAt(s, from, s[from..c], c + 2)
  {
    var a := s[..n];
    NoneBefore(s, from);
    NoneBefore(a, from);
    assert CRLFAt(a, c) && forall i: nat | CRLFAt(a, i) :: CRLFAt(s, i);
    assert LineEndFrom(a, from) == End(c - from, 2) && a[from..c] == s[from..c];
  }

  lemma Prepend(q: seq<Bytes>, x: seq<Bytes>, y: seq<Bytes>, z: seq<Bytes>)
    requires x + y != z
    ensures (q + x) + y != q + z
  {
    Regroup(q, x, y);
    assert (q + (x + y))[|q|..] == x + y && (q + z)[|q|..] == z;
  }

  /** A stream that is not clean can be split so that other requests are handled. */
  lemma {:induction false} DirtySplit(s: Bytes, from: nat) returns (n: nat)
    requires from <= |s| && !CleanFrom(s, from)
    ensures from <= n <= |s| && Matters(s, n, from)
    decreases |s| - from
  {
    var here, line, next;
    here, n, line, next := DirtyEnds(s, from);
    if !here {
      n := DirtySplit(s, next);
      MattersLater(s, n, from, line, next);
    }
  }

  /** A stream that is not clean has a lone LF before its first CR LF, or is not clean after that. */
  lemma DirtyEnds(s: Bytes, from: nat) returns (here: bool, n: nat, line: Bytes, next: nat)
    requires from <= |s| && !CleanFrom(s, from)
    ensures here ==> from <= n <= |s| && Matters(s, n, from)
    ensures !here ==> from < next <= |s| && !CleanFrom(s, next) && LineAt(s, from, line, next)
    ensures !here ==> forall m | next <= m <= |s| :: LineAt(s[..m], from, line, next)
  {
    var i: nat, j: nat :| from <= i < j && LoneLF(s, i) && CRLFAt(s, j);
    NoneBefore(s, from);
    var c, f := FirstCRLF(s, from), FirstLF(s, from);
    here, n, line, next := f < c, f + 1, s[from..c], c + 2;
    if here {
      LinesHere(s, from, f, c);
      MattersHere(s, n, from, s[from..f], s[n..c], line, next);
    } else {
      assert next <= i;
      SameCRLF(s, |s|, from, c);
      forall m | next <= m <= |s| ensures LineAt(s[..m], from, line, next) { SameCRLF(s, m, from, c); }
    }
  }

  /** Exactly when it does not matter where a stream is split: no lone LF stands before a CR LF. */
  lemma ChunkingCondition(s: Bytes)
    ensures Clean(s) <==> forall n: nat | n <= |s| :: SplitAt(s, n)
  {
    if Clean(s) {
      forall n: nat | n <= |s| ensures SplitAt(s, n) {
        var la, k := CutIs(s[..n], 0);
        var lb, stop := CutIs(s, k);
        SplitClean(s, n, 0, la, k, lb, stop);
        assert Spelled(0);
      }
    } else {
      var n := DirtySplit(s, 0);
      assert Spelled(0);
      assert !SplitAt(s, n);
    }
  }

  // ---- The whole conversation -------------------------------------------------------------------------------

  predicate Quiet(lines: seq<Bytes>) {
    forall line | line in lines :: !Accepts(line)
  }

  lemma ObeyKeepsLines(ss: Session, line: Bytes)
    requires ss.want.ALine? && !Accepts(line)
    ensures Obey(ss, line).want.ALine?
  {
  }

  /** Without an accepted `set`, taking a stream is obeying its requests one after another. */
  lemma {:induction false} TakeIsCut(ss: Session, s: Bytes, lines: seq<Bytes>, stop: nat)
    requires ss.want.ALine? && IsCut(s, 0, lines, stop) && Quiet(lines)
    ensures stop <= |s| && Take(ss, s) == (ObeyAll(ss, lines), s[stop..]) && ObeyAll(ss, lines).want.ALine?
    decreases |s|
  {
    var found, line, n := NextLine(s, 0);
    if found {
      var tail := CutBack(s, 0, line, n, lines, stop);
      CutSuffix(s, n, tail, stop);
      assert s[n..][stop - n..] == s[stop..];
      assert forall l | l in tail :: l in lines;
      TakeOne(ss, s, line, n);
      if line == [] {
        assert [] + tail == tail;
        TakeIsCut(ss, s[n..], tail, stop - n);
      } else {
        assert lines == [line] + tail && lines[1..] == tail && line in lines;
        ObeyKeepsLines(ss, line);
        TakeIsCut(Obey(ss, line), s[n..], tail, stop - n);
      }
    } else {
      CutNothing(s, 0);
      CutUnique(s, 0, lines, stop, [], 0);
      assert Scanned(0);
    }
  }

  lemma TakeOne(ss: Session, s: Bytes, line: Bytes, n: nat)
    requires ss.want.ALine? && LineAt(s, 0, line, n)
    ensures n <= |s| && Take(ss, s) == Take(if line == [] then ss else Obey(ss, line), s[n..])
  {
    assert Scanned(0);
    assert s[0..|line|] == s[..|line|];
  }

  lemma {:induction false} ObeyAllTwice(ss: Session, x: seq<Bytes>, y: seq<Bytes>)
    ensures ObeyAll(ss, x + y) == ObeyAll(ObeyAll(ss, x), y)
    decreases |x|
  {
    if x == [] {
      assert x + y == y;
    } else {
      assert (x + y)[1..] == x[1..] + y;
      ObeyAllTwice(Obey(ss, x[0]), x[1..], y);
    }
  }

  lemma {:induction false} TakeInChunks(ss: Session, rest: Bytes, chunks: seq<Bytes>, lines: seq<Bytes>, stop: nat)
    requires ss.want.ALine? && NoLine(rest, 0) && Clean(rest + Concat(chunks))
    requires IsCut(rest + Concat(chunks), 0, lines, stop) && Quiet(lines)
    ensures stop <= |rest + Concat(chunks)|
    ensures TakeAll(ss, rest, chunks) == (ObeyAll(ss, lines), (rest + Concat(chunks))[stop..])
    decreases |chunks|
  {
    var w := rest + Concat(chunks);
    if chunks == [] {
      assert w == rest;
      CutNothing(rest, 0);
      CutUnique(rest, 0, lines, stop, [], 0);
    } else {
      var x, t := rest + chunks[0], Concat(chunks[1..]);
      var la, k, lb := ChunkAndRest(w, x, t, lines, stop);
      assert (x + t)[k..] == x[k..] + t && (x[k..] + t)[stop - k..] == w[stop..];
      assert Quiet(la) && Quiet(lb);
      TakeIsCut(ss, x, la, k);
      TakeInChunks(ObeyAll(ss, la), x[k..], chunks[1..], lb, stop - k);
      ObeyAllTwice(ss, la, lb);
    }
  }

  /** A clean stream without an accepted `set`: the connection ends in the same state, with the same replies, however the
      stream is cut into reads. */
  lemma ReadsDoNotMatter(ss: Session, chunks: seq<Bytes>)
    requires ss.want.ALine? && Clean(Concat(chunks)) && Quiet(Requests(Concat(chunks), 0))
    ensures TakeAll(ss, [], chunks) == Take(ss, Concat(chunks))
  {
    var s := Concat(chunks);
    assert [] + s == s && NoLine([], 0);
    var lines, stop := CutIs(s, 0);
    assert lines == Requests(s, 0) by { assert Spelled(0); }
    TakeIsCut(ss, s, lines, stop);
    TakeInChunks(ss, [], chunks, lines, stop);
  }
}
