/** Splitting a request at its spaces. */
module Tokenizer {
  import opened Bytes

  const SPACE: Byte := 32

  function SkipSpaces(s: Bytes): (r: Bytes)
    ensures |r| <= |s| && (r == [] || r[0] != SPACE)
  {
    if s != [] && s[0] == SPACE then SkipSpaces(s[1..]) else s
  }

  /** What comes before the first space. */
  function Word(s: Bytes): (w: Bytes)
    ensures |w| <= |s| && w == s[..|w|]
    ensures SPACE !in w && (|w| < |s| ==> s[|w|] == SPACE)
  {
    if s == [] || s[0] == SPACE then [] else [s[0]] + Word(s[1..])
  }

  function Tokens(s: Bytes): seq<Bytes>
    decreases |s|
  {
    var t := SkipSpaces(s);
    if t == [] then [] else [Word(t)] + Tokens(t[|Word(t)|..])
  }

  predicate IsWord(w: Bytes) {
    w != [] && SPACE !in w
  }

  /** The tokens are words. */
  lemma {:induction false} TokensAreWords(s: Bytes)
    ensures forall w | w in Tokens(s) :: IsWord(w)
    decreases |s|
  {
    var t := SkipSpaces(s);
    if t != [] { TokensAreWords(t[|Word(t)|..]); }
  }

  function Spaces(n: nat): Bytes {
    seq(n, _ => SPACE)
  }

  /** The words, with so many spaces after each. */
  function Joined(words: seq<Bytes>, gaps: seq<nat>): Bytes
    requires |words| == |gaps|
  {
    if words == [] then [] else words[0] + (Spaces(gaps[0]) + Joined(words[1..], gaps[1..]))
  }

  lemma JoinedStep(words: seq<Bytes>, gaps: seq<nat>)
    requires |words| == |gaps| > 0
    ensures Joined(words, gaps) == words[0] + (Spaces(gaps[0]) + Joined(words[1..], gaps[1..]))
  {
  }

  lemma {:induction false} SkipAll(n: nat, s: Bytes)
    ensures SkipSpaces(Spaces(n) + s) == SkipSpaces(s)
  {
    if n > 0 {
      assert (Spaces(n) + s)[1..] == Spaces(n - 1) + s;
      SkipAll(n - 1, s);
    } else {
      assert Spaces(0) + s == s;
    }
  }

  /** At least one space between words. */
  predicate Apart(gaps: seq<nat>) {
    forall i | 0 <= i < |gaps| - 1 :: gaps[i] > 0
  }

  /** However many spaces stand between the words, and before and after them, the tokens are the words. */
  lemma {:induction false} TokensOfJoined(lead: nat, words: seq<Bytes>, gaps: seq<nat>)
    requires |words| == |gaps| && Apart(gaps) && forall w | w in words :: IsWord(w)
    ensures Tokens(Spaces(lead) + Joined(words, gaps)) == words
    decreases |words|
  {
    var s := Joined(words, gaps);
    SkipAll(lead, s);
    SameTokens(Spaces(lead) + s, s);
    if words != [] {
      assert IsWord(words[0]);
      var w, rest := words[0], Joined(words[1..], gaps[1..]);
      var tail := Spaces(gaps[0]) + rest;
      JoinedStep(words, gaps);
      assert s[..|w|] == w && s[|w|..] == tail && s[0] == w[0];
      if gaps[0] == 0 { assert words[1..] == [] && tail == []; }
      WordIs(s, |w|);
      TokensStep(s);
      TokensOfJoined(gaps[0], words[1..], gaps[1..]);
    }
  }

  lemma TokensStep(s: Bytes)
    requires SkipSpaces(s) != []
    ensures var t := SkipSpaces(s); Tokens(s) == [Word(t)] + Tokens(t[|Word(t)|..])
  {
  }

  lemma TailOfTail(s: Bytes, a: nat, b: nat)
    requires a <= b <= |s|
    ensures s[a..][b - a..] == s[b..] && |s[a..b]| == b - a
  {
  }

  lemma {:induction false} WordIs(s: Bytes, n: nat)
    requires n <= |s| && SPACE !in s[..n] && (n < |s| ==> s[n] == SPACE)
    ensures Word(s) == s[..n]
  {
    if n > 0 {
      assert s[..n][0] == s[0] && s[..n] == [s[0]] + s[1..][..n - 1];
      WordIs(s[1..], n - 1);
    }
  }

  lemma SameTokens(a: Bytes, b: Bytes)
    requires SkipSpaces(a) == SkipSpaces(b)
    ensures Tokens(a) == Tokens(b)
  {
  }

  predicate Scanning(k: int) { true }

  class Tokenizer {
    const text: Bytes
    var beg: nat
    ghost var left: seq<Bytes>   // the tokens still to come

    /** Spelled out only where `Scanning` is named. */
    ghost predicate Valid()
      reads this
    {
      forall k | Scanning(k) :: beg <= |text| && left == Tokens(text[beg..]) && forall w | w in left :: IsWord(w)
    }

    constructor (s: Bytes)
      ensures Valid() && left == Tokens(s)
    {
      text, beg := s, 0;
      left := Tokens(s);
      new;
      TokensAreWords(s);
      assert text[0..] == text;
    }

    /** Both operations begin by passing over spaces. */
    method Skip()
      requires beg <= |text|
      modifies this`beg
      ensures old(beg) <= beg <= |text| && text[beg..] == SkipSpaces(text[old(beg)..])
    {
      while beg < |text| && text[beg] == SPACE
        invariant old(beg) <= beg <= |text| && SkipSpaces(text[beg..]) == SkipSpaces(text[old(beg)..])
        decreases |text| - beg
      {
        assert text[beg..][1..] == text[beg + 1..];
        beg := beg + 1;
      }
      assert beg < |text| ==> text[beg..][0] == text[beg];
    }

    method HasMoreToken() returns (more: bool)
      requires Valid()
      modifies this`beg
      ensures Valid() && more == (left != [])
    {
      assert Scanning(0);
      ghost var before := text[beg..];
      Skip();
      SkipTwice(before);
      SameTokens(text[beg..], before);
      more := beg < |text|;
    }

    /** The next token, or nothing when there is none. */
    method NextToken() returns (token: Bytes)
      requires Valid()
      modifies this
      ensures Valid()
      ensures old(left) == [] ==> token == [] && left == []
      ensures old(left) != [] ==> token == old(left)[0] && left == old(left)[1..] && IsWord(token)
    {
      assert Scanning(0);
      ghost var before := text[beg..];
      Skip();
      if text[beg..] != [] { TokensStep(before); }
      var it := EndOfWord();
      token := text[beg..it];
      TailOfTail(text, beg, it);
      beg := it;
      if left != [] {
        assert left[0] in left && forall w | w in left[1..] :: w in left;
        left := left[1..];
      }
    }

    /** Where the word that starts here ends. */
    method EndOfWord() returns (it: nat)
      requires beg <= |text|
      ensures beg <= it <= |text| && text[beg..it] == Word(text[beg..])
    {
      it := beg;
      while it < |text| && text[it] != SPACE
        invariant beg <= it <= |text|
        invariant forall j | beg <= j < it :: text[j] != SPACE
      {
        it := it + 1;
      }
      ghost var t := text[beg..];
      assert t[..it - beg] == text[beg..it];
      WordIs(t, it - beg);
    }
  }

  lemma SkipTwice(s: Bytes)
    ensures SkipSpaces(SkipSpaces(s)) == SkipSpaces(s)
  {
  }
}
