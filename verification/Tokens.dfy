/**
  strtok: the destructive scanner with its saved cursor, and what repeated calls return in terms of
  the text alone: the maximal non-empty delimiter-free substrings, in order.
 */
module Tokens {
  import opened Memory

  /** C text: bytes, never NUL inside. */
  type Str = seq<Byte>

  const NUL: Byte := 0

  // ---------------------------------------------------------------- the text

  /** First index from `p` on that holds no delimiter, or the length. */
  ghost function Skip(s: Str, delims: Str, p: nat): (a: nat)
    requires p <= |s|
    ensures p <= a <= |s|
    ensures forall k :: p <= k < a ==> s[k] in delims
    ensures a < |s| ==> s[a] !in delims
    decreases |s| - p
  {
    if p < |s| && s[p] in delims then Skip(s, delims, p + 1) else p
  }

  /** First index from `p` on that holds a delimiter, or the length. */
  ghost function WordEnd(s: Str, delims: Str, p: nat): (e: nat)
    requires p <= |s|
    ensures p <= e <= |s|
    ensures forall k :: p <= k < e ==> s[k] !in delims
    ensures e < |s| ==> s[e] in delims
    decreases |s| - p
  {
    if p < |s| && s[p] !in delims then WordEnd(s, delims, p + 1) else p
  }

  datatype Span = Span(from: nat, to: nat)

  /** The words of s[p..] by their positions in s. */
  ghost function Spans(s: Str, delims: Str, p: nat): seq<Span>
    requires p <= |s|
    decreases |s| - p
  {
    var a := Skip(s, delims, p);
    if a == |s| then []
    else
      var e := WordEnd(s, delims, a);
      [Span(a, e)] + Spans(s, delims, e)
  }

  /** s[i..j] is a maximal non-empty stretch without delimiters. */
  ghost predicate IsWord(s: Str, delims: Str, w: Span) {
    && w.from < w.to <= |s|
    && (forall k :: w.from <= k < w.to ==> s[k] !in delims)
    && (w.from == 0 || s[w.from - 1] in delims)
    && (w.to == |s| || s[w.to] in delims)
  }

  /** Spans lists every maximal word once, in order, and nothing else. */
  lemma {:induction false} SpansAreTheWords(s: Str, delims: Str, p: nat, w: Span)
    requires p <= |s| && (p == 0 || p == |s| || s[p] in delims || s[p - 1] in delims)
    ensures w in Spans(s, delims, p) <==> IsWord(s, delims, w) && p <= w.from
    ensures forall i, j :: 0 <= i < j < |Spans(s, delims, p)| ==>
      Spans(s, delims, p)[i].to <= Spans(s, delims, p)[j].from
    ensures forall i :: 0 <= i < |Spans(s, delims, p)| ==> p <= Spans(s, delims, p)[i].from < Spans(s, delims, p)[i].to
    decreases |s| - p
  {
    var a := Skip(s, delims, p);
    assert p <= w.from < a ==> s[w.from] in delims;
    if a < |s| {
      var e := WordEnd(s, delims, a);
      SpansAreTheWords(s, delims, e, w);
      assert a < w.from < e ==> s[w.from - 1] !in delims;
      if IsWord(s, delims, w) && p <= w.from {
        assert s[w.from] !in delims;
        if w.from < e {
          assert w.to == e;
        }
      }
    }
  }

  /** The words themselves. */
  ghost function Words(s: Str, delims: Str): seq<Str> {
    WordsFrom(s, delims, 0)
  }

  ghost function WordsFrom(s: Str, delims: Str, p: nat): seq<Str>
    requires p <= |s|
    decreases |s| - p
  {
    var a := Skip(s, delims, p);
    if a == |s| then []
    else
      var e := WordEnd(s, delims, a);
      [s[a..e]] + WordsFrom(s, delims, e)
  }

  lemma WordsFromStep(s: Str, delims: Str, p: nat)
    requires p <= |s|
    ensures var a := Skip(s, delims, p);
      WordsFrom(s, delims, p) == if a == |s| then [] else
        var e := WordEnd(s, delims, a);
        [s[a..e]] + WordsFrom(s, delims, e)
  {
  }

  lemma {:induction false} WordsAreSpans(s: Str, delims: Str, p: nat)
    requires p <= |s|
    ensures |WordsFrom(s, delims, p)| == |Spans(s, delims, p)|
    ensures forall i :: 0 <= i < |Spans(s, delims, p)| ==>
      var w := Spans(s, delims, p)[i]; w.from <= w.to <= |s| && WordsFrom(s, delims, p)[i] == s[w.from..w.to]
    decreases |s| - p
  {
    var a := Skip(s, delims, p);
    if a < |s| { WordsAreSpans(s, delims, WordEnd(s, delims, a)); }
  }

  /** A delimiter at the front of the rest makes no difference. */
  lemma WordsSkip(s: Str, delims: Str, p: nat)
    requires p < |s| && s[p] in delims
    ensures WordsFrom(s, delims, p) == WordsFrom(s, delims, p + 1)
  {
  }

  // ---------------------------------------------------------------- the buffer

  /** A NUL byte lies at or after `p`. */
  ghost predicate Terminated(b: seq<Byte>, p: nat) {
    exists z :: p <= z < |b| && b[z] == NUL
  }

  /** Length of the C string that starts at `p`. */
  ghost function Length(b: seq<Byte>, p: nat): (n: nat)
    requires Terminated(b, p)
    ensures p + n < |b| && b[p + n] == NUL && forall k :: p <= k < p + n ==> b[k] != NUL
    decreases |b| - p
  {
    if b[p] == NUL then 0 else 1 + Length(b, p + 1)
  }

  /** The C string that starts at `p`. */
  ghost function Text(b: seq<Byte>, p: nat): (s: Str)
    requires Terminated(b, p)
    ensures NUL !in s
  {
    b[p..p + Length(b, p)]
  }

  lemma {:induction false} LengthIs(b: seq<Byte>, p: nat, n: nat)
    requires p + n < |b| && b[p + n] == NUL && forall k :: p <= k < p + n ==> b[k] != NUL
    ensures Terminated(b, p) && Length(b, p) == n
    decreases n
  {
    if n > 0 { LengthIs(b, p + 1, n - 1); }
  }

  /** Of the text at `p`, the first word is at `start`, and the cursor at the end of it or behind its delimiter. */
  ghost predicate Scanned(t: Str, delims: Str, p: nat, start: nat, sp: nat) {
    var a := Skip(t, delims, 0);
    var e := WordEnd(t, delims, a);
    start == p + a && sp == p + e + if e < |t| then 1 else 0
  }

  class Tokenizer {
    /** The buffer and index that the cursor sp points to; no buffer is the null cursor. */
    var buffer: array?<Byte>
    var sp: nat

    ghost predicate IsNull()
      reads this
    {
      buffer == null
    }

    /** What the next calls will still return. */
    ghost function Pending(delims: Str): seq<Str>
      requires buffer != null ==> Terminated(buffer[..], sp)
      reads this, buffer
    {
      if buffer == null then [] else Words(Text(buffer[..], sp), delims)
    }

    constructor ()
      ensures IsNull()
    {
      buffer := null;
      sp := 0;
    }

    /**
      strtok: a new string is taken up only under a null cursor. The next word is returned as a C
      string at `start` of the buffer, and the words still to come lose exactly that one; when
      there is none, null is returned and the cursor is null.
     */
    method Strtok(str: array?<Byte>, at: nat, delims: Str) returns (from: array?<Byte>, start: nat)
      requires NUL !in delims
      requires buffer != null ==> Terminated(buffer[..], sp)
      requires buffer == null && str != null ==> Terminated(str[..], at)
      modifies this, buffer, str
      ensures buffer != null ==> Terminated(buffer[..], sp)
      ensures var b := if old(buffer) != null then old(buffer) else str;
        var words := if b == null then [] else Words(Text(old(b[..]), if old(buffer) != null then old(sp) else at), delims);
        && (from == null <==> words == [])
        && (from == null ==> buffer == null && (b != null ==> b[..] == old(b[..])))
        && (from != null ==>
          && from == b && buffer == b
          && Terminated(from[..], start) && Text(from[..], start) == words[0]
          && start + |words[0]| <= sp && Pending(delims) == words[1..]
          && Scanned(Text(old(b[..]), if old(buffer) != null then old(sp) else at), delims, if old(buffer) != null then old(sp) else at, start, sp))
      ensures str != null && old(buffer) != null && str != old(buffer) ==> str[..] == old(str[..])
    {
      hide Text, Words, WordsFrom, Length, Terminated, Scanned;
      if str == null && buffer == null {
        return null, 0;
      }
      if buffer == null {
        buffer := str;
        sp := at;
      }
      var b := buffer;
      ghost var b0, p0 := b[..], sp;
      ghost var z := p0 + Length(b0, p0);
      TextBounds(b0, p0);
      var pStart := SkipDelimiters(b, sp, delims, z);
      sp := pStart;
      if b[sp] == NUL {
        NoWord(b0, p0, delims, pStart);
        buffer := null;
        return null, 0;
      }
      var e := FindEnd(b, pStart, delims, z);
      WordFound(b0, p0, delims, pStart, e);
      if b[e] == NUL {
        sp := e;
        CutAtEnd(b0, p0, delims, pStart, e);
      } else {
        b[e] := NUL;
        sp := e + 1;
        CutAtDelimiter(b0, p0, delims, pStart, e);
        assert b[..] == b0[e := NUL];
      }
      return b, pStart;
    }
  }

  lemma TextBounds(b: seq<Byte>, p: nat)
    requires Terminated(b, p)
    ensures var z := p + Length(b, p);
      p <= z < |b| && b[z] == NUL && (forall k :: p <= k < z ==> b[k] != NUL) && |Text(b, p)| == z - p
  {
  }

  lemma NoWord(b: seq<Byte>, p: nat, delims: Str, a: nat)
    requires Terminated(b, p) && NUL !in delims && p <= a <= p + Length(b, p) && b[a] == NUL
    requires forall k :: p <= k < a ==> b[k] in delims
    ensures Words(Text(b, p), delims) == []
  {
    assert a == p + Length(b, p);
    SkipIs(Text(b, p), delims, 0, a - p);
  }

  /** The scan has found the first word. */
  lemma WordFound(b: seq<Byte>, p: nat, delims: Str, a: nat, e: nat)
    requires Terminated(b, p) && NUL !in delims && p <= a <= e <= p + Length(b, p) && b[a] != NUL
    requires (forall k :: p <= k < a ==> b[k] in delims) && b[a] !in delims
    requires (forall k :: a <= k < e ==> b[k] !in delims) && (b[e] == NUL || b[e] in delims)
    ensures a < e && Words(Text(b, p), delims) == [b[a..e]] + WordsFrom(Text(b, p), delims, e - p)
    ensures Scanned(Text(b, p), delims, p, a, if b[e] == NUL then e else e + 1)
  {
    hide Words, WordsFrom, Skip, WordEnd, Length;
    var t := Text(b, p);
    assert b[a] == t[a - p];
    SkipIs(t, delims, 0, a - p);
    assert e < p + Length(b, p) ==> t[e - p] == b[e];
    WordEndIs(t, delims, a - p, e - p);
    SliceOfSlice(b, p, p + |t|, a, e);
    FirstWord(t, delims, a - p, e - p);
  }

  lemma SliceOfSlice(b: seq<Byte>, p: nat, q: nat, a: nat, e: nat)
    requires p <= a <= e <= q <= |b|
    ensures b[p..q][a - p..e - p] == b[a..e]
  {
    var t := b[p..q];
    assert |t[a - p..e - p]| == |b[a..e]|;
    forall k | 0 <= k < e - a ensures t[a - p..e - p][k] == b[a..e][k] {
      assert t[a - p + k] == b[a + k];
    }
  }

  lemma FirstWord(t: Str, delims: Str, a: nat, e: nat)
    requires a < |t| && Skip(t, delims, 0) == a && WordEnd(t, delims, a) == e
    ensures Words(t, delims) == [t[a..e]] + WordsFrom(t, delims, e)
  {
    hide Skip, WordEnd;
  }

  /** The word ends the text: the cursor rests on the NUL. */
  lemma CutAtEnd(b: seq<Byte>, p: nat, delims: Str, a: nat, e: nat)
    requires Terminated(b, p) && p <= a <= e == p + Length(b, p)
    ensures Terminated(b, e) && Words(Text(b, e), delims) == WordsFrom(Text(b, p), delims, e - p)
    ensures Terminated(b, a) && Text(b, a) == b[a..e]
  {
    LengthIs(b, e, 0);
    LengthIs(b, a, e - a);
  }

  /** A delimiter ends the word: it becomes NUL and the cursor moves past it. */
  lemma CutAtDelimiter(b: seq<Byte>, p: nat, delims: Str, a: nat, e: nat)
    requires Terminated(b, p) && p <= a <= e < p + Length(b, p) && b[e] in delims
    ensures var b' := b[e := NUL];
      && Terminated(b', e + 1) && Words(Text(b', e + 1), delims) == WordsFrom(Text(b, p), delims, e - p)
      && Terminated(b', a) && Text(b', a) == b[a..e]
  {
    hide WordsFrom, Skip, WordEnd, Length;
    var b', n, w := b[e := NUL], Length(b, p), e - p;
    var t := Text(b, p);
    LengthIs(b', e + 1, n - (w + 1));
    LengthIs(b', a, e - a);
    assert Text(b', e + 1) == t[w + 1..];
    assert t[w] == b[e];
    WordsSkip(t, delims, w);
    WordsShift(t, delims, w + 1, w + 1);
  }

  /** The first loop of strtok. */
  method SkipDelimiters(b: array<Byte>, p: nat, delims: Str, ghost z: nat) returns (r: nat)
    requires NUL !in delims && p <= z < b.Length && b[z] == NUL
    ensures p <= r <= z && b[r] !in delims && forall k :: p <= k < r ==> b[k] in delims
  {
    r := p;
    while true
      invariant p <= r <= z && forall k :: p <= k < r ==> b[k] in delims
      decreases z - r
    {
      var i := 0;
      var found := false;
      while i < |delims|
        invariant 0 <= i <= |delims| && !found && forall k :: 0 <= k < i ==> delims[k] != b[r]
      {
        if b[r] == delims[i] {
          found := true;
          break;
        }
        i := i + 1;
      }
      if !found {
        return;
      }
      r := r + 1;
    }
  }

  /** The second loop of strtok up to the delimiter or the end. */
  method FindEnd(b: array<Byte>, p: nat, delims: Str, ghost z: nat) returns (e: nat)
    requires NUL !in delims && p <= z < b.Length && b[z] == NUL && forall k :: p <= k < z ==> b[k] != NUL
    ensures p <= e <= z && (b[e] == NUL || b[e] in delims)
    ensures b[e] == NUL ==> e == z
    ensures forall k :: p <= k < e ==> b[k] !in delims
    ensures b[p] != NUL && b[p] !in delims ==> p < e
  {
    e := p;
    while b[e] != NUL
      invariant p <= e <= z && forall k :: p <= k < e ==> b[k] !in delims
      decreases z - e
    {
      var i := 0;
      while i < |delims|
        invariant 0 <= i <= |delims| && forall k :: 0 <= k < i ==> delims[k] != b[e]
      {
        if b[e] == delims[i] {
          return;
        }
        i := i + 1;
      }
      e := e + 1;
    }
  }

  lemma {:induction false} SkipIs(s: Str, delims: Str, p: nat, a: nat)
    requires p <= a <= |s| && (forall k :: p <= k < a ==> s[k] in delims) && (a < |s| ==> s[a] !in delims)
    ensures Skip(s, delims, p) == a
  {
  }

  lemma {:induction false} WordEndIs(s: Str, delims: Str, p: nat, e: nat)
    requires p <= e <= |s| && (forall k :: p <= k < e ==> s[k] !in delims) && (e < |s| ==> s[e] in delims)
    ensures WordEnd(s, delims, p) == e
  {
  }

  /** Words are found the same way in the text that is left. */
  lemma {:induction false} WordsShift(s: Str, delims: Str, k: nat, p: nat)
    requires k <= p <= |s|
    ensures WordsFrom(s[k..], delims, p - k) == WordsFrom(s, delims, p)
    decreases |s| - p
  {
    hide Skip, WordEnd, WordsFrom;
    WordsFromStep(s, delims, p);
    WordsFromStep(s[k..], delims, p - k);
    ScanShift(s, delims, k, p);
    var a := Skip(s, delims, p);
    if a < |s| {
      var e := WordEnd(s, delims, a);
      WordsShift(s, delims, k, e);
      assert s[k..][a - k..e - k] == s[a..e];
    }
  }

  lemma ScanShift(s: Str, delims: Str, k: nat, p: nat)
    requires k <= p <= |s|
    ensures var a := Skip(s, delims, p);
      && Skip(s[k..], delims, p - k) == a - k && WordEnd(s[k..], delims, a - k) == WordEnd(s, delims, a) - k
  {
    var t, a := s[k..], Skip(s, delims, p);
    var e := WordEnd(s, delims, a);
    assert forall j :: 0 <= j < |t| ==> t[j] == s[k + j];
    SkipIs(t, delims, p - k, a - k);
    WordEndIs(t, delims, a - k, e - k);
  }
}
