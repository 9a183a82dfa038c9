/**
  What a path means: drive digit, ":/", and the longest prefix of non-empty components. Printing
  and parsing are inverse.
 */
module PathSyntax {
  import opened Memory
  import opened Tokens

  const MAX_PATH := 108
  const SLASH: Byte := 0x2F
  const COLON: Byte := 0x3A
  const ZERO: Byte := 0x30

  predicate IsDigit(c: Byte) { 48 <= c <= 57 }

  /** First slash of the text, or its length. */
  ghost function FirstSlash(s: Str): (e: nat)
    ensures e <= |s| && SLASH !in s[..e] && (e < |s| ==> s[e] == SLASH)
  {
    if s == [] || s[0] == SLASH then 0 else 1 + FirstSlash(s[1..])
  }

  /** The components that pathparser_parse links, in order. */
  ghost function Components(s: Str): seq<Str>
    decreases |s|
  {
    var e := FirstSlash(s);
    if e == 0 then []
    else if e == |s| then [s]
    else [s[..e]] + Components(s[e + 1..])
  }

  /** All stretches between slashes, empty ones included. */
  ghost function SplitAll(s: Str): seq<Str>
    decreases |s|
  {
    var e := FirstSlash(s);
    if e == |s| then [s] else [s[..e]] + SplitAll(s[e + 1..])
  }

  ghost function NonEmptyPrefix(parts: seq<Str>): seq<Str> {
    if parts == [] || parts[0] == [] then [] else [parts[0]] + NonEmptyPrefix(parts[1..])
  }

  /** Every text: the components are the longest prefix of non-empty stretches between slashes. */
  lemma {:induction false} ComponentsAreLongestPrefix(s: Str)
    ensures Components(s) == NonEmptyPrefix(SplitAll(s))
    decreases |s|
  {
    hide FirstSlash;
    var e := FirstSlash(s);
    if e == |s| {
      assert SplitAll(s) == [s];
      assert NonEmptyPrefix([s]) == if s == [] then [] else [s] + NonEmptyPrefix([]);
    } else {
      ComponentsAreLongestPrefix(s[e + 1..]);
      var parts := SplitAll(s);
      assert parts[0] == s[..e] && parts[1..] == SplitAll(s[e + 1..]);
    }
  }

  /** Each component is slash-free, non-empty, and with its NUL fits a buffer of MAX_PATH bytes. */
  lemma {:induction false} ComponentsFit(s: Str)
    requires |s| < MAX_PATH
    ensures forall i :: 0 <= i < |Components(s)| ==>
      Components(s)[i] != [] && SLASH !in Components(s)[i] && |Components(s)[i]| + 1 <= MAX_PATH
    ensures 2 * |Components(s)| <= |s| + 1
    decreases |s|
  {
    var e := FirstSlash(s);
    if 0 < e < |s| { ComponentsFit(s[e + 1..]); }
    if e == |s| { assert s[..e] == s; }
  }

  // ---------------------------------------------------------------- printing

  ghost function Join(parts: seq<Str>): Str {
    if parts == [] then []
    else if |parts| == 1 then parts[0]
    else parts[0] + [SLASH] + Join(parts[1..])
  }

  ghost predicate Printable(parts: seq<Str>) {
    forall i :: 0 <= i < |parts| ==> parts[i] != [] && SLASH !in parts[i] && NUL !in parts[i]
  }

  lemma {:induction false} FirstSlashIs(s: Str, e: nat)
    requires e <= |s| && SLASH !in s[..e] && (e < |s| ==> s[e] == SLASH)
    ensures FirstSlash(s) == e
  {
    if e > 0 {
      assert s[0] == s[..e][0];
      assert s[1..][..e - 1] == s[..e][1..];
      FirstSlashIs(s[1..], e - 1);
    }
  }

  /** Parsing undoes printing. */
  lemma {:induction false} ComponentsOfJoin(parts: seq<Str>)
    requires Printable(parts)
    ensures Components(Join(parts)) == parts && NUL !in Join(parts)
  {
    hide FirstSlash;
    if parts == [] {
      FirstSlashIs([], 0);
    } else if |parts| == 1 {
      assert parts[0][..|parts[0]|] == parts[0];
      FirstSlashIs(parts[0], |parts[0]|);
    } else {
      var s, e := Join(parts), |parts[0]|;
      assert s[..e] == parts[0] && s[e] == SLASH && s[e + 1..] == Join(parts[1..]);
      FirstSlashIs(s, e);
      ComponentsOfJoin(parts[1..]);
      assert parts == [parts[0]] + parts[1..];
    }
  }

  datatype Path = NoPath | Root(drive: nat, parts: seq<Str>)

  /** pathparser_parse as a function of the path text. */
  ghost function Parse(path: Str): Path {
    if |path| > MAX_PATH then NoPath
    else if |path| >= 3 && IsDigit(path[0]) && path[1] == COLON && path[2] == SLASH
    then Root(path[0] - ZERO, Components(path[3..]))
    else NoPath
  }

  /** The paths that are accepted: at most 108 bytes, a decimal digit, ":" and "/"; the digit is the drive. */
  lemma ParsesExactly(path: Str)
    ensures Parse(path) != NoPath <==>
      3 <= |path| <= 108 && 0x30 <= path[0] <= 0x39 && path[1] == 0x3A && path[2] == 0x2F
    ensures Parse(path).Root? ==> Parse(path).drive == path[0] - 0x30 && Parse(path).parts == Components(path[3..])
  {
    hide Components;
  }

  ghost function Print(drive: nat, parts: seq<Str>): Str
    requires drive < 10
  {
    [ZERO + drive, COLON, SLASH] + Join(parts)
  }

  /** The round trip, for every drive and printable component list of at most 108 bytes in all. */
  lemma ParsePrint(drive: nat, parts: seq<Str>)
    requires drive < 10 && Printable(parts) && |Print(drive, parts)| <= MAX_PATH
    ensures Parse(Print(drive, parts)) == Root(drive, parts)
    ensures Print(drive, parts)[..3] == [0x30 + drive, 0x3A, 0x2F]
  {
    ComponentsOfJoin(parts);
    assert Print(drive, parts)[3..] == Join(parts);
  }
}
