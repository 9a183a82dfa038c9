/**
  itoa: a 32-bit integer as decimal text, written backwards into a static buffer of 12 bytes.
  It works on the negated value, because the smallest integer has no positive counterpart.
 */
module DecimalPrinter {
  import opened Memory

  type Int32 = x: int | -0x8000_0000 <= x < 0x8000_0000

  const ZERO: Byte := 0x30
  const MINUS: Byte := 0x2D

  /** C division truncates toward zero, and the remainder takes the sign of the dividend. */
  function CDiv(a: int, b: nat): int
    requires b > 0
  {
    if a < 0 then -(-a / b) else a / b
  }

  function CMod(a: int, b: nat): int
    requires b > 0
  {
    a - b * CDiv(a, b)
  }

  predicate IsDigit(c: Byte) { 0x30 <= c <= 0x39 }

  /** Decimal digits without leading zeros; none for zero. */
  function Digits(n: nat): seq<Byte> {
    if n == 0 then [] else Digits(n / 10) + [ZERO + n % 10]
  }

  function Abs(i: int): nat { if i < 0 then -i else i }

  function Printed(i: int): seq<Byte> {
    (if i < 0 then [MINUS] else []) + if i == 0 then [ZERO] else Digits(Abs(i))
  }

  /** Reads digits most significant first. */
  function ReadDigits(s: seq<Byte>): int {
    if s == [] then 0 else 10 * ReadDigits(s[..|s| - 1]) + s[|s| - 1] - 0x30
  }

  function Read(s: seq<Byte>): int {
    if s != [] && s[0] == 0x2D then -ReadDigits(s[1..]) else ReadDigits(s)
  }

  /** A sign only below zero, no leading zero, at least one digit, nothing else. */
  predicate Canonical(s: seq<Byte>) {
    s == [0x30] || PlainDigits(s) || (s != [] && s[0] == 0x2D && PlainDigits(s[1..]))
  }

  predicate PlainDigits(s: seq<Byte>) {
    s != [] && s[0] != 0x30 && forall k :: 0 <= k < |s| ==> IsDigit(s[k])
  }

  lemma {:induction false} DigitsArePlain(n: nat)
    requires n > 0
    ensures PlainDigits(Digits(n)) && ReadDigits(Digits(n)) == n
  {
    var front := Digits(n / 10);
    assert Digits(n)[..|front|] == front;
    if n >= 10 { DigitsArePlain(n / 10); }
  }

  lemma LastDigit(n: nat, d: nat)
    requires d < 10 && n > 0
    ensures Digits(10 * n + d) == Digits(n) + [ZERO + d]
  {
    assert (10 * n + d) / 10 == n && (10 * n + d) % 10 == d;
  }

  lemma OneDigit(d: nat)
    requires 0 < d < 10
    ensures Digits(d) == [ZERO + d]
  {
    assert Digits(0) == [];
  }

  lemma {:induction false} PlainIsDigits(s: seq<Byte>)
    requires PlainDigits(s)
    ensures ReadDigits(s) > 0 && Digits(ReadDigits(s)) == s
  {
    hide Digits;
    var front, d := s[..|s| - 1], s[|s| - 1] - ZERO;
    assert IsDigit(s[|s| - 1]);
    assert s == front + [s[|s| - 1]];
    if front != [] {
      PlainIsDigits(front);
      LastDigit(ReadDigits(front), d);
    } else {
      OneDigit(d);
    }
  }

  /** Reading the printed text gives the number back, and the text is canonical. */
  lemma PrintThenRead(i: int)
    ensures Canonical(Printed(i)) && Read(Printed(i)) == i
  {
    if i == 0 {
      assert ReadDigits([]) == 0 && [ZERO][..0] == [];
    } else {
      DigitsArePlain(Abs(i));
      assert i < 0 ==> Printed(i)[1..] == Digits(-i);
      assert i > 0 ==> Printed(i) == Digits(i) && IsDigit(Digits(i)[0]);
    }
  }

  /** Canonical text is what printing its value gives: there is only one such text. */
  lemma ReadThenPrint(s: seq<Byte>)
    requires Canonical(s)
    ensures Printed(Read(s)) == s
  {
    if s == [ZERO] {
      assert s[..0] == [] && ReadDigits([]) == 0;
    } else if s[0] == MINUS {
      assert !PlainDigits(s) by { assert !IsDigit(s[0]); }
      PlainIsDigits(s[1..]);
      assert s == [MINUS] + s[1..];
    } else {
      PlainIsDigits(s);
    }
  }

  function Pow10(k: nat): (r: nat)
    ensures r > 0
  {
    if k == 0 then 1 else 10 * Pow10(k - 1)
  }

  /** The number of digits, exactly. */
  lemma {:induction false} DigitCount(n: nat, k: nat)
    ensures |Digits(n)| <= k <==> n < Pow10(k)
  {
    if n > 0 {
      assert |Digits(n)| == |Digits(n / 10)| + 1;
      if k > 0 { DigitCount(n / 10, k - 1); }
    }
  }

  /** Sign, digits and the end mark of a 32-bit integer fit in 12 bytes. */
  lemma TextFits(i: Int32)
    ensures |Printed(i)| <= 11 && |Digits(Abs(i))| <= 10
  {
    assert Pow10(10) == 10_000_000_000 by {
      assert Pow10(5) == 100_000;
      assert Pow10(7) == 10_000_000;
      assert Pow10(9) == 1_000_000_000;
    }
    DigitCount(Abs(i), 10);
  }

  /** The smallest integer needs all 12 bytes. */
  lemma MinimumFillsTheBuffer()
    ensures |Printed(-0x8000_0000)| == 11
  {
    TextFits(-0x8000_0000);
    assert Pow10(9) == 1_000_000_000 by {
      assert Pow10(5) == 100_000;
      assert Pow10(7) == 10_000_000;
    }
    DigitCount(0x8000_0000, 9);
  }

  /** itoa: the text starts at `loc` and ends before the NUL in the last byte. */
  method Itoa(value: Int32, text: array<Byte>) returns (loc: nat)
    requires text.Length == 12
    modifies text
    ensures loc <= 11 && text[11] == 0
    ensures text[loc..11] == Printed(value)
  {
    assert Digits(0) == [];
    hide Digits, CDiv, CMod;
    TextFits(value);
    var i: int := value;
    loc := 11;
    text[11] := 0;
    var neg := true;
    if i >= 0 {
      neg := false;
      i := -i;
    }
    while i != 0
      invariant i <= 0 && -i <= Abs(value) && loc <= 11 && text[11] == 0
      invariant loc == 11 ==> -i == Abs(value)
      invariant loc + |Digits(Abs(value))| == 11 + |Digits(-i)|
      invariant Digits(-i) + text[loc..11] == Digits(Abs(value))
      decreases -i
    {
      NextDigit(i);
      loc := PutBefore(text, loc, ZERO - CMod(i, 10));
      i := CDiv(i, 10);
    }
    if loc == 11 {
      loc := PutBefore(text, loc, ZERO);
    }
    assert text[loc..11] == if value == 0 then [ZERO] else Digits(Abs(value));
    if neg {
      loc := PutBefore(text, loc, MINUS);
    }
  }

  /** `text[--loc] = c` */
  method PutBefore(text: array<Byte>, loc: nat, c: Byte) returns (at: nat)
    requires 0 < loc <= 11 && text.Length == 12
    modifies text
    ensures at == loc - 1 && text[at..11] == [c] + old(text[loc..11]) && text[11] == old(text[11])
  {
    at := loc - 1;
    text[at] := c;
  }

  lemma NextDigit(i: int)
    requires i < 0
    ensures i < CDiv(i, 10) <= 0 && 0 <= -CMod(i, 10) < 10
    ensures Digits(-i) == Digits(-CDiv(i, 10)) + [ZERO - CMod(i, 10)]
  {
  }
}
