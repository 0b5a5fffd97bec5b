/** Character and string helpers shared by the modules: ASCII digits, decimal
    rendering of numbers (JavaScript's `${n}` for integers), ASCII lower-casing,
    prefix/suffix tests, single-character replacement and the code-unit order
    that JavaScript's default `Array.prototype.sort` uses on strings. */
module Strings {

  predicate IsDigit(c: char) { '0' <= c <= '9' }

  predicate IsAsciiLetter(c: char) { 'a' <= c <= 'z' || 'A' <= c <= 'Z' }

  predicate AllDigits(s: string) { forall i :: 0 <= i < |s| ==> IsDigit(s[i]) }

  function DigitValue(c: char): (v: nat)
    requires IsDigit(c)
    ensures v < 10
  {
    (c as int) - ('0' as int)
  }

  function DigitChar(d: nat): (c: char)
    requires d < 10
    ensures IsDigit(c) && DigitValue(c) == d
  {
    (('0' as int) + d) as char
  }

  /** The value of a string of decimal digits, most significant first. */
  function DecimalValue(s: string): nat
    requires AllDigits(s)
  {
    if s == [] then 0 else DecimalValue(s[..|s| - 1]) * 10 + DigitValue(s[|s| - 1])
  }

  lemma DecimalValueSnoc(s: string, c: char)
    requires AllDigits(s) && IsDigit(c)
    ensures AllDigits(s + [c]) && DecimalValue(s + [c]) == DecimalValue(s) * 10 + DigitValue(c)
  {
    assert (s + [c])[..|s + [c]| - 1] == s;
  }

  /** Decimal rendering of a natural number, without leading zeros. */
  function NatToString(n: nat): (r: string)
    ensures 1 <= |r| && AllDigits(r) && DecimalValue(r) == n
    ensures |r| > 1 ==> r[0] != '0'
  {
    if n < 10 then
      [DigitChar(n)]
    else
      var r := NatToString(n / 10) + [DigitChar(n % 10)];
      DecimalValueSnoc(NatToString(n / 10), DigitChar(n % 10));
      r
  }

  /** Decimal rendering of an integer, with a leading '-' when negative. */
  function IntToString(i: int): (r: string)
    ensures 1 <= |r|
    ensures '\n' !in r
  {
    if i < 0 then "-" + NatToString(-i) else NatToString(i)
  }

  function LowerChar(c: char): (l: char)
    ensures IsDigit(l) <==> IsDigit(c)
  {
    if 'A' <= c <= 'Z' then ((c as int) + 32) as char else c
  }

  /** `toLowerCase` restricted to the ASCII letters. */
  function AsciiLower(s: string): (r: string)
    ensures |r| == |s|
    ensures forall i :: 0 <= i < |s| ==> r[i] == LowerChar(s[i])
  {
    seq(|s|, i requires 0 <= i < |s| => LowerChar(s[i]))
  }

  predicate StartsWith(s: string, prefix: string) {
    |prefix| <= |s| && s[..|prefix|] == prefix
  }

  predicate EndsWith(s: string, suffix: string) {
    |suffix| <= |s| && s[|s| - |suffix|..] == suffix
  }

  /** `s.replace(/c/g, repl)` for a single character `c`. */
  function ReplaceChar(s: string, c: char, repl: string): string
  {
    if s == [] then []
    else (if s[0] == c then repl else [s[0]]) + ReplaceChar(s[1..], c, repl)
  }

  /** Replacing a character removes it when the replacement lacks it. */
  lemma {:induction false} ReplaceCharRemoves(s: string, c: char, repl: string)
    requires c !in repl
    ensures c !in ReplaceChar(s, c, repl)
  {
    if s != [] {
      ReplaceCharRemoves(s[1..], c, repl);
    }
  }

  /** Replacing one character brings in no other absent one. */
  lemma {:induction false} ReplaceCharKeepsAbsent(s: string, absent: char, c: char, repl: string)
    requires absent !in s && absent !in repl
    ensures absent !in ReplaceChar(s, c, repl)
  {
    if s != [] {
      ReplaceCharKeepsAbsent(s[1..], absent, c, repl);
    }
  }

  /** Replacement distributes over concatenation. */
  lemma {:induction false} ReplaceCharAppend(a: string, b: string, c: char, repl: string)
    ensures ReplaceChar(a + b, c, repl) == ReplaceChar(a, c, repl) + ReplaceChar(b, c, repl)
  {
    if a == [] {
      assert a + b == b;
    } else {
      assert (a + b)[1..] == a[1..] + b;
      ReplaceCharAppend(a[1..], b, c, repl);
    }
  }

  /** Text without the replaced character is left as it is. */
  lemma {:induction false} ReplaceCharAbsentKeeps(s: string, c: char, repl: string)
    requires c !in s
    ensures ReplaceChar(s, c, repl) == s
  {
    if s != [] {
      ReplaceCharAbsentKeeps(s[1..], c, repl);
    }
  }

  /** Each replaced character changes the length by `|repl| - 1`. */
  lemma {:induction false} ReplaceCharLength(s: string, c: char, repl: string)
    ensures |ReplaceChar(s, c, repl)| == |s| + (|repl| - 1) * CountChar(s, c)
  {
    if s != [] {
      ReplaceCharLength(s[1..], c, repl);
    }
  }

  /** Number of occurrences of `c` in `s`. */
  function CountChar(s: string, c: char): nat
  {
    if s == [] then 0 else (if s[0] == c then 1 else 0) + CountChar(s[1..], c)
  }

  lemma {:induction false} CountCharAppend(a: string, b: string, c: char)
    ensures CountChar(a + b, c) == CountChar(a, c) + CountChar(b, c)
  {
    if a == [] {
      assert a + b == b;
    } else {
      assert (a + b)[1..] == a[1..] + b;
      CountCharAppend(a[1..], b, c);
    }
  }

  lemma {:induction false} CountCharAbsent(s: string, c: char)
    ensures c !in s <==> CountChar(s, c) == 0
  {
    if s != [] {
      CountCharAbsent(s[1..], c);
      assert s == [s[0]] + s[1..];
    }
  }

  /** `a <= b` in the order JavaScript's default sort uses on strings:
      element-wise comparison, a proper prefix sorting first. */
  predicate LexLe(a: string, b: string)
  {
    if a == [] then true
    else if b == [] then false
    else if a[0] != b[0] then a[0] < b[0]
    else LexLe(a[1..], b[1..])
  }

  lemma {:induction false} LexLeTotal(a: string, b: string)
    ensures LexLe(a, b) || LexLe(b, a)
  {
    if a != [] && b != [] && a[0] == b[0] {
      LexLeTotal(a[1..], b[1..]);
    }
  }

  lemma {:induction false} LexLeTransitive(a: string, b: string, c: string)
    requires LexLe(a, b) && LexLe(b, c)
    ensures LexLe(a, c)
  {
    if a != [] && b != [] && c != [] && a[0] == b[0] && b[0] == c[0] {
      LexLeTransitive(a[1..], b[1..], c[1..]);
    }
  }

  lemma {:induction false} LexLeAntisymmetric(a: string, b: string)
    requires LexLe(a, b) && LexLe(b, a)
    ensures a == b
  {
    if a != [] && b != [] {
      LexLeAntisymmetric(a[1..], b[1..]);
      assert a == [a[0]] + a[1..] && b == [b[0]] + b[1..];
    }
  }
}
