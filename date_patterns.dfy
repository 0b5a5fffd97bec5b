/** The text-level pieces `parseDateString` in `src/utils.ts` is built from:
    JavaScript's white-space set (shared by `String.prototype.trim` and the
    regular-expression class `\s`), `trim`, the regular expressions of the
    rule cascade, `parseInt` without a radix, and the month-name table.

    Each regular expression is a deterministic matcher over maximal runs of
    one character class, paired with a predicate stating the shape of the
    strings the expression accepts and the groups it captures; a soundness
    postcondition and a completeness lemma show the two agree. */
module DatePatterns {
  import opened Wrappers
  import opened Strings

  // ----- character classes -----

  /** JavaScript white space and line terminators: `\s`, and what `trim`
      removes. */
  predicate IsJsSpace(c: char)
  {
    || c == '\t' || c == '\n' || c == '\U{000B}' || c == '\U{000C}' || c == '\r'
    || c == ' ' || c == '\U{00A0}' || c == '\U{1680}'
    || ('\U{2000}' <= c <= '\U{200A}')
    || c == '\U{2028}' || c == '\U{2029}' || c == '\U{202F}' || c == '\U{205F}'
    || c == '\U{3000}' || c == '\U{FEFF}'
  }

  /** `\w`: ASCII letters, digits and the underscore. */
  predicate IsWordChar(c: char)
  {
    IsAsciiLetter(c) || IsDigit(c) || c == '_'
  }

  /** White space is neither a word character nor a comma. */
  lemma SpaceIsNotWord(c: char)
    requires IsJsSpace(c)
    ensures !IsWordChar(c) && !IsDigit(c) && c != ','
  {
  }

  datatype CharClass = Digit | Word | Space

  predicate InClass(k: CharClass, c: char)
  {
    match k
    case Digit => IsDigit(c)
    case Word => IsWordChar(c)
    case Space => IsJsSpace(c)
  }

  predicate AllIn(k: CharClass, s: string)
  {
    forall i :: 0 <= i < |s| ==> InClass(k, s[i])
  }

  /** The end of the longest run of class `k` characters starting at `i`. */
  function Span(s: string, i: nat, k: CharClass): (j: nat)
    requires i <= |s|
    ensures i <= j <= |s|
    ensures forall m :: i <= m < j ==> InClass(k, s[m])
    ensures j < |s| ==> !InClass(k, s[j])
    decreases |s| - i
  {
    if i == |s| || !InClass(k, s[i]) then i else Span(s, i + 1, k)
  }

  /** A run that ends where the class ends is the run `Span` finds. */
  lemma SpanAt(s: string, i: nat, j: nat, k: CharClass)
    requires i <= j <= |s|
    requires forall m :: i <= m < j ==> InClass(k, s[m])
    requires j < |s| ==> !InClass(k, s[j])
    ensures Span(s, i, k) == j
  {
  }

  /** A piece of class `k` placed at `i` in `s`, followed by a character of
      another class or by the end, is exactly the run `Span` finds there. */
  lemma SpanOfPiece(s: string, i: nat, piece: string, k: CharClass)
    requires i + |piece| <= |s| && s[i..i + |piece|] == piece && AllIn(k, piece)
    requires i + |piece| < |s| ==> !InClass(k, s[i + |piece|])
    ensures Span(s, i, k) == i + |piece|
  {
    forall m | i <= m < i + |piece| ensures InClass(k, s[m]) {
      assert s[m] == piece[m - i];
    }
    SpanAt(s, i, i + |piece|, k);
  }

  // ----- trim -----

  function TrimStart(s: string): (r: string)
    ensures |r| <= |s|
  {
    if s != [] && IsJsSpace(s[0]) then TrimStart(s[1..]) else s
  }

  /** `TrimStart` drops a prefix of white space and stops at the first
      other character. */
  lemma {:induction false} TrimStartShape(s: string)
    ensures |TrimStart(s)| <= |s| && TrimStart(s) == s[|s| - |TrimStart(s)|..]
    ensures forall i :: 0 <= i < |s| - |TrimStart(s)| ==> IsJsSpace(s[i])
    ensures TrimStart(s) != [] ==> !IsJsSpace(TrimStart(s)[0])
  {
    if s != [] && IsJsSpace(s[0]) {
      TrimStartShape(s[1..]);
      assert s[1..][|s| - 1 - |TrimStart(s)|..] == s[|s| - |TrimStart(s)|..];
      forall i | 0 <= i < |s| - |TrimStart(s)| ensures IsJsSpace(s[i]) {
        if i > 0 { assert s[i] == s[1..][i - 1]; }
      }
    }
  }

  function TrimEnd(s: string): (r: string)
    ensures |r| <= |s| && r == s[..|r|]
    ensures forall i :: |r| <= i < |s| ==> IsJsSpace(s[i])
    ensures r != [] ==> !IsJsSpace(r[|r| - 1])
  {
    if s != [] && IsJsSpace(s[|s| - 1]) then TrimEnd(s[..|s| - 1]) else s
  }

  /** How many white-space characters `s` starts with. */
  function LeadingSpaces(s: string): nat
  {
    |s| - |TrimStart(s)|
  }

  /** `String.prototype.trim`: the text between the leading and the trailing
      white space. */
  function Trim(s: string): (r: string)
    ensures LeadingSpaces(s) + |r| <= |s| && r == s[LeadingSpaces(s)..LeadingSpaces(s) + |r|]
    ensures forall i :: 0 <= i < LeadingSpaces(s) ==> IsJsSpace(s[i])
    ensures forall i :: LeadingSpaces(s) + |r| <= i < |s| ==> IsJsSpace(s[i])
    ensures r != [] ==> !IsJsSpace(r[0]) && !IsJsSpace(r[|r| - 1])
  {
    TrimStartShape(s);
    var n := LeadingSpaces(s);
    var t := TrimStart(s);
    var r := TrimEnd(t);
    assert t == s[n..];
    assert r == s[n..n + |r|] by {
      assert r == t[..|r|];
    }
    forall i | n + |r| <= i < |s| ensures IsJsSpace(s[i]) {
      assert s[i] == t[i - n];
    }
    assert r != [] ==> r[0] == t[0];
    r
  }

  /** A text that neither starts nor ends with white space is its own trim. */
  lemma TrimKeeps(s: string)
    requires s != [] ==> !IsJsSpace(s[0]) && !IsJsSpace(s[|s| - 1])
    ensures Trim(s) == s
  {
    assert TrimStart(s) == s;
    assert TrimEnd(s) == s;
  }

  /** Trimming twice is trimming once. */
  lemma TrimIdempotent(s: string)
    ensures Trim(Trim(s)) == Trim(s)
  {
    TrimKeeps(Trim(s));
  }

  /** Only white space trims to nothing. */
  lemma TrimBlank(s: string)
    ensures Trim(s) == "" <==> forall i :: 0 <= i < |s| ==> IsJsSpace(s[i])
  {
    var r := Trim(s);
    if r != "" {
      assert s[LeadingSpaces(s)] == r[0];
    }
  }

  // ----- the regular expressions -----

  /** The three capture groups of a date expression. */
  datatype Groups = Groups(g1: string, g2: string, g3: string)

  /** `^(\d{1,2})\/(\d{1,2})\/(\d{2,4})$` matches `s` capturing `g`. */
  predicate SlashShape(s: string, g: Groups)
  {
    && s == g.g1 + "/" + g.g2 + "/" + g.g3
    && AllIn(Digit, g.g1) && 1 <= |g.g1| <= 2
    && AllIn(Digit, g.g2) && 1 <= |g.g2| <= 2
    && AllIn(Digit, g.g3) && 2 <= |g.g3| <= 4
  }

  function MatchSlash(s: string): (r: Option<Groups>)
    ensures r.Some? ==> SlashShape(s, r.value)
  {
    var a := Span(s, 0, Digit);
    if !(1 <= a <= 2) || a == |s| || s[a] != '/' then None
    else
      var b := Span(s, a + 1, Digit);
      if !(1 <= b - (a + 1) <= 2) || b == |s| || s[b] != '/' then None
      else
        var c := Span(s, b + 1, Digit);
        if c != |s| || !(2 <= c - (b + 1) <= 4) then None
        else
          var g := Groups(s[..a], s[a + 1..b], s[b + 1..]);
          assert s == g.g1 + "/" + g.g2 + "/" + g.g3 by {
            assert s == s[..a] + [s[a]] + s[a + 1..b] + [s[b]] + s[b + 1..];
          }
          Some(g)
  }

  lemma MatchSlashComplete(s: string, g: Groups)
    requires SlashShape(s, g)
    ensures MatchSlash(s) == Some(g)
  {
    var a := |g.g1|;
    var b := a + 1 + |g.g2|;
    assert s[..a] == g.g1;
    assert s[a] == '/';
    assert s[a + 1..b] == g.g2;
    assert s[b] == '/';
    assert s[b + 1..] == g.g3;
    SpanOfPiece(s, 0, g.g1, Digit);
    SpanOfPiece(s, a + 1, g.g2, Digit);
    SpanOfPiece(s, b + 1, g.g3, Digit);
    SlashBySpans(s, a, b);
  }

  /** The slash matcher's steps, given where each of its spans ends. */
  lemma SlashBySpans(s: string, a: nat, b: nat)
    requires a < b < |s|
    requires Span(s, 0, Digit) == a && 1 <= a <= 2 && s[a] == '/'
    requires Span(s, a + 1, Digit) == b && 1 <= b - (a + 1) <= 2 && s[b] == '/'
    requires Span(s, b + 1, Digit) == |s| && 2 <= |s| - (b + 1) <= 4
    ensures MatchSlash(s) == Some(Groups(s[..a], s[a + 1..b], s[b + 1..]))
  {
  }

  /** `^(\d{4})-(\d{1,2})-(\d{1,2})$` matches `s` capturing `g`. */
  predicate DashShape(s: string, g: Groups)
  {
    && s == g.g1 + "-" + g.g2 + "-" + g.g3
    && AllIn(Digit, g.g1) && |g.g1| == 4
    && AllIn(Digit, g.g2) && 1 <= |g.g2| <= 2
    && AllIn(Digit, g.g3) && 1 <= |g.g3| <= 2
  }

  function MatchDash(s: string): (r: Option<Groups>)
    ensures r.Some? ==> DashShape(s, r.value)
  {
    var a := Span(s, 0, Digit);
    if a != 4 || a == |s| || s[a] != '-' then None
    else
      var b := Span(s, a + 1, Digit);
      if !(1 <= b - (a + 1) <= 2) || b == |s| || s[b] != '-' then None
      else
        var c := Span(s, b + 1, Digit);
        if c != |s| || !(1 <= c - (b + 1) <= 2) then None
        else
          var g := Groups(s[..a], s[a + 1..b], s[b + 1..]);
          assert s == g.g1 + "-" + g.g2 + "-" + g.g3 by {
            assert s == s[..a] + [s[a]] + s[a + 1..b] + [s[b]] + s[b + 1..];
          }
          Some(g)
  }

  lemma MatchDashComplete(s: string, g: Groups)
    requires DashShape(s, g)
    ensures MatchDash(s) == Some(g)
  {
    var a := |g.g1|;
    var b := a + 1 + |g.g2|;
    assert s[..a] == g.g1;
    assert s[a] == '-';
    assert s[a + 1..b] == g.g2;
    assert s[b] == '-';
    assert s[b + 1..] == g.g3;
    SpanOfPiece(s, 0, g.g1, Digit);
    SpanOfPiece(s, a + 1, g.g2, Digit);
    SpanOfPiece(s, b + 1, g.g3, Digit);
  }

  /** The month-word group: `\w{3}` inside the format loop, `\w{3,}` in the
      month-name rules after it. */
  datatype WordBound = Exactly3 | AtLeast3

  predicate WordLength(bound: WordBound, n: nat)
  {
    match bound
    case Exactly3 => n == 3
    case AtLeast3 => n >= 3
  }

  /** Every character of `s[i..j]` is of class `k`. */
  predicate RunIn(k: CharClass, s: string, i: nat, j: nat)
    requires i <= j <= |s|
  {
    forall m :: i <= m < j ==> InClass(k, s[m])
  }

  /** `^(\w{3})\s+(\d{1,2}),?\s+(\d{4})$` (or with `\w{3,}`) matches `s`, the
      pieces ending at `a` (the word), `b` (white space), `c` (the day),
      `c2` (the optional comma) and `d` (white space), the year running to
      the end. */
  predicate MonthFirstAt(s: string, bound: WordBound, a: nat, b: nat, c: nat, c2: nat, d: nat)
  {
    && a < b < c <= c2 < d <= |s|
    && WordLength(bound, a) && RunIn(Word, s, 0, a)
    && RunIn(Space, s, a, b)
    && 1 <= c - b <= 2 && RunIn(Digit, s, b, c)
    && (c2 == c || (c2 == c + 1 && s[c] == ','))
    && RunIn(Space, s, c2, d)
    && |s| - d == 4 && RunIn(Digit, s, d, |s|)
  }

  function MatchMonthFirst(s: string, bound: WordBound): (r: Option<Groups>)
    ensures r.Some? ==> exists a: nat, b: nat, c: nat, c2: nat, d: nat :: MonthFirstAt(s, bound, a, b, c, c2, d)
                          && r.value == Groups(s[..a], s[b..c], s[d..])
  {
    var a := Span(s, 0, Word);
    if !WordLength(bound, a) then None
    else
      var b := Span(s, a, Space);
      if b == a then None
      else
        var c := Span(s, b, Digit);
        if !(1 <= c - b <= 2) then None
        else
          var c2 := if c < |s| && s[c] == ',' then c + 1 else c;
          var d := Span(s, c2, Space);
          if d == c2 then None
          else
            var e := Span(s, d, Digit);
            if e != |s| || e - d != 4 then None
            else
              assert MonthFirstAt(s, bound, a, b, c, c2, d);
              Some(Groups(s[..a], s[b..c], s[d..]))
  }

  lemma MatchMonthFirstComplete(s: string, bound: WordBound, a: nat, b: nat, c: nat, c2: nat, d: nat)
    requires MonthFirstAt(s, bound, a, b, c, c2, d)
    ensures MatchMonthFirst(s, bound) == Some(Groups(s[..a], s[b..c], s[d..]))
  {
    assert InClass(Space, s[a]);
    assert InClass(Digit, s[b]);
    assert InClass(Space, s[c2]);
    assert InClass(Digit, s[d]);
    SpaceIsNotWord(s[a]);
    SpaceIsNotWord(s[c2]);
    SpanAt(s, 0, a, Word);
    SpanAt(s, a, b, Space);
    SpanAt(s, b, c, Digit);
    var c' := if c < |s| && s[c] == ',' then c + 1 else c;
    assert c' == c2;
    SpanAt(s, c2, d, Space);
    SpanAt(s, d, |s|, Digit);
    MonthFirstBySpans(s, bound, a, b, c, c2, d);
  }

  /** The matcher's steps, given where each of its spans ends. */
  lemma MonthFirstBySpans(s: string, bound: WordBound, a: nat, b: nat, c: nat, c2: nat, d: nat)
    requires a <= b <= c <= c2 <= d <= |s|
    requires Span(s, 0, Word) == a && WordLength(bound, a)
    requires Span(s, a, Space) == b && b != a
    requires Span(s, b, Digit) == c && 1 <= c - b <= 2
    requires c2 == if c < |s| && s[c] == ',' then c + 1 else c
    requires Span(s, c2, Space) == d && d != c2
    requires Span(s, d, Digit) == |s| && |s| - d == 4
    ensures MatchMonthFirst(s, bound) == Some(Groups(s[..a], s[b..c], s[d..]))
  {
  }

  /** `^(\d{1,2})\s+(\w{3})\s+(\d{4})$` (or with `\w{3,}`) matches `s`, the
      pieces ending at `a` (the day), `b` (white space), `c` (the word) and
      `d` (white space), the year running to the end. */
  predicate DayFirstAt(s: string, bound: WordBound, a: nat, b: nat, c: nat, d: nat)
  {
    && a < b < c < d <= |s|
    && 1 <= a <= 2 && RunIn(Digit, s, 0, a)
    && RunIn(Space, s, a, b)
    && WordLength(bound, c - b) && RunIn(Word, s, b, c)
    && RunIn(Space, s, c, d)
    && |s| - d == 4 && RunIn(Digit, s, d, |s|)
  }

  function MatchDayFirst(s: string, bound: WordBound): (r: Option<Groups>)
    ensures r.Some? ==> exists a: nat, b: nat, c: nat, d: nat :: DayFirstAt(s, bound, a, b, c, d)
                          && r.value == Groups(s[..a], s[b..c], s[d..])
  {
    var a := Span(s, 0, Digit);
    if !(1 <= a <= 2) then None
    else
      var b := Span(s, a, Space);
      if b == a then None
      else
        var c := Span(s, b, Word);
        if !WordLength(bound, c - b) then None
        else
          var d := Span(s, c, Space);
          if d == c then None
          else
            var e := Span(s, d, Digit);
            if e != |s| || e - d != 4 then None
            else
              assert DayFirstAt(s, bound, a, b, c, d);
              Some(Groups(s[..a], s[b..c], s[d..]))
  }

  lemma MatchDayFirstComplete(s: string, bound: WordBound, a: nat, b: nat, c: nat, d: nat)
    requires DayFirstAt(s, bound, a, b, c, d)
    ensures MatchDayFirst(s, bound) == Some(Groups(s[..a], s[b..c], s[d..]))
  {
    assert InClass(Space, s[a]) && InClass(Word, s[b]) && InClass(Space, s[c]) && InClass(Digit, s[d]);
    SpanAt(s, 0, a, Digit);
    SpanAt(s, a, b, Space);
    SpanAt(s, b, c, Word);
    SpanAt(s, c, d, Space);
    SpanAt(s, d, |s|, Digit);
  }

  /** The unit words of the relative form. */
  const Units: seq<string> := ["day", "days", "week", "weeks", "month", "months"]

  /** `^in\s+(\d+)\s+(day|days|week|weeks|month|months)$` matches `s`, the
      pieces ending at `b` (white space), `c` (the amount) and `d` (white
      space), the unit running to the end. */
  predicate RelativeAt(s: string, b: nat, c: nat, d: nat)
  {
    && 2 < b < c < d <= |s|
    && s[..2] == "in"
    && RunIn(Space, s, 2, b)
    && RunIn(Digit, s, b, c)
    && RunIn(Space, s, c, d)
    && s[d..] in Units
  }

  function MatchRelative(s: string): (r: Option<(string, string)>)
    ensures r.Some? ==> exists b: nat, c: nat, d: nat :: RelativeAt(s, b, c, d) && r.value == (s[b..c], s[d..])
    ensures r.Some? ==> |r.value.0| >= 1 && AllIn(Digit, r.value.0) && r.value.1 in Units
  {
    if |s| < 2 || s[..2] != "in" then None
    else
      var b := Span(s, 2, Space);
      if b == 2 then None
      else
        var c := Span(s, b, Digit);
        if c == b then None
        else
          var d := Span(s, c, Space);
          if d == c || s[d..] !in Units then None
          else
            assert RelativeAt(s, b, c, d);
            assert AllIn(Digit, s[b..c]) by {
              forall m | 0 <= m < c - b ensures InClass(Digit, s[b..c][m]) { assert s[b..c][m] == s[b + m]; }
            }
            Some((s[b..c], s[d..]))
  }

  lemma MatchRelativeComplete(s: string, b: nat, c: nat, d: nat)
    requires RelativeAt(s, b, c, d)
    ensures MatchRelative(s) == Some((s[b..c], s[d..]))
  {
    assert InClass(Digit, s[b]) && InClass(Space, s[c]);
    assert s[d..][0] == s[d] && !IsJsSpace(s[d]);
    SpanAt(s, 2, b, Space);
    SpanAt(s, b, c, Digit);
    SpanAt(s, c, d, Space);
  }

  // ----- parseInt -----

  /** The value of `c` as a digit in base 10 or 16, if it is one. */
  function RadixDigit(c: char, radix: nat): (v: Option<nat>)
    ensures v.Some? ==> v.value < radix
    ensures radix == 10 ==> (v.Some? <==> IsDigit(c)) && (IsDigit(c) ==> v == Some(DigitValue(c)))
  {
    if IsDigit(c) && DigitValue(c) < radix then Some(DigitValue(c))
    else if radix == 16 && 'a' <= c <= 'f' then Some((c as int) - ('a' as int) + 10)
    else if radix == 16 && 'A' <= c <= 'F' then Some((c as int) - ('A' as int) + 10)
    else None
  }

  /** Length of the longest prefix of `s` made of digits of the radix. */
  function DigitRun(s: string, radix: nat): (n: nat)
    ensures n <= |s|
    ensures forall i :: 0 <= i < n ==> RadixDigit(s[i], radix).Some?
    ensures n < |s| ==> RadixDigit(s[n], radix).None?
  {
    if s == [] || RadixDigit(s[0], radix).None? then 0 else 1 + DigitRun(s[1..], radix)
  }

  /** The value of a string of digits of the radix, most significant first. */
  function RadixValue(s: string, radix: nat): nat
    requires forall i :: 0 <= i < |s| ==> RadixDigit(s[i], radix).Some?
  {
    if s == [] then 0
    else RadixValue(s[..|s| - 1], radix) * radix + RadixDigit(s[|s| - 1], radix).value
  }

  lemma {:induction false} RadixTenIsDecimal(s: string)
    requires AllDigits(s)
    ensures forall i :: 0 <= i < |s| ==> RadixDigit(s[i], 10).Some?
    ensures RadixValue(s, 10) == DecimalValue(s)
  {
    if s != [] {
      RadixTenIsDecimal(s[..|s| - 1]);
    }
  }

  /** The longest run of `radix` digits at the start of `v`, as a number;
      `None` when there is none. */
  function DigitsValue(v: string, radix: nat): Option<nat>
  {
    var n := DigitRun(v, radix);
    if n == 0 then None else Some(RadixValue(v[..n], radix))
  }

  /** The digits after the sign: a `0x` or `0X` prefix selects base 16. */
  function UnsignedParse(u: string): Option<nat>
  {
    if |u| >= 2 && u[0] == '0' && (u[1] == 'x' || u[1] == 'X') then DigitsValue(u[2..], 16)
    else DigitsValue(u, 10)
  }

  /** An optional `-` or `+`, then the digits. */
  function SignedParse(t: string): Option<int>
  {
    var m := if |t| > 0 && (t[0] == '-' || t[0] == '+') then UnsignedParse(t[1..]) else UnsignedParse(t);
    if m.None? then None
    else if |t| > 0 && t[0] == '-' then Some(-(m.value as int))
    else Some(m.value as int)
  }

  /** `parseInt(s)`: leading white space skipped, an optional sign, a `0x`
      prefix selecting base 16, then the longest run of digits; no digit
      at all is NaN (`None`). */
  function JsParseInt(s: string): Option<int>
  {
    SignedParse(TrimStart(s))
  }

  /** A capture group of decimal digits parses to its decimal value. */
  lemma ParseIntOfDigits(s: string)
    requires |s| >= 1 && AllIn(Digit, s)
    ensures AllDigits(s) && JsParseInt(s) == Some(DecimalValue(s))
  {
    assert InClass(Digit, s[0]);
    assert !IsJsSpace(s[0]);
    assert TrimStart(s) == s;
    assert s[0] != '-' && s[0] != '+';
    if |s| >= 2 {
      assert InClass(Digit, s[1]);
      assert s[1] != 'x' && s[1] != 'X';
    }
    assert forall i :: 0 <= i < |s| ==> IsDigit(s[i]) by {
      forall i | 0 <= i < |s| ensures IsDigit(s[i]) { assert InClass(Digit, s[i]); }
    }
    RadixTenIsDecimal(s);
    DigitRunFull(s, 10);
    assert s[..|s|] == s;
    assert DigitsValue(s, 10) == Some(DecimalValue(s));
    assert UnsignedParse(s) == Some(DecimalValue(s));
  }

  lemma {:induction false} DigitRunFull(s: string, radix: nat)
    requires forall i :: 0 <= i < |s| ==> RadixDigit(s[i], radix).Some?
    ensures DigitRun(s, radix) == |s|
  {
    if s != [] {
      forall i | 0 <= i < |s[1..]| ensures RadixDigit(s[1..][i], radix).Some? {
        assert s[1..][i] == s[i + 1];
      }
      DigitRunFull(s[1..], radix);
    }
  }

  /** A word that starts with a letter or `_` is NaN to `parseInt`. */
  lemma ParseIntOfLetterWord(s: string)
    requires |s| >= 1 && IsWordChar(s[0]) && !IsDigit(s[0])
    ensures JsParseInt(s) == None
  {
    assert !IsJsSpace(s[0]);
    assert TrimStart(s) == s;
    assert RadixDigit(s[0], 10).None?;
    assert DigitRun(s, 10) == 0;
    assert UnsignedParse(s) == None;
  }

  // ----- the month table -----

  /** What the `monthNames` object gives for a key: one of its own entries,
      a property every object inherits (`constructor`, `__proto__`; the
      other inherited names contain capitals and so are never looked up
      after lower-casing), or `undefined`. */
  datatype MonthEntry = Index(i: nat) | Inherited | Absent

  /** The full month names in table order. */
  const MonthNames: seq<string> := ["january", "february", "march", "april", "may", "june",
    "july", "august", "september", "october", "november", "december"]

  function MonthLookup(name: string): (e: MonthEntry)
    ensures e.Index? ==> e.i < 12 && |name| >= 3 && IsAsciiLetter(name[0])
  {
    if name == "jan" || name == "january" then Index(0)
    else if name == "feb" || name == "february" then Index(1)
    else if name == "mar" || name == "march" then Index(2)
    else if name == "apr" || name == "april" then Index(3)
    else if name == "may" then Index(4)
    else if name == "jun" || name == "june" then Index(5)
    else if name == "jul" || name == "july" then Index(6)
    else if name == "aug" || name == "august" then Index(7)
    else if name == "sep" || name == "september" then Index(8)
    else if name == "oct" || name == "october" then Index(9)
    else if name == "nov" || name == "november" then Index(10)
    else if name == "dec" || name == "december" then Index(11)
    else if name == "constructor" || name == "__proto__" then Inherited
    else Absent
  }

  /** Each month's full name and its first three letters look up its
      index. */
  lemma MonthNameLooksUp(name: string, i: nat)
    requires i < 12
    requires name == MonthNames[i] || name == MonthNames[i][..3]
    ensures MonthLookup(name) == Index(i)
  {
    var full, short := MonthNames[i], MonthNames[i][..3];
    if i == 0 { assert full == "january" && short == "jan"; }
    else if i == 1 { assert full == "february" && short == "feb"; }
    else if i == 2 { assert full == "march" && short == "mar"; }
    else if i == 3 { assert full == "april" && short == "apr"; }
    else if i == 4 { assert full == "may" && short == "may"; }
    else if i == 5 { assert full == "june" && short == "jun"; }
    else if i == 6 { assert full == "july" && short == "jul"; }
    else if i == 7 { assert full == "august" && short == "aug"; }
    else if i == 8 { assert full == "september" && short == "sep"; }
    else if i == 9 { assert full == "october" && short == "oct"; }
    else if i == 10 { assert full == "november" && short == "nov"; }
    else { assert full == "december" && short == "dec"; }
  }

  /** Nothing else looks up a month index. */
  lemma MonthLookupIsName(name: string, i: nat)
    requires MonthLookup(name) == Index(i)
    ensures i < 12 && (name == MonthNames[i] || name == MonthNames[i][..3])
  {
    var full, short := MonthNames[i], MonthNames[i][..3];
    if i == 0 { assert full == "january" && short == "jan"; }
    else if i == 1 { assert full == "february" && short == "feb"; }
    else if i == 2 { assert full == "march" && short == "mar"; }
    else if i == 3 { assert full == "april" && short == "apr"; }
    else if i == 4 { assert full == "may" && short == "may"; }
    else if i == 5 { assert full == "june" && short == "jun"; }
    else if i == 6 { assert full == "july" && short == "jul"; }
    else if i == 7 { assert full == "august" && short == "aug"; }
    else if i == 8 { assert full == "september" && short == "sep"; }
    else if i == 9 { assert full == "october" && short == "oct"; }
    else if i == 10 { assert full == "november" && short == "nov"; }
    else { assert full == "december" && short == "dec"; }
  }
}
