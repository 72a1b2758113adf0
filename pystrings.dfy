/** The Python string builtins the analyzer relies on, written out:
    `str.lower`, substring `in`, `str.strip(chars)`, `str.split(sep)`,
    `sep.join(parts)` and `int(s)` in base 10. */
module PyStrings {
  import opened Wrappers

  // ---------------------------------------------------------------------
  // str.lower (ASCII letters only)
  // ---------------------------------------------------------------------

  function LowerChar(c: char): (l: char) {
    if 'A' <= c <= 'Z' then (c as int + 32) as char else c
  }

  /** `s.lower()` */
  function Lower(s: string): (r: string) {
    seq(|s|, i requires 0 <= i < |s| => LowerChar(s[i]))
  }

  /** Lower-casing keeps every character that is not an upper-case letter. */
  lemma LowerCharFixes(c: char)
    ensures LowerChar(c) == c <==> !('A' <= c <= 'Z')
    ensures !('A' <= LowerChar(c) <= 'Z')
  {
  }

  /** Lower-casing is a character-wise map, so it commutes with slicing. */
  lemma LowerSlice(s: string, lo: nat, hi: nat)
    requires lo <= hi <= |s|
    ensures Lower(s[lo..hi]) == Lower(s)[lo..hi]
  {
  }

  lemma LowerUnchanged(s: string)
    requires forall i | 0 <= i < |s| :: !('A' <= s[i] <= 'Z')
    ensures Lower(s) == s
  {
  }

  // ---------------------------------------------------------------------
  // substring test `t in s`
  // ---------------------------------------------------------------------

  /** `t in s` for strings: `t` occurs in `s` as a contiguous piece. */
  predicate Contains(s: string, t: string)
    decreases |s|
  {
    t <= s || (|s| > 0 && Contains(s[1..], t))
  }

  /** `Contains` finds exactly the positions where `t` starts in `s`. */
  lemma {:induction false} ContainsAt(s: string, t: string, k: nat)
    requires k + |t| <= |s| && s[k..k + |t|] == t
    ensures Contains(s, t)
    decreases k
  {
    if k > 0 {
      assert s[1..][k - 1..k - 1 + |t|] == s[k..k + |t|];
      ContainsAt(s[1..], t, k - 1);
    }
  }

  /** `t` cannot occur in `s` when one of its characters does not. */
  lemma {:induction false} NotContainsChar(s: string, t: string, c: char)
    requires c in t && c !in s
    ensures !Contains(s, t)
    decreases |s|
  {
    var k :| 0 <= k < |t| && t[k] == c;
    assert !(t <= s);
    if |s| > 0 {
      NotContainsChar(s[1..], t, c);
    }
  }

  /** A path without upper-case letters contains `t` where `t` occurs in it. */
  lemma LowerContains(p: string, t: string, k: nat)
    requires forall i | 0 <= i < |p| :: !('A' <= p[i] <= 'Z')
    requires k + |t| <= |p| && p[k..k + |t|] == t
    ensures Contains(Lower(p), t)
  {
    LowerUnchanged(p);
    ContainsAt(p, t, k);
  }

  /** A path in which a lower-case letter of `t` appears in neither case does
      not contain `t` once lower-cased. */
  lemma LowerNotContains(p: string, t: string, c: char)
    requires 'a' <= c <= 'z' && c in t
    requires c !in p && (c as int - 32) as char !in p
    ensures !Contains(Lower(p), t)
  {
    assert forall i | 0 <= i < |p| :: Lower(p)[i] != c;
    NotContainsChar(Lower(p), t, c);
  }

  // ---------------------------------------------------------------------
  // str.strip(chars)
  // ---------------------------------------------------------------------

  /** How many characters at the start of `s` belong to `chars`. */
  function LeadingCount(s: string, chars: set<char>): (n: nat)
    ensures n <= |s|
  {
    if |s| > 0 && s[0] in chars then 1 + LeadingCount(s[1..], chars) else 0
  }

  /** How many characters at the end of `s` belong to `chars`. */
  function TrailingCount(s: string, chars: set<char>): (n: nat)
    ensures n <= |s|
  {
    if |s| > 0 && s[|s| - 1] in chars then 1 + TrailingCount(s[..|s| - 1], chars) else 0
  }

  /** `s.lstrip(chars)` */
  function StripLeft(s: string, chars: set<char>): (r: string) {
    s[LeadingCount(s, chars)..]
  }

  /** `s.rstrip(chars)` */
  function StripRight(s: string, chars: set<char>): (r: string) {
    s[..|s| - TrailingCount(s, chars)]
  }

  /** `s.strip(chars)` */
  function Strip(s: string, chars: set<char>): (r: string) {
    StripRight(StripLeft(s, chars), chars)
  }

  /** `lstrip` removes the longest run of `chars` at the start and no more. */
  lemma {:induction false} LeadingCountSpec(s: string, chars: set<char>)
    ensures forall i | 0 <= i < LeadingCount(s, chars) :: s[i] in chars
    ensures LeadingCount(s, chars) == |s| || s[LeadingCount(s, chars)] !in chars
  {
    if |s| > 0 && s[0] in chars {
      LeadingCountSpec(s[1..], chars);
    }
  }

  /** `rstrip` removes the longest run of `chars` at the end and no more. */
  lemma {:induction false} TrailingCountSpec(s: string, chars: set<char>)
    ensures forall i | |s| - TrailingCount(s, chars) <= i < |s| :: s[i] in chars
    ensures TrailingCount(s, chars) == |s| || s[|s| - TrailingCount(s, chars) - 1] !in chars
  {
    if |s| > 0 && s[|s| - 1] in chars {
      TrailingCountSpec(s[..|s| - 1], chars);
    }
  }

  /** A run of `chars` in front of a piece that does not start with one is
      exactly what `lstrip` counts. */
  lemma {:induction false} LeadingCountPrefix(a: string, t: string, chars: set<char>)
    requires forall i | 0 <= i < |a| :: a[i] in chars
    requires t == [] || t[0] !in chars
    ensures LeadingCount(a + t, chars) == |a|
  {
    if |a| > 0 {
      assert (a + t)[1..] == a[1..] + t;
      LeadingCountPrefix(a[1..], t, chars);
    } else {
      assert a + t == t;
    }
  }

  /** A run of `chars` after a piece that does not end with one is exactly
      what `rstrip` counts. */
  lemma {:induction false} TrailingCountSuffix(t: string, b: string, chars: set<char>)
    requires forall i | 0 <= i < |b| :: b[i] in chars
    requires t == [] || t[|t| - 1] !in chars
    ensures TrailingCount(t + b, chars) == |b|
  {
    if |b| > 0 {
      assert (t + b)[..|t + b| - 1] == t + b[..|b| - 1];
      TrailingCountSuffix(t, b[..|b| - 1], chars);
    } else {
      assert t + b == t;
    }
  }

  /** Strip removes exactly a run of `chars` on each side: whatever `s` is
      wrapped in, as long as `s` itself neither starts nor ends with one of them. */
  lemma StripSurrounded(a: string, s: string, b: string, chars: set<char>)
    requires forall i | 0 <= i < |a| :: a[i] in chars
    requires forall i | 0 <= i < |b| :: b[i] in chars
    requires s == [] || (s[0] !in chars && s[|s| - 1] !in chars)
    ensures Strip(a + s + b, chars) == s
  {
    if s == [] {
      assert a + s + b == a + b;
      assert forall i | 0 <= i < |a + b| :: (a + b)[i] in chars;
      LeadingCountPrefix(a + b, [], chars);
      assert a + b + [] == a + b;
    } else {
      assert a + s + b == a + (s + b);
      LeadingCountPrefix(a, s + b, chars);
      assert StripLeft(a + s + b, chars) == s + b;
      TrailingCountSuffix(s, b, chars);
    }
  }

  /** The stripped string neither starts nor ends with a character of `chars`. */
  lemma StripEnds(s: string, chars: set<char>)
    ensures var r := Strip(s, chars); r == [] || (r[0] !in chars && r[|r| - 1] !in chars)
  {
    var l := StripLeft(s, chars);
    LeadingCountSpec(s, chars);
    TrailingCountSpec(l, chars);
    var r := Strip(s, chars);
    if r != [] {
      assert r[0] == l[0] == s[LeadingCount(s, chars)];
    }
  }

  // ---------------------------------------------------------------------
  // sep.join(parts) and s.split(sep), for a one-character separator
  // ---------------------------------------------------------------------

  /** `sep.join(parts)` */
  function Join(parts: seq<string>, sep: char): (r: string) {
    if |parts| == 0 then ""
    else if |parts| == 1 then parts[0]
    else parts[0] + [sep] + Join(parts[1..], sep)
  }

  /** `s.index(c)` */
  function FirstIndex(s: string, c: char): (i: nat)
    requires c in s
    ensures i < |s| && s[i] == c
    ensures forall j | 0 <= j < i :: s[j] != c
  {
    if s[0] == c then 0 else 1 + FirstIndex(s[1..], c)
  }

  /** `s.split(sep)`: the pieces between separators; there is always one
      more piece than there are separators, so never none. */
  function Split(s: string, sep: char): (parts: seq<string>)
    ensures |parts| >= 1
    ensures forall i | 0 <= i < |parts| :: sep !in parts[i]
    decreases |s|
  {
    if sep !in s then [s]
    else
      var i := FirstIndex(s, sep);
      [s[..i]] + Split(s[i + 1..], sep)
  }

  /** The pieces of a split join back to the string that was split. */
  lemma {:induction false} JoinSplit(s: string, sep: char)
    ensures Join(Split(s, sep), sep) == s
    decreases |s|
  {
    if sep in s {
      var i := FirstIndex(s, sep);
      var rest := Split(s[i + 1..], sep);
      JoinSplit(s[i + 1..], sep);
      assert Split(s, sep)[1..] == rest;
      assert s == s[..i] + [sep] + s[i + 1..];
    }
  }

  /** The first separator of `a + [sep] + b` is the one after `a` when `a` has none. */
  lemma FirstIndexAfter(a: string, sep: char, b: string)
    requires sep !in a
    ensures FirstIndex(a + [sep] + b, sep) == |a|
  {
    var s := a + [sep] + b;
    assert s[|a|] == sep;
    assert forall j | 0 <= j < |a| :: s[j] == a[j];
  }

  /** Splitting a piece without the separator, the separator and a rest gives
      that piece, then the pieces of the rest. */
  lemma SplitCons(a: string, sep: char, b: string)
    requires sep !in a
    ensures Split(a + [sep] + b, sep) == [a] + Split(b, sep)
  {
    var s := a + [sep] + b;
    FirstIndexAfter(a, sep, b);
    assert s[|a|] == sep;
    assert s[..|a|] == a;
    assert s[|a| + 1..] == b;
  }

  /** Splitting a join gives the pieces back, when no piece holds the separator. */
  lemma {:induction false} SplitJoin(parts: seq<string>, sep: char)
    requires |parts| >= 1
    requires forall i | 0 <= i < |parts| :: sep !in parts[i]
    ensures Split(Join(parts, sep), sep) == parts
    decreases |parts|
  {
    if |parts| > 1 {
      var rest := parts[1..];
      SplitCons(parts[0], sep, Join(rest, sep));
      SplitJoin(rest, sep);
      assert parts == [parts[0]] + rest;
    }
  }

  lemma JoinTwo(a: string, b: string, sep: char)
    ensures Join([a, b], sep) == a + [sep] + b
  {
    assert [a, b][1..] == [b];
  }

  /** The join of three pieces. */
  lemma JoinThree(t: seq<string>, sep: char)
    requires |t| == 3
    ensures Join(t, sep) == t[0] + [sep] + t[1] + [sep] + t[2]
  {
    var r := t[1..];
    assert r[1..] == [t[2]];
    assert Join(r, sep) == t[1] + [sep] + t[2];
  }

  /** A join starts with the first piece's first character. */
  lemma JoinStart(parts: seq<string>, sep: char)
    requires |parts| >= 1 && |parts[0]| >= 1
    ensures |Join(parts, sep)| >= 1 && Join(parts, sep)[0] == parts[0][0]
  {
  }

  /** A join ends with the last piece's last character. */
  lemma {:induction false} JoinEnd(parts: seq<string>, sep: char)
    requires |parts| >= 1 && |parts[|parts| - 1]| >= 1
    ensures var s, l := Join(parts, sep), parts[|parts| - 1]; |s| >= 1 && s[|s| - 1] == l[|l| - 1]
    decreases |parts|
  {
    if |parts| > 1 {
      JoinEnd(parts[1..], sep);
    }
  }

  lemma ConcatShape(p: string, x: string, y: string, z: string, sep: char)
    ensures p + [sep] + (x + [sep] + y + [sep] + z) == p + [sep] + x + [sep] + y + [sep] + z
  {
  }

  /** Joining two non-empty lists puts one separator between the two joins. */
  lemma {:induction false} JoinAppend(a: seq<string>, b: seq<string>, sep: char)
    requires |a| >= 1 && |b| >= 1
    ensures Join(a + b, sep) == Join(a, sep) + [sep] + Join(b, sep)
    decreases |a|
  {
    if |a| > 1 {
      assert (a + b)[1..] == a[1..] + b;
      JoinAppend(a[1..], b, sep);
    } else {
      assert (a + b)[1..] == b;
    }
  }

  // ---------------------------------------------------------------------
  // int(s) in base 10
  // ---------------------------------------------------------------------

  predicate IsDigit(c: char) {
    '0' <= c <= '9'
  }

  /** The characters `int()` ignores around the number: the ASCII white space
      `\t \n \v \f \r` and space, and every non-ASCII character that
      `str.isspace()` accepts (CPython turns those into spaces first). The
      ASCII separators U+001C..U+001F are not among them. */
  const Whitespace: set<char> :=
    {'\t', '\n', '\U{B}', '\U{C}', '\r', ' ',
     '\U{85}', '\U{A0}', '\U{1680}', '\U{2000}', '\U{2001}', '\U{2002}', '\U{2003}',
     '\U{2004}', '\U{2005}', '\U{2006}', '\U{2007}', '\U{2008}', '\U{2009}', '\U{200A}',
     '\U{2028}', '\U{2029}', '\U{202F}', '\U{205F}', '\U{3000}'}

  const InvalidIntLiteral := "invalid literal for int() with base 10"

  /** Digits, with single underscores allowed between two digits. */
  predicate IsDigitRun(b: string) {
    && |b| > 0 && IsDigit(b[0]) && IsDigit(b[|b| - 1])
    && (forall i | 0 <= i < |b| :: IsDigit(b[i]) || b[i] == '_')
    && (forall i | 0 <= i < |b| - 1 :: !DoubleUnderscoreAt(b, i))
  }

  /** Two underscores in a row at position `i`. */
  predicate DoubleUnderscoreAt(b: string, i: nat)
    requires i + 1 < |b|
  {
    b[i] == '_' && b[i + 1] == '_'
  }

  function DigitValue(c: char): (d: nat)
    requires IsDigit(c)
  {
    c as int - '0' as int
  }

  /** Decimal value of a run of digits and underscores, the underscores skipped. */
  function RunValue(b: string): (v: nat)
    requires forall i | 0 <= i < |b| :: IsDigit(b[i]) || b[i] == '_'
  {
    if |b| == 0 then 0
    else if b[|b| - 1] == '_' then RunValue(b[..|b| - 1])
    else 10 * RunValue(b[..|b| - 1]) + DigitValue(b[|b| - 1])
  }

  /** `int(s)`: optional surrounding white space, then a signed digit run. */
  function ParseInt(s: string): (r: Result<int>) {
    ParseSigned(Strip(s, Whitespace))
  }

  /** `int(t)` of a string with no white space around it: an optional sign,
      then a digit run of at most `MaxStrDigits` digits. */
  function ParseSigned(t: string): (r: Result<int>) {
    var negative := |t| > 0 && t[0] == '-';
    var body := if |t| > 0 && (t[0] == '+' || t[0] == '-') then t[1..] else t;
    if !IsDigitRun(body) then Err(ValueError(InvalidIntLiteral))
    else if DigitCount(body) > MaxStrDigits then Err(ValueError(DigitLimitMessage(DigitCount(body))))
    else
      var value: int := RunValue(body);
      Ok(if negative then -value else value)
  }

  /** CPython's default limit on the number of decimal digits `int()` reads
      and `str()` writes (`sys.int_info.default_max_str_digits`). */
  const MaxStrDigits: nat := 4300

  /** The `ValueError` text for a digit run of `count` digits over the limit. */
  function DigitLimitMessage(count: nat): (m: string) {
    "Exceeds the limit (" + DecimalString(MaxStrDigits) + " digits) for integer string conversion: value has "
      + DecimalString(count) + " digits; use sys.set_int_max_str_digits() to increase the limit"
  }

  /** The number of digits in a run, underscores not counted. */
  function DigitCount(b: string): (n: nat)
    ensures n <= |b|
  {
    if |b| == 0 then 0
    else DigitCount(b[..|b| - 1]) + (if b[|b| - 1] == '_' then 0 else 1)
  }

  /** A string of digits alone has as many digits as characters. */
  lemma {:induction false} DigitCountOfDigits(s: string)
    requires forall i | 0 <= i < |s| :: IsDigit(s[i])
    ensures DigitCount(s) == |s|
  {
    if |s| > 0 {
      DigitCountOfDigits(s[..|s| - 1]);
    }
  }

  function DigitChar(d: nat): (c: char)
    requires d < 10
    ensures IsDigit(c) && DigitValue(c) == d
  {
    ('0' as int + d) as char
  }

  /** `str(n)` for a natural number: its decimal digits, most significant first. */
  function DecimalString(n: nat): (s: string)
    ensures |s| >= 1
    ensures forall i | 0 <= i < |s| :: IsDigit(s[i])
  {
    if n < 10 then [DigitChar(n)] else DecimalString(n / 10) + [DigitChar(n % 10)]
  }

  lemma {:induction false} RunValueDecimal(n: nat)
    ensures RunValue(DecimalString(n)) == n
  {
    var s := DecimalString(n);
    if n >= 10 {
      RunValueDecimal(n / 10);
      assert s[..|s| - 1] == DecimalString(n / 10);
    }
  }

  lemma DigitNotSpace(c: char)
    requires IsDigit(c)
    ensures c !in Whitespace
  {
  }

  /** `int(str(n)) == n`, for every `n` whose decimal string is within the
      digit limit (beyond it, `str(n)` itself raises `ValueError`). */
  lemma ParseIntDecimal(n: nat)
    requires |DecimalString(n)| <= MaxStrDigits
    ensures ParseInt(DecimalString(n)) == Ok(n)
  {
    ParseIntDigits(DecimalString(n));
    RunValueDecimal(n);
  }

  /** A string of digits alone parses to its decimal value, or is refused
      when it has more digits than the limit. */
  lemma ParseIntDigits(s: string)
    requires |s| >= 1 && forall i | 0 <= i < |s| :: IsDigit(s[i])
    ensures |s| <= MaxStrDigits ==> ParseInt(s) == Ok(RunValue(s) as int)
    ensures |s| > MaxStrDigits ==> ParseInt(s) == Err(ValueError(DigitLimitMessage(|s|)))
  {
    StripDigits(s);
    DigitsAreRun(s);
    DigitCountOfDigits(s);
    ParseSignedRun(s);
  }

  /** `int()` refuses a string of more digits than the limit, whatever their value. */
  lemma ParseIntDigitLimit(s: string)
    requires |s| > MaxStrDigits && forall i | 0 <= i < |s| :: IsDigit(s[i])
    ensures ParseInt(s) == Err(ValueError(DigitLimitMessage(|s|)))
  {
    ParseIntDigits(s);
  }

  /** Without white space around it and without a sign, a digit run parses to
      its value when within the limit, and is refused otherwise. */
  lemma ParseSignedRun(s: string)
    requires IsDigitRun(s)
    ensures DigitCount(s) <= MaxStrDigits ==> ParseSigned(s) == Ok(RunValue(s) as int)
    ensures DigitCount(s) > MaxStrDigits ==> ParseSigned(s) == Err(ValueError(DigitLimitMessage(DigitCount(s))))
  {
    assert IsDigit(s[0]);
  }

  /** Digits alone form a digit run. */
  lemma DigitsAreRun(s: string)
    requires |s| >= 1 && forall i | 0 <= i < |s| :: IsDigit(s[i])
    ensures IsDigitRun(s)
  {
    forall i | 0 <= i < |s| - 1
      ensures !DoubleUnderscoreAt(s, i)
    {
      assert IsDigit(s[i]);
    }
  }

  /** Stripping white space leaves a string of digits alone. */
  lemma StripDigits(s: string)
    requires |s| >= 1 && IsDigit(s[0]) && IsDigit(s[|s| - 1])
    ensures Strip(s, Whitespace) == s
  {
    DigitNotSpace(s[0]);
    DigitNotSpace(s[|s| - 1]);
    StripSurrounded("", s, "", Whitespace);
    assert "" + s + "" == s;
  }

  /** `int()` rejects every string without a digit in it. */
  lemma ParseIntNeedsDigit(s: string)
    requires forall i | 0 <= i < |s| :: !IsDigit(s[i])
    ensures ParseInt(s).Err? && ParseInt(s).error.ValueError?
  {
    var l := StripLeft(s, Whitespace);
    var t := StripRight(l, Whitespace);
    assert forall j | 0 <= j < |t| :: t[j] == s[|s| - |l| + j];
    var body := if |t| > 0 && (t[0] == '+' || t[0] == '-') then t[1..] else t;
    assert |body| > 0 ==> !IsDigit(body[0]);
  }
}
