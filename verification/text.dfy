/** String operations of Python's `str` type that the services rely on:
    whitespace (`isspace`, `strip`), `upper`, `replace`, substring search, and
    the decimal and hexadecimal renderings and parsings of integers. */
module Text {
  import opened Wrappers

  // ---------------------------------------------------------------------------
  // Digits

  predicate IsDigit(c: char) {
    '0' <= c <= '9'
  }

  predicate AllDigits(s: string) {
    forall k :: 0 <= k < |s| ==> IsDigit(s[k])
  }

  function DigitValue(c: char): nat
    requires IsDigit(c)
  {
    (c as int) - ('0' as int)
  }

  function DigitChar(n: nat): (c: char)
    requires n < 10
    ensures IsDigit(c) && DigitValue(c) == n
  {
    ('0' as int + n) as char
  }

  /** The value of a run of decimal digits, most significant first (leading zeros allowed). */
  function DigitsValue(s: string): nat
    requires AllDigits(s)
    decreases |s|
  {
    if s == [] then 0 else DigitsValue(s[..|s| - 1]) * 10 + DigitValue(s[|s| - 1])
  }

  /** The shortest decimal rendering of `n`, as Python's `str` renders a non-negative int. */
  function Decimal(n: nat): (r: string)
    ensures 0 < |r| && AllDigits(r)
    ensures DigitsValue(r) == n
    ensures 0 < n ==> r[0] != '0'
    decreases n
  {
    if n < 10 then [DigitChar(n)]
    else
      var r := Decimal(n / 10) + [DigitChar(n % 10)];
      assert r[..|r| - 1] == Decimal(n / 10);
      r
  }

  /** Python's `str(i)` for an int. */
  function IntToString(i: int): string {
    if i < 0 then "-" + Decimal(-i) else Decimal(i)
  }

  // ---------------------------------------------------------------------------
  // Whitespace

  /** Python's `str.isspace()` for one character: the characters Python treats as
      whitespace in `strip()`, `split()` and the regular-expression class `\s`. */
  predicate IsSpace(c: char) {
    || c == ' '
    || ('\t' <= c <= '\r')
    || ('\U{1C}' <= c <= '\U{1F}')
    || c == '\U{85}' || c == '\U{A0}' || c == '\U{1680}'
    || ('\U{2000}' <= c <= '\U{200A}')
    || c == '\U{2028}' || c == '\U{2029}' || c == '\U{202F}' || c == '\U{205F}' || c == '\U{3000}'
  }

  predicate AllSpace(s: string) {
    forall k :: 0 <= k < |s| ==> IsSpace(s[k])
  }

  function LeadingSpaces(s: string): (n: nat)
    ensures n <= |s|
    ensures forall k :: 0 <= k < n ==> IsSpace(s[k])
    ensures n < |s| ==> !IsSpace(s[n])
    decreases |s|
  {
    if s == [] || !IsSpace(s[0]) then 0 else 1 + LeadingSpaces(s[1..])
  }

  function TrailingSpaces(s: string): (n: nat)
    ensures n <= |s|
    ensures forall k :: |s| - n <= k < |s| ==> IsSpace(s[k])
    ensures n < |s| ==> !IsSpace(s[|s| - 1 - n])
    decreases |s|
  {
    if s == [] || !IsSpace(s[|s| - 1]) then 0 else 1 + TrailingSpaces(s[..|s| - 1])
  }

  /** Python's `str.strip()` without argument: the result is the stretch of `s`
      between its leading and its trailing whitespace, and starts and ends with a
      non-space character. */
  function Strip(s: string): (r: string)
    ensures r == [] || (!IsSpace(r[0]) && !IsSpace(r[|r| - 1]))
    ensures LeadingSpaces(s) + |r| <= |s|
    ensures r == s[LeadingSpaces(s)..LeadingSpaces(s) + |r|]
    ensures forall k :: 0 <= k < |s| && (k < LeadingSpaces(s) || LeadingSpaces(s) + |r| <= k) ==> IsSpace(s[k])
  {
    var a := LeadingSpaces(s);
    var t := s[a..];
    var b := TrailingSpaces(t);
    t[..|t| - b]
  }

  /** Stripping a string that neither starts nor ends with whitespace leaves it unchanged. */
  lemma StripUnpadded(s: string)
    requires s == [] || (!IsSpace(s[0]) && !IsSpace(s[|s| - 1]))
    ensures Strip(s) == s
  {
  }

  /** Stripping an all-whitespace string leaves nothing. */
  lemma StripAllSpace(s: string)
    requires AllSpace(s)
    ensures Strip(s) == []
  {
  }

  /** Python's `str.lstrip()` and `str.rstrip()`. */
  function LStrip(s: string): string {
    s[LeadingSpaces(s)..]
  }

  function RStrip(s: string): string {
    s[..|s| - TrailingSpaces(s)]
  }

  /** A stretch of `s` with only whitespace around it and none at its ends is what
      `strip()` keeps. */
  lemma StripIsUnique(s: string, i: int, j: int)
    requires 0 <= i <= j <= |s|
    requires forall k :: 0 <= k < |s| && (k < i || j <= k) ==> IsSpace(s[k])
    requires i == j || (!IsSpace(s[i]) && !IsSpace(s[j - 1]))
    ensures Strip(s) == s[i..j]
  {
    var r := Strip(s);
    var a := LeadingSpaces(s);
    if i == j {
      assert AllSpace(s);
      StripAllSpace(s);
    } else {
      assert a <= i;
      assert a == i;
      assert !IsSpace(s[j - 1]);
      assert r != [] && r[|r| - 1] == s[a + |r| - 1];
      assert !IsSpace(s[a + |r| - 1]);
    }
  }

  /** `(x + " " + y).strip()`: when both parts hold a non-space character, the left
      one loses its leading and the right one its trailing whitespace, and the space
      between them and any inner whitespace stay; a blank part drops out with the
      space. */
  lemma StripJoin(x: string, y: string)
    ensures Strip(x + " " + y)
         == if AllSpace(x) then Strip(y) else if AllSpace(y) then Strip(x) else LStrip(x) + " " + RStrip(y)
  {
    if AllSpace(x) {
      StripBlankLeft(x, y);
    } else if AllSpace(y) {
      StripBlankRight(x, y);
    } else {
      StripBothNamed(x, y);
    }
  }

  lemma StripBlankLeft(x: string, y: string)
    requires AllSpace(x)
    ensures Strip(x + " " + y) == Strip(y)
  {
    assert AllSpace(x + " ");
    assert x + " " + y == (x + " ") + y;
    StripBlankPrefix(x + " ", y);
  }

  lemma StripBlankRight(x: string, y: string)
    requires AllSpace(y)
    ensures Strip(x + " " + y) == Strip(x)
  {
    assert AllSpace(" " + y);
    assert x + " " + y == x + (" " + y);
    StripBlankSuffix(x, " " + y);
  }

  /** Whitespace in front does not change the stripped text. */
  lemma StripBlankPrefix(p: string, y: string)
    requires AllSpace(p)
    ensures Strip(p + y) == Strip(y)
  {
    var s := p + y;
    var a, r := LeadingSpaces(y), Strip(y);
    var i, j := |p| + a, |p| + a + |r|;
    forall k | 0 <= k < |s| && (k < i || j <= k) ensures IsSpace(s[k]) {
      if |p| <= k {
        assert s[k] == y[k - |p|];
      }
    }
    assert s[i..j] == r;
    StripIsUnique(s, i, j);
  }

  /** Whitespace behind does not change the stripped text. */
  lemma StripBlankSuffix(x: string, q: string)
    requires AllSpace(q)
    ensures Strip(x + q) == Strip(x)
  {
    var s := x + q;
    var a, r := LeadingSpaces(x), Strip(x);
    var i, j := a, a + |r|;
    forall k | 0 <= k < |s| && (k < i || j <= k) ensures IsSpace(s[k]) {
      if k < |x| {
        assert s[k] == x[k];
      } else {
        assert s[k] == q[k - |x|];
      }
    }
    assert s[i..j] == r;
    StripIsUnique(s, i, j);
  }

  lemma StripBothNamed(x: string, y: string)
    requires !AllSpace(x) && !AllSpace(y)
    ensures Strip(x + " " + y) == LStrip(x) + " " + RStrip(y)
  {
    var a, b := LeadingSpaces(x), TrailingSpaces(y);
    var j := |x| + 1 + |y| - b;
    JoinMiddle(x, y);
    JoinSlice(x, y, a, |y| - b);
    StripIsUnique(x + " " + y, a, j);
  }

  /** In `x + " " + y` with both parts named, the stretch from the first non-space of
      `x` to the last non-space of `y` has only whitespace around it. */
  lemma JoinMiddle(x: string, y: string)
    requires !AllSpace(x) && !AllSpace(y)
    ensures var s, a, b := x + " " + y, LeadingSpaces(x), TrailingSpaces(y);
      && a < |x| && b < |y|
      && !IsSpace(s[a]) && !IsSpace(s[|x| + |y| - b])
      && forall k :: 0 <= k < |s| && (k < a || |x| + 1 + |y| - b <= k) ==> IsSpace(s[k])
  {
    var s := x + " " + y;
    var a, b := LeadingSpaces(x), TrailingSpaces(y);
    var u :| 0 <= u < |x| && !IsSpace(x[u]);
    var w :| 0 <= w < |y| && !IsSpace(y[w]);
    assert a <= u && w < |y| - b;
    var o := |x| + 1;
    forall k | 0 <= k < |s| && (k < a || o + |y| - b <= k) ensures IsSpace(s[k]) {
      if k < a {
        assert s[k] == x[k];
      } else {
        assert s[k] == y[k - o];
      }
    }
    assert s[a] == x[a] && s[|x| + |y| - b] == y[|y| - b - 1];
  }

  lemma JoinSlice(x: string, y: string, a: nat, c: nat)
    requires a <= |x| && c <= |y|
    ensures (x + " " + y)[a..|x| + 1 + c] == x[a..] + " " + y[..c]
  {
    var s := x + " " + y;
    var t := x[a..] + " " + y[..c];
    assert |s[a..|x| + 1 + c]| == |t|;
    forall k | 0 <= k < |t| ensures s[a + k] == t[k] {
      if k < |x| - a {
        assert t[k] == x[a + k];
      } else if k > |x| - a {
        assert t[k] == y[k - (|x| - a) - 1];
      }
    }
  }

  // ---------------------------------------------------------------------------
  // Case mapping

  predicate IsAsciiLower(c: char) {
    'a' <= c <= 'z'
  }

  function UpperChar(c: char): char {
    if IsAsciiLower(c) then (c as int - 32) as char else c
  }

  /** Python's `str.upper()`, restricted to the ASCII letters. */
  function Upper(s: string): (r: string)
    ensures |r| == |s|
    ensures forall k :: 0 <= k < |s| ==> r[k] == UpperChar(s[k])
    ensures forall k :: 0 <= k < |r| ==> !IsAsciiLower(r[k])
    decreases |s|
  {
    if s == [] then [] else [UpperChar(s[0])] + Upper(s[1..])
  }

  // ---------------------------------------------------------------------------
  // Substrings and replacement

  /** Python's `pat in s` for strings: some window of `s` spells `pat`. */
  predicate Occurs(pat: string, s: string)
    decreases |s|
  {
    |pat| <= |s| && (s[..|pat|] == pat || (0 < |s| && Occurs(pat, s[1..])))
  }

  /** Python's `s.replace(pat, rep)`: every non-overlapping occurrence of `pat`,
      scanning left to right, is replaced by `rep`. */
  function ReplaceAll(s: string, pat: string, rep: string): string
    requires 0 < |pat|
    decreases |s|
  {
    if |s| < |pat| then s
    else if s[..|pat|] == pat then rep + ReplaceAll(s[|pat|..], pat, rep)
    else [s[0]] + ReplaceAll(s[1..], pat, rep)
  }

  /** A pattern whose first character never appears in `s` does not occur in it. */
  lemma {:induction false} AbsentFirstChar(pat: string, s: string)
    requires 0 < |pat| && pat[0] !in s
    ensures !Occurs(pat, s)
    decreases |s|
  {
    if |pat| <= |s| {
      assert s[..|pat|] != pat by { assert s[0] in s; }
      if 0 < |s| {
        assert forall c :: c in s[1..] ==> c in s;
        AbsentFirstChar(pat, s[1..]);
      }
    }
  }

  /** Replacing a pattern that does not occur changes nothing. */
  lemma {:induction false} ReplaceAbsent(s: string, pat: string, rep: string)
    requires 0 < |pat| && !Occurs(pat, s)
    ensures ReplaceAll(s, pat, rep) == s
    decreases |s|
  {
    if |pat| <= |s| {
      ReplaceAbsent(s[1..], pat, rep);
      assert [s[0]] + s[1..] == s;
    }
  }

  /** Replacing one character by another rewrites exactly the positions that held it. */
  lemma {:induction false} ReplaceChar(s: string, a: char, b: char)
    ensures |ReplaceAll(s, [a], [b])| == |s|
    ensures forall k :: 0 <= k < |s| ==> ReplaceAll(s, [a], [b])[k] == if s[k] == a then b else s[k]
    decreases |s|
  {
    if s != [] {
      ReplaceChar(s[1..], a, b);
    }
  }

  // ---------------------------------------------------------------------------
  // Python's int() applied to a string

  /** The digits of an int literal body: digits with single underscores between them. */
  predicate IsIntBody(b: string) {
    && 0 < |b|
    && IsDigit(b[0]) && IsDigit(b[|b| - 1])
    && (forall k :: 0 <= k < |b| ==> IsDigit(b[k]) || b[k] == '_')
    && (forall k :: 0 <= k < |b| - 1 ==> !(b[k] == '_' && b[k + 1] == '_'))
  }

  function DropUnderscores(b: string): (r: string)
    requires forall k :: 0 <= k < |b| ==> IsDigit(b[k]) || b[k] == '_'
    ensures AllDigits(r)
    ensures AllDigits(b) ==> r == b
    decreases |b|
  {
    if b == [] then []
    else if b[0] == '_' then DropUnderscores(b[1..])
    else [b[0]] + DropUnderscores(b[1..])
  }

  /** Python's `int(s)` for a string `s` in base 10: surrounding whitespace is
      ignored, an optional sign is allowed, and the digits may be grouped by single
      underscores. None where Python raises ValueError. */
  function ParseInt(s: string): Option<int> {
    var t := Strip(s);
    if t == [] then None
    else
      var negative := t[0] == '-';
      var body := if t[0] == '-' || t[0] == '+' then t[1..] else t;
      if !IsIntBody(body) then None
      else
        var magnitude: int := DigitsValue(DropUnderscores(body));
        Some(if negative then -magnitude else magnitude)
  }

  /** `int(str(i)) == i`: the decimal rendering of an int reads back as that int. */
  lemma ParseIntToString(i: int)
    ensures ParseInt(IntToString(i)) == Some(i)
  {
    var s := IntToString(i);
    var d := if i < 0 then Decimal(-i) else Decimal(i);
    assert !IsSpace(s[0]) && !IsSpace(s[|s| - 1]);
    StripUnpadded(s);
    if i < 0 {
      assert s[1..] == d;
    }
  }

  // ---------------------------------------------------------------------------
  // Hexadecimal

  predicate IsHexDigit(c: char) {
    IsDigit(c) || 'a' <= c <= 'f'
  }

  function HexDigit(n: nat): (c: char)
    requires n < 16
    ensures IsHexDigit(c)
  {
    if n < 10 then DigitChar(n) else ('a' as int + n - 10) as char
  }

  function HexDigitValue(c: char): nat
    requires IsHexDigit(c)
  {
    if IsDigit(c) then DigitValue(c) else (c as int) - ('a' as int) + 10
  }

  function Pow16(w: nat): nat {
    if w == 0 then 1 else 16 * Pow16(w - 1)
  }

  /** The value of a run of lower-case hexadecimal digits, most significant first. */
  function HexValue(s: string): nat
    requires forall k :: 0 <= k < |s| ==> IsHexDigit(s[k])
    decreases |s|
  {
    if s == [] then 0 else HexValue(s[..|s| - 1]) * 16 + HexDigitValue(s[|s| - 1])
  }

  /** Python's `'%0<width>x' % n` for an `n` that fits in `width` digits: exactly
      `width` lower-case hexadecimal digits that read back as `n`. */
  function Hex(n: nat, width: nat): (r: string)
    requires n < Pow16(width)
    ensures |r| == width
    ensures forall k :: 0 <= k < |r| ==> IsHexDigit(r[k])
    ensures HexValue(r) == n
    decreases width
  {
    if width == 0 then ""
    else
      var r := Hex(n / 16, width - 1) + [HexDigit(n % 16)];
      assert r[..|r| - 1] == Hex(n / 16, width - 1);
      r
  }
}
