/** The Python string operations the modelled code relies on: `str()` of an
    integer, `int()` of a string, `str.split(sep)`, `sep.join`, `str.split()`
    on whitespace, `str.strip()`, `str.replace` of one character and the `in`
    test for a substring. Strings are sequences of characters. Whitespace is
    Python's full set; digits are the ASCII ones only. */
module Text {
  import opened Results

  predicate IsDigit(c: char) {
    '0' <= c <= '9'
  }

  predicate AllDigits(s: string) {
    forall i :: 0 <= i < |s| ==> IsDigit(s[i])
  }

  /** Python's whitespace (`str.isspace()`, which `strip`, `split()` and
      `int()` all use): tab, line feed, vertical tab, form feed, carriage
      return, the four separator controls and the space, then NEL, no-break
      space, the Ogham space mark, the en quad to hair spaces, the line and
      paragraph separators, the narrow no-break and medium mathematical
      spaces and the ideographic space. */
  predicate IsSpace(c: char) {
    var k := c as int;
    || (9 <= k <= 13) || (28 <= k <= 32)
    || k == 0x85 || k == 0xA0 || k == 0x1680
    || (0x2000 <= k <= 0x200A) || k == 0x2028 || k == 0x2029
    || k == 0x202F || k == 0x205F || k == 0x3000
  }

  predicate NoSpace(s: string) {
    forall i :: 0 <= i < |s| ==> !IsSpace(s[i])
  }

  function DigitChar(d: nat): (c: char)
    requires d < 10
    ensures IsDigit(c)
  {
    (48 + d) as char
  }

  function DigitValue(c: char): (d: nat)
    requires IsDigit(c)
    ensures d < 10 && DigitChar(d) == c
  {
    c as int - 48
  }

  // ---------------------------------------------------------------------------
  // str(n) and int(s)
  // ---------------------------------------------------------------------------

  /** `str(n)` for a non-negative integer: decimal digits without leading zeros. */
  function NatToString(n: nat): (s: string)
    ensures |s| >= 1 && AllDigits(s)
    ensures |s| > 1 ==> s[0] != '0'
  {
    if n < 10 then [DigitChar(n)] else NatToString(n / 10) + [DigitChar(n % 10)]
  }

  /** `str(n)` for any integer. */
  function IntToString(n: int): (s: string)
    ensures |s| >= 1
    ensures forall i :: 0 <= i < |s| ==> IsDigit(s[i]) || s[i] == '-'
    ensures IsDigit(s[|s| - 1])
    ensures n >= 0 ==> AllDigits(s)
  {
    if n < 0 then "-" + NatToString(-n) else NatToString(n)
  }

  /** The number a string of decimal digits denotes. */
  function DigitsValue(s: string): nat
    requires AllDigits(s)
  {
    if |s| == 0 then 0 else DigitsValue(s[..|s| - 1]) * 10 + DigitValue(s[|s| - 1])
  }

  /** Reading the digits of `str(n)` back gives `n`. */
  lemma {:induction false} DigitsOfNatToString(n: nat)
    ensures DigitsValue(NatToString(n)) == n
  {
    if n >= 10 {
      var s := NatToString(n);
      assert s[..|s| - 1] == NatToString(n / 10);
      DigitsOfNatToString(n / 10);
    }
  }

  function StripLeft(s: string): (t: string)
    ensures |t| <= |s| && t == s[|s| - |t|..]
    ensures |t| > 0 ==> !IsSpace(t[0])
    ensures forall i :: 0 <= i < |s| - |t| ==> IsSpace(s[i])
  {
    if |s| > 0 && IsSpace(s[0]) then StripLeft(s[1..]) else s
  }

  function StripRight(s: string): (t: string)
    ensures |t| <= |s| && t == s[..|t|]
    ensures |t| > 0 ==> !IsSpace(t[|t| - 1])
    ensures forall i :: |t| <= i < |s| ==> IsSpace(s[i])
  {
    if |s| > 0 && IsSpace(s[|s| - 1]) then StripRight(s[..|s| - 1]) else s
  }

  /** `str.strip()`. */
  function Strip(s: string): string {
    StripRight(StripLeft(s))
  }

  /** `s.strip() == ''`: the line holds only whitespace. */
  lemma StripEmptyIffBlank(s: string)
    ensures Strip(s) == "" <==> forall i :: 0 <= i < |s| ==> IsSpace(s[i])
  {
  }

  /** A decimal literal as `int()` accepts it once surrounding whitespace is
      stripped: an optional sign followed by at least one digit. */
  predicate IsIntLiteral(t: string) {
    || (|t| > 0 && AllDigits(t))
    || (|t| > 1 && (t[0] == '+' || t[0] == '-') && AllDigits(t[1..]))
  }

  /** Python's `int(s)` on a string: whitespace around the literal is ignored,
      anything else that is not a signed decimal literal raises ValueError. */
  function ParseInt(s: string): (r: Result<int>)
    ensures r.Ok? <==> IsIntLiteral(Strip(s))
    ensures r.Err? ==> r.error.ValueError?
  {
    ParseLiteral(Strip(s))
  }

  /** `int()` on text that has already been stripped. */
  function ParseLiteral(t: string): (r: Result<int>)
    ensures r.Ok? <==> IsIntLiteral(t)
    ensures r.Err? ==> r.error.ValueError?
  {
    if |t| > 1 && (t[0] == '+' || t[0] == '-') && AllDigits(t[1..]) then
      var magnitude: int := DigitsValue(t[1..]);
      Ok(if t[0] == '-' then -magnitude else magnitude)
    else if |t| > 0 && AllDigits(t) then
      Ok(DigitsValue(t))
    else
      Err(ValueError("invalid literal for int() with base 10"))
  }

  /** `int(str(n)) == n` for every integer. */
  lemma ParseIntOfIntToString(n: int)
    ensures ParseInt(IntToString(n)) == Ok(n)
  {
    if n < 0 {
      ParseIntOfNegativeString(n);
    } else {
      ParseIntOfNatString(n);
    }
  }

  lemma ParseIntOfNegativeString(n: int)
    requires n < 0
    ensures ParseInt(IntToString(n)) == Ok(n)
  {
    var d := NatToString(-n);
    DigitsOfNatToString(-n);
    ParseIntOfNegative(IntToString(n), d, n);
  }

  lemma ParseIntOfNatString(n: nat)
    ensures ParseInt(IntToString(n)) == Ok(n)
  {
    var d := NatToString(n);
    DigitsOfNatToString(n);
    ParseIntOfDigits(d);
  }

  /** A plain run of digits parses to the number it denotes. */
  lemma ParseIntOfDigits(d: string)
    requires |d| > 0 && AllDigits(d)
    ensures ParseInt(d) == Ok(DigitsValue(d))
  {
    StripUnpadded(d);
    LiteralOfDigits(d);
  }

  lemma LiteralOfDigits(d: string)
    requires |d| > 0 && AllDigits(d)
    ensures ParseLiteral(d) == Ok(DigitsValue(d))
  {
    assert !(d[0] == '+' || d[0] == '-');
  }

  /** A minus sign followed by digits parses to the negated number. */
  lemma ParseIntOfNegative(s: string, d: string, n: int)
    requires |d| > 0 && AllDigits(d) && s == "-" + d && DigitsValue(d) == -n
    ensures ParseInt(s) == Ok(n)
  {
    StripUnpadded(s);
    LiteralOfNegative(d);
  }

  lemma LiteralOfNegative(d: string)
    requires |d| > 0 && AllDigits(d)
    ensures ParseLiteral("-" + d) == Ok(0 - DigitsValue(d) as int)
  {
    assert ("-" + d)[1..] == d;
  }

  /** A string that starts and ends with a non-space character strips to itself. */
  lemma StripUnpadded(s: string)
    requires |s| > 0 && !IsSpace(s[0]) && !IsSpace(s[|s| - 1])
    ensures Strip(s) == s
  {
  }

  /** Distinct integers have distinct decimal strings. */
  lemma IntToStringInjective(a: int, b: int)
    ensures IntToString(a) == IntToString(b) <==> a == b
  {
    if IntToString(a) == IntToString(b) {
      ParseIntOfIntToString(a);
      ParseIntOfIntToString(b);
    }
  }

  // ---------------------------------------------------------------------------
  // str.split(sep) and sep.join(parts)
  // ---------------------------------------------------------------------------

  /** `s.split(c)` for a one-character separator: always at least one part, and
      no part contains the separator. */
  function Split(s: string, c: char): (parts: seq<string>)
    ensures |parts| >= 1
    ensures forall i :: 0 <= i < |parts| ==> c !in parts[i]
  {
    if |s| == 0 then [""]
    else
      var rest := Split(s[1..], c);
      if s[0] == c then [""] + rest
      else [[s[0]] + rest[0]] + rest[1..]
  }

  /** `c.join(parts)`. */
  function Join(parts: seq<string>, c: char): string
    requires |parts| >= 1
  {
    if |parts| == 1 then parts[0] else parts[0] + [c] + Join(parts[1..], c)
  }

  /** Joining the parts of a split gives back the original string. */
  lemma {:induction false} JoinSplit(s: string, c: char)
    ensures Join(Split(s, c), c) == s
  {
    if |s| > 0 {
      var rest := Split(s[1..], c);
      JoinSplit(s[1..], c);
      if s[0] != c && |rest| > 1 {
        var parts := [[s[0]] + rest[0]] + rest[1..];
        assert parts[1..] == rest[1..];
        assert Join(rest, c) == rest[0] + [c] + Join(rest[1..], c);
      }
    }
  }

  /** A string without the separator splits into itself. */
  lemma {:induction false} SplitNoSeparator(s: string, c: char)
    requires c !in s
    ensures Split(s, c) == [s]
  {
    if |s| > 0 {
      SplitNoSeparator(s[1..], c);
      assert [s[0]] + s[1..] == s;
    }
  }

  /** A separator occurrence splits the parts of the two sides apart. */
  lemma {:induction false} SplitAround(a: string, b: string, c: char)
    ensures Split(a + [c] + b, c) == Split(a, c) + Split(b, c)
  {
    if |a| == 0 {
      assert a + [c] + b == [c] + b;
      assert ([c] + b)[1..] == b;
    } else {
      var s := a + [c] + b;
      assert s[1..] == a[1..] + [c] + b;
      SplitAround(a[1..], b, c);
    }
  }

  /** A split has more than one part exactly when the separator occurs. */
  lemma SplitCount(s: string, c: char)
    ensures |Split(s, c)| >= 2 <==> c in s
  {
    if c in s {
      var i :| 0 <= i < |s| && s[i] == c;
      assert s == s[..i] + [c] + s[i + 1..];
      SplitAround(s[..i], s[i + 1..], c);
    } else {
      SplitNoSeparator(s, c);
    }
  }

  /** Splitting a join of separator-free parts gives back the parts. */
  lemma {:induction false} SplitJoin(parts: seq<string>, c: char)
    requires |parts| >= 1
    requires forall i :: 0 <= i < |parts| ==> c !in parts[i]
    ensures Split(Join(parts, c), c) == parts
  {
    if |parts| == 1 {
      SplitNoSeparator(parts[0], c);
    } else {
      SplitJoin(parts[1..], c);
      SplitAround(parts[0], Join(parts[1..], c), c);
      SplitNoSeparator(parts[0], c);
      assert [parts[0]] + parts[1..] == parts;
    }
  }

  /** `s.split(c)[-1]`: the text after the last separator. */
  function LastSegment(s: string, c: char): (seg: string)
    ensures c !in seg
  {
    var parts := Split(s, c);
    parts[|parts| - 1]
  }

  /** The last segment is exactly what follows the last separator. */
  lemma LastSegmentAfter(a: string, b: string, c: char)
    requires c !in b
    ensures LastSegment(a + [c] + b, c) == b
  {
    SplitAround(a, b, c);
    SplitNoSeparator(b, c);
  }

  /** A string without the separator is its own last segment. */
  lemma LastSegmentNoSeparator(s: string, c: char)
    requires c !in s
    ensures LastSegment(s, c) == s
  {
    SplitNoSeparator(s, c);
  }

  // ---------------------------------------------------------------------------
  // str.replace(a, b) for single characters
  // ---------------------------------------------------------------------------

  function Replace(s: string, a: char, b: char): (r: string)
    ensures |r| == |s|
    ensures a != b ==> a !in r
    ensures forall i :: 0 <= i < |s| ==> r[i] == (if s[i] == a then b else s[i])
  {
    seq(|s|, i requires 0 <= i < |s| => if s[i] == a then b else s[i])
  }

  lemma ReplaceConcat(x: string, y: string, a: char, b: char)
    ensures Replace(x + y, a, b) == Replace(x, a, b) + Replace(y, a, b)
  {
  }

  lemma ReplaceAbsent(s: string, a: char, b: char)
    requires a !in s
    ensures Replace(s, a, b) == s
  {
  }

  // ---------------------------------------------------------------------------
  // str.split() on runs of whitespace
  // ---------------------------------------------------------------------------

  /** The longest whitespace-free prefix. */
  function TakeWord(s: string): (w: string)
    ensures |w| <= |s| && w == s[..|w|]
    ensures NoSpace(w)
    ensures |w| < |s| ==> IsSpace(s[|w|])
  {
    if |s| == 0 || IsSpace(s[0]) then "" else [s[0]] + TakeWord(s[1..])
  }

  /** `s.split()`: the maximal whitespace-free runs, in order. */
  function Words(s: string): (ws: seq<string>)
    ensures forall i :: 0 <= i < |ws| ==> |ws[i]| > 0 && NoSpace(ws[i])
    decreases |s|
  {
    var t := StripLeft(s);
    if |t| == 0 then []
    else
      var w := TakeWord(t);
      TakeWordNonEmpty(t);
      var rest := Words(t[|w|..]);
      WordsPrepend(w, rest);
      [w] + rest
  }

  lemma WordsPrepend(w: string, rest: seq<string>)
    requires |w| > 0 && NoSpace(w)
    requires forall i :: 0 <= i < |rest| ==> |rest[i]| > 0 && NoSpace(rest[i])
    ensures forall i :: 0 <= i < |[w] + rest| ==> |([w] + rest)[i]| > 0 && NoSpace(([w] + rest)[i])
  {
    forall i | 0 <= i < |[w] + rest| ensures |([w] + rest)[i]| > 0 && NoSpace(([w] + rest)[i]) {
      if i > 0 {
        assert ([w] + rest)[i] == rest[i - 1];
      }
    }
  }

  lemma TakeWordNonEmpty(s: string)
    requires |s| > 0 && !IsSpace(s[0])
    ensures |TakeWord(s)| > 0
  {
  }

  lemma {:induction false} TakeWordOf(a: string, b: string)
    requires NoSpace(a)
    requires |b| == 0 || IsSpace(b[0])
    ensures TakeWord(a + b) == a
  {
    if |a| == 0 {
      assert a + b == b;
    } else {
      assert (a + b)[1..] == a[1..] + b;
      TakeWordOf(a[1..], b);
    }
  }

  /** A word followed by whitespace (or nothing) is the first word. */
  lemma WordsCons(a: string, b: string)
    requires |a| > 0 && NoSpace(a)
    requires |b| == 0 || IsSpace(b[0])
    ensures Words(a + b) == [a] + Words(b)
  {
    TakeWordOf(a, b);
    assert (a + b)[|a|..] == b;
  }

  /** Leading whitespace does not change the words. */
  lemma WordsSkipSpace(b: string)
    requires |b| > 0 && IsSpace(b[0])
    ensures Words(b) == Words(b[1..])
  {
  }

  /** A word followed by whitespace is the first word; the rest are the
      words after that whitespace character. */
  lemma WordsAfterWord(first: string, rest: string)
    requires |first| > 0 && NoSpace(first) && |rest| > 0 && IsSpace(rest[0])
    ensures Words(first + rest) == [first] + Words(rest[1..])
  {
    WordsCons(first, rest);
    WordsSkipSpace(rest);
  }

  lemma FirstWord(word: string, tail: string)
    requires |word| > 0 && NoSpace(word)
    requires |tail| == 0 || IsSpace(tail[0])
    ensures |Words(word + tail)| >= 1 && Words(word + tail)[0] == word
  {
    WordsCons(word, tail);
  }

  lemma WordsAfterSpace(line: string, first: string, more: string)
    requires |first| > 0 && NoSpace(first)
    requires line == first + [' '] + more
    ensures Words(line) == [first] + Words(more)
  {
    var rest := [' '] + more;
    assert line == first + rest;
    WordsAfterWord(first, rest);
    assert rest[1..] == more;
  }

  /** `(first + ' ' + word + tail).split()[1] == word`. */
  lemma SecondWord(line: string, first: string, word: string, tail: string)
    requires |first| > 0 && NoSpace(first) && |word| > 0 && NoSpace(word)
    requires |tail| == 0 || IsSpace(tail[0])
    requires line == first + [' '] + word + tail
    ensures |Words(line)| >= 2 && Words(line)[1] == word
  {
    var more := word + tail;
    assert line == first + [' '] + more;
    WordsAfterSpace(line, first, more);
    FirstWord(word, tail);
    var rest := Words(more);
    assert Words(line) == [first] + rest;
    assert ([first] + rest)[1] == rest[0];
  }

  // ---------------------------------------------------------------------------
  // reading a string back at a separator
  // ---------------------------------------------------------------------------

  /** The position of the first `c` in `s`, or `|s|` when there is none. */
  function IndexOf(s: string, c: char): (i: nat)
    ensures i <= |s|
    ensures i < |s| ==> s[i] == c
    ensures forall j :: 0 <= j < i ==> s[j] != c
  {
    if |s| == 0 || s[0] == c then 0 else 1 + IndexOf(s[1..], c)
  }

  /** A separator-free head is found again at the first separator. */
  lemma IndexOfAfter(a: string, x: string, c: char)
    requires c !in a
    ensures IndexOf(a + [c] + x, c) == |a|
  {
    var s := a + [c] + x;
    assert s[|a|] == c;
    assert forall j :: 0 <= j < |a| ==> s[j] == a[j];
  }

  /** Two strings that agree and have separator-free heads agree in their
      heads and in what follows the separator. */
  lemma SeparatedParts(a: string, x: string, b: string, y: string, c: char)
    requires c !in a && c !in b
    requires a + [c] + x == b + [c] + y
    ensures a == b && x == y
  {
    IndexOfAfter(a, x, c);
    IndexOfAfter(b, y, c);
    assert a == (a + [c] + x)[..|a|];
    assert b == (b + [c] + y)[..|b|];
    assert x == (a + [c] + x)[|a| + 1..];
    assert y == (b + [c] + y)[|b| + 1..];
  }

  // ---------------------------------------------------------------------------
  // the `in` test for substrings
  // ---------------------------------------------------------------------------

  predicate OccursAt(text: string, pat: string, i: int) {
    0 <= i <= |text| - |pat| && text[i..i + |pat|] == pat
  }

  predicate Contains(text: string, pat: string) {
    exists i | 0 <= i <= |text| :: OccursAt(text, pat, i)
  }
}
