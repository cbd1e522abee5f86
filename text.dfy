/** Bytes and the small pieces of text handling both sides of the serial link rely on:
    decimal integer text (Python's `str(int)` / `int(str)`, Arduino's `Serial.print(int)`),
    Python's `str.split`, and substring search (`str.find(...) != -1`). */
module Text {
  import opened Wrappers

  /** One byte on the serial line. */
  type Byte = b: int | 0 <= b < 256

  predicate IsDigit(c: char) {
    '0' <= c <= '9'
  }

  predicate AllDigits(s: string) {
    forall i :: 0 <= i < |s| ==> IsDigit(s[i])
  }

  function DigitChar(d: int): (c: char)
    requires 0 <= d < 10
    ensures IsDigit(c) && c as int - '0' as int == d
  {
    ('0' as int + d) as char
  }

  /** Decimal digits of a natural number, most significant first, without leading zeros. */
  function DigitsText(n: nat): (s: string)
    ensures |s| >= 1 && AllDigits(s)
    decreases n
  {
    if n < 10 then [DigitChar(n)] else DigitsText(n / 10) + [DigitChar(n % 10)]
  }

  /** The decimal text of an integer as Python's `str` and Arduino's `Serial.print` write it. */
  function IntText(n: int): (s: string)
    ensures |s| >= 1
    ensures forall i :: 0 <= i < |s| ==> IsDigit(s[i]) || (i == 0 && s[i] == '-')
  {
    if n < 0 then "-" + DigitsText(-n) else DigitsText(n)
  }

  /** The value of a digit; the other characters count as nothing. */
  function DigitOf(c: char): nat {
    if IsDigit(c) then c as int - '0' as int else 0
  }

  /** The value of a numeral: its digits read in base ten, underscores skipped. */
  function DigitsValue(s: string): nat {
    if s == [] then 0
    else if s[|s| - 1] == '_' then DigitsValue(s[..|s| - 1])
    else DigitsValue(s[..|s| - 1]) * 10 + DigitOf(s[|s| - 1])
  }

  /** The ASCII characters `int(text)` ignores around the number (C's `isspace`): tab, line
      feed, vertical tab, form feed, carriage return and the space. */
  predicate IsSpace(c: char) {
    '\t' <= c <= '\r' || c == ' '
  }

  predicate AllSpace(s: string) {
    forall i :: 0 <= i < |s| ==> IsSpace(s[i])
  }

  function StripLeft(s: string): string {
    if s != [] && IsSpace(s[0]) then StripLeft(s[1..]) else s
  }

  function StripRight(s: string): string {
    if s != [] && IsSpace(s[|s| - 1]) then StripRight(s[..|s| - 1]) else s
  }

  /** `s.strip()`. */
  function Strip(s: string): string {
    StripRight(StripLeft(s))
  }

  /** Decimal digits with single underscores between them, as `int` reads them: `1_000` is a
      numeral, `_1`, `1_` and `1__0` are not. */
  predicate Numeral(s: string)
    decreases |s|
  {
    |s| >= 1 && IsDigit(s[0]) && (|s| == 1 || if s[1] == '_' then Numeral(s[2..]) else Numeral(s[1..]))
  }

  /** Python's `int(text)` on ASCII text: white space around the number is ignored, then an
      optional sign and a numeral; `None` stands for the `ValueError` it raises on anything
      else. */
  function ParseInt(s: string): (r: Option<int>)
    ensures r.Some? && r.value < 0 ==> Strip(s) != [] && Strip(s)[0] == '-'
    ensures AllSpace(s) ==> r.None?
  {
    BlankStrips(s);
    var t := Strip(s);
    if |t| >= 2 && t[0] == '-' && Numeral(t[1..]) then Some(0 - DigitsValue(t[1..]))
    else if |t| >= 2 && t[0] == '+' && Numeral(t[1..]) then Some(DigitsValue(t[1..]))
    else if Numeral(t) then Some(DigitsValue(t))
    else None
  }

  lemma {:induction false} DigitsRoundTrip(n: nat)
    ensures DigitsValue(DigitsText(n)) == n
    decreases n
  {
    if n >= 10 {
      DigitsRoundTrip(n / 10);
      var s := DigitsText(n);
      assert s[..|s| - 1] == DigitsText(n / 10);
      assert IsDigit(s[|s| - 1]);
    }
  }

  lemma {:induction false} DigitsNumeral(s: string)
    requires |s| >= 1 && AllDigits(s)
    ensures Numeral(s)
  {
    if |s| >= 2 {
      DigitsNumeral(s[1..]);
    }
  }

  /** Nothing is left of a blank text. */
  lemma BlankStrips(s: string)
    ensures AllSpace(s) ==> Strip(s) == []
  {
    if AllSpace(s) {
      StripLeftSpaces(s, []);
      assert s + [] == s;
    }
  }

  /** A text that neither starts nor ends with white space is its own `strip()`. */
  lemma Unpadded(s: string)
    requires s != [] && !IsSpace(s[0]) && !IsSpace(s[|s| - 1])
    ensures Strip(s) == s
  {
  }

  lemma {:induction false} NumeralEnds(s: string)
    requires Numeral(s)
    ensures IsDigit(s[|s| - 1])
    decreases |s|
  {
    if |s| >= 2 {
      if s[1] == '_' {
        NumeralEnds(s[2..]);
      } else {
        NumeralEnds(s[1..]);
      }
    }
  }

  /** A numeral is read as its value. */
  lemma ParseNumeral(s: string)
    requires Numeral(s)
    ensures ParseInt(s) == Some(DigitsValue(s))
  {
    NumeralEnds(s);
    Unpadded(s);
  }

  /** A minus sign and a numeral are read as the negated value. */
  lemma ParseNegative(d: string)
    requires Numeral(d)
    ensures ParseInt("-" + d) == Some(0 - DigitsValue(d))
  {
    var s := "-" + d;
    NumeralEnds(d);
    assert s[1..] == d && s[|s| - 1] == d[|d| - 1];
    Unpadded(s);
  }

  /** Reading back the decimal text of any integer gives that integer. */
  lemma ParseIntRoundTrip(n: int)
    ensures ParseInt(IntText(n)) == Some(n)
  {
    if n < 0 {
      ParseMinusDigits(-n);
    } else {
      ParseDigits(n);
    }
  }

  lemma ParseDigits(k: nat)
    ensures ParseInt(DigitsText(k)) == Some(k)
  {
    DigitsNumeral(DigitsText(k));
    DigitsRoundTrip(k);
    ParseNumeral(DigitsText(k));
  }

  lemma ParseMinusDigits(k: nat)
    ensures ParseInt("-" + DigitsText(k)) == Some(0 - k)
  {
    DigitsNumeral(DigitsText(k));
    DigitsRoundTrip(k);
    ParseNegative(DigitsText(k));
  }

  lemma {:induction false} StripLeftSpaces(a: string, x: string)
    requires AllSpace(a)
    ensures StripLeft(a + x) == StripLeft(x)
  {
    if a == [] {
      assert a + x == x;
    } else {
      assert (a + x)[0] == a[0] && (a + x)[1..] == a[1..] + x;
      StripLeftSpaces(a[1..], x);
    }
  }

  lemma {:induction false} StripRightSpaces(x: string, b: string)
    requires AllSpace(b)
    ensures StripRight(x + b) == StripRight(x)
    decreases |b|
  {
    if b == [] {
      assert x + b == x;
    } else {
      var c := x + b;
      assert c[|c| - 1] == b[|b| - 1];
      assert c[..|c| - 1] == x + b[..|b| - 1];
      StripRightSpaces(x, b[..|b| - 1]);
    }
  }

  lemma {:induction false} StripLeftBefore(s: string, b: string)
    requires AllSpace(b)
    ensures StripLeft(s) == [] ==> StripLeft(s + b) == []
    ensures StripLeft(s) != [] ==> StripLeft(s + b) == StripLeft(s) + b
  {
    if s == [] {
      StripLeftSpaces(b, []);
      assert s + b == b + [] == b;
    } else if IsSpace(s[0]) {
      assert (s + b)[0] == s[0] && (s + b)[1..] == s[1..] + b;
      StripLeftBefore(s[1..], b);
    } else {
      assert (s + b)[0] == s[0];
    }
  }

  /** White space around a field does not change what `int` reads from it. */
  lemma ParseIntIgnoresSpace(a: string, s: string, b: string)
    requires AllSpace(a) && AllSpace(b)
    ensures ParseInt(a + s + b) == ParseInt(s)
  {
    assert a + s + b == a + (s + b);
    StripLeftSpaces(a, s + b);
    StripLeftBefore(s, b);
    if StripLeft(s) != [] {
      StripRightSpaces(StripLeft(s), b);
    }
  }

  lemma {:induction false} GroupedNumeral(x: string, y: string)
    requires |x| >= 1 && AllDigits(x) && |y| >= 1 && AllDigits(y)
    ensures Numeral(x + "_" + y)
  {
    var s := x + "_" + y;
    if |x| == 1 {
      assert s[1] == '_' && s[2..] == y;
      DigitsNumeral(y);
    } else {
      assert s[1] == x[1] && s[1..] == x[1..] + "_" + y;
      GroupedNumeral(x[1..], y);
    }
  }

  lemma {:induction false} UnderscoreSkipped(x: string, y: string)
    ensures DigitsValue(x + "_" + y) == DigitsValue(x + y)
    decreases |y|
  {
    var s, t := x + "_" + y, x + y;
    if y == [] {
      assert s[..|s| - 1] == x && t == x;
    } else {
      assert s[|s| - 1] == y[|y| - 1] == t[|t| - 1];
      assert s[..|s| - 1] == x + "_" + y[..|y| - 1];
      assert t[..|t| - 1] == x + y[..|y| - 1];
      UnderscoreSkipped(x, y[..|y| - 1]);
    }
  }

  /** The information separators 28 to 31 are not space to `int`: `int("\x1c1")` fails. */
  lemma SeparatorNotSpace()
    ensures ParseInt([28 as char, '1']).None?
  {
    assert Strip([28 as char, '1']) == [28 as char, '1'];
  }

  /** An underscore between two groups of digits is skipped: `int("1_000") == 1000`. */
  lemma ParseIntGrouped(x: string, y: string)
    requires |x| >= 1 && AllDigits(x) && |y| >= 1 && AllDigits(y)
    ensures ParseInt(x + "_" + y) == ParseInt(x + y) == Some(DigitsValue(x + y))
  {
    var t := x + y;
    GroupedNumeral(x, y);
    ParseNumeral(x + "_" + y);
    assert AllDigits(t) by {
      forall i | 0 <= i < |t| ensures IsDigit(t[i]) {
        if i >= |x| {
          assert t[i] == y[i - |x|];
        }
      }
    }
    DigitsNumeral(t);
    ParseNumeral(t);
    UnderscoreSkipped(x, y);
  }

  /** Python's `s.split(sep)` for a one-character separator: always at least one field. */
  function Split(s: string, sep: char): (r: seq<string>)
    ensures |r| >= 1
  {
    if s == [] then [[]]
    else if s[0] == sep then [[]] + Split(s[1..], sep)
    else
      var tail := Split(s[1..], sep);
      [[s[0]] + tail[0]] + tail[1..]
  }

  /** `sep.join(parts)`. */
  function Join(parts: seq<string>, sep: char): string
    requires |parts| >= 1
  {
    if |parts| == 1 then parts[0] else parts[0] + [sep] + Join(parts[1..], sep)
  }

  lemma {:induction false} SplitField(a: string, sep: char, rest: string)
    requires sep !in a
    ensures Split(a + [sep] + rest, sep) == [a] + Split(rest, sep)
    ensures Split(a, sep) == [a]
  {
    if a != [] {
      SplitField(a[1..], sep, rest);
      assert a[0] != sep;
      assert (a + [sep] + rest)[1..] == a[1..] + [sep] + rest;
      assert [a[0]] + a[1..] == a;
    }
  }

  /** Splitting a joined list gives the list back when no part holds the separator. */
  lemma {:induction false} SplitJoin(parts: seq<string>, sep: char)
    requires |parts| >= 1
    requires forall i :: 0 <= i < |parts| ==> sep !in parts[i]
    ensures Split(Join(parts, sep), sep) == parts
  {
    if |parts| == 1 {
      SplitField(parts[0], sep, []);
    } else {
      SplitJoin(parts[1..], sep);
      SplitField(parts[0], sep, Join(parts[1..], sep));
    }
  }

  /** `s.find(t) != -1`: `t` occurs somewhere in `s`. */
  predicate Contains(s: string, t: string) {
    t <= s || (s != [] && Contains(s[1..], t))
  }

  /** A witness position for `Contains`. */
  lemma {:induction false} ContainsAt(s: string, t: string, i: nat)
    requires i + |t| <= |s| && s[i..i + |t|] == t
    ensures Contains(s, t)
    decreases i
  {
    if i > 0 {
      ContainsAt(s[1..], t, i - 1);
      assert s[1..][i - 1..i - 1 + |t|] == s[i..i + |t|];
    }
  }

  /** A string that does not hold the first character of `t` does not contain `t`. */
  lemma {:induction false} NotContainsWithoutFirst(s: string, t: string)
    requires |t| >= 1 && t[0] !in s
    ensures !Contains(s, t)
  {
    if s != [] {
      NotContainsWithoutFirst(s[1..], t);
    }
  }
}
