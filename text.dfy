/** The Python string operations the pipeline relies on, over `string`
    (a sequence of Unicode scalar values, which is what Python's `str` indexes).
    Each function says which Python builtin it stands for. */
module Text {
  import opened Wrappers

  // ---------------------------------------------------------------------------
  // Character classes
  // ---------------------------------------------------------------------------

  /** `str.isspace()` on one character: the characters Python strips by default. */
  predicate IsSpace(c: char) {
    || c == ' '
    || '\t' <= c <= '\r'
    || '\U{1c}' <= c <= '\U{1f}'
    || c == '\U{85}' || c == '\U{a0}' || c == '\U{1680}'
    || '\U{2000}' <= c <= '\U{200a}'
    || c == '\U{2028}' || c == '\U{2029}' || c == '\U{202f}' || c == '\U{205f}'
    || c == '\U{3000}'
  }

  /** `str.isupper()` on one character, for the capital letters of the Latin
      (ASCII, Latin-1, Latin Extended-A), Greek, Cyrillic (with Cyrillic
      Supplement) and full-width Latin blocks; letters of other scripts are
      not upper case here. */
  predicate IsUpper(c: char) {
    || IsUpperLatin(c)
    || IsUpperGreek(c)
    || IsUpperCyrillic(c)
    || '\U{ff21}' <= c <= '\U{ff3a}'
  }

  predicate Even(c: char) {
    c as int % 2 == 0
  }

  /** A-Z, the Latin-1 capitals, and the capitals of Latin Extended-A, where
      capital and small letters alternate. */
  predicate IsUpperLatin(c: char) {
    || 'A' <= c <= 'Z'
    || ('\U{c0}' <= c <= '\U{de}' && c != '\U{d7}')
    || ('\U{100}' <= c <= '\U{137}' && Even(c))
    || ('\U{139}' <= c <= '\U{148}' && !Even(c))
    || ('\U{14a}' <= c <= '\U{177}' && Even(c))
    || c == '\U{178}'
    || ('\U{179}' <= c <= '\U{17e}' && !Even(c))
  }

  /** The Greek capitals, with and without tonos or dialytika. */
  predicate IsUpperGreek(c: char) {
    || c == '\U{386}'
    || '\U{388}' <= c <= '\U{38a}'
    || c == '\U{38c}'
    || '\U{38e}' <= c <= '\U{38f}'
    || ('\U{391}' <= c <= '\U{3ab}' && c != '\U{3a2}')
  }

  /** The Cyrillic capitals: U+0400 to U+042F, then the alternating capital
      and small letters of the historic and extended ranges. */
  predicate IsUpperCyrillic(c: char) {
    || '\U{400}' <= c <= '\U{42f}'
    || ('\U{460}' <= c <= '\U{481}' && Even(c))
    || ('\U{48a}' <= c <= '\U{4bf}' && Even(c))
    || c == '\U{4c0}'
    || ('\U{4c1}' <= c <= '\U{4cd}' && !Even(c))
    || ('\U{4d0}' <= c <= '\U{52f}' && Even(c))
  }

  /** `str.lower()` on one character, for ASCII letters. */
  function LowerChar(c: char): char {
    if 'A' <= c <= 'Z' then (c as int + 32) as char else c
  }

  function Lower(s: string): (r: string)
    ensures |r| == |s|
  {
    seq(|s|, i requires 0 <= i < |s| => LowerChar(s[i]))
  }

  /** The regular-expression class `\d`, for ASCII digits. */
  predicate IsDigit(c: char) {
    '0' <= c <= '9'
  }

  predicate AllDigits(s: string) {
    forall i :: 0 <= i < |s| ==> IsDigit(s[i])
  }

  function DigitValue(c: char): nat
    requires IsDigit(c)
  {
    c as int - '0' as int
  }

  function DigitChar(d: nat): (c: char)
    requires d < 10
    ensures IsDigit(c) && DigitValue(c) == d
  {
    (d + '0' as int) as char
  }

  // ---------------------------------------------------------------------------
  // Prefixes, suffixes, substrings, slices
  // ---------------------------------------------------------------------------

  predicate StartsWith(s: string, prefix: string) {
    |prefix| <= |s| && s[..|prefix|] == prefix
  }

  predicate EndsWith(s: string, suffix: string) {
    |suffix| <= |s| && s[|s| - |suffix|..] == suffix
  }

  /** Python's `sub in s`. */
  predicate Contains(s: string, sub: string)
    decreases |s|
  {
    StartsWith(s, sub) || (|s| > 0 && Contains(s[1..], sub))
  }

  /** Python's slice `s[:n]`. */
  function TakeChars(s: string, n: nat): (r: string)
    ensures |r| <= n && |r| <= |s|
    ensures r == s[..|r|]
    ensures |s| <= n ==> r == s
  {
    if |s| <= n then s else s[..n]
  }

  /** `os.path.join(directory, name)` on POSIX. */
  function PathJoin(directory: string, name: string): string
  {
    if StartsWith(name, "/") then name
    else if directory == "" || EndsWith(directory, "/") then directory + name
    else directory + "/" + name
  }

  /** Python's `s.replace(a, b)` for single characters. */
  function ReplaceChar(s: string, a: char, b: char): (r: string)
    ensures |r| == |s|
  {
    seq(|s|, i requires 0 <= i < |s| => if s[i] == a then b else s[i])
  }

  // ---------------------------------------------------------------------------
  // strip()
  // ---------------------------------------------------------------------------

  function TrimStart(s: string): (r: string)
    ensures |r| <= |s|
    ensures r == [] || !IsSpace(r[0])
  {
    if |s| > 0 && IsSpace(s[0]) then TrimStart(s[1..]) else s
  }

  /** `TrimStart` drops a blank prefix and keeps the rest. */
  lemma {:induction false} TrimStartDrops(s: string)
    ensures TrimStart(s) == s[|s| - |TrimStart(s)|..]
    ensures forall i :: 0 <= i < |s| - |TrimStart(s)| ==> IsSpace(s[i])
  {
    if |s| > 0 && IsSpace(s[0]) {
      TrimStartDrops(s[1..]);
    }
  }

  function TrimEnd(s: string): (r: string)
    ensures |r| <= |s|
    ensures r == [] || !IsSpace(r[|r| - 1])
  {
    if |s| > 0 && IsSpace(s[|s| - 1]) then TrimEnd(s[..|s| - 1]) else s
  }

  /** `TrimEnd` drops a blank suffix and keeps the rest. */
  lemma {:induction false} TrimEndDrops(s: string)
    ensures TrimEnd(s) == s[..|TrimEnd(s)|]
    ensures forall i :: |TrimEnd(s)| <= i < |s| ==> IsSpace(s[i])
  {
    if |s| > 0 && IsSpace(s[|s| - 1]) {
      TrimEndDrops(s[..|s| - 1]);
    }
  }

  /** Python's `s.strip()`: the string without its blank prefix and suffix. */
  function Strip(s: string): (r: string)
    ensures |r| <= |s|
    ensures r == [] || (!IsSpace(r[0]) && !IsSpace(r[|r| - 1]))
  {
    TrimEndDrops(TrimStart(s));
    TrimEnd(TrimStart(s))
  }

  /** Stripping a string whose ends are not blank leaves it unchanged. */
  lemma StripUnchanged(s: string)
    requires s == [] || (!IsSpace(s[0]) && !IsSpace(s[|s| - 1]))
    ensures Strip(s) == s
  {
  }

  /** Every character of `s.strip()` is a character of `s`. */
  lemma StripChars(s: string)
    ensures forall c :: c in Strip(s) ==> c in s
  {
    var t := TrimStart(s);
    TrimStartDrops(s);
    TrimEndDrops(t);
    forall c | c in Strip(s)
      ensures c in s
    {
      var k :| 0 <= k < |Strip(s)| && Strip(s)[k] == c;
      assert t[k] == c;
      assert s[|s| - |t| + k] == c;
    }
  }

  // ---------------------------------------------------------------------------
  // split() and join()
  // ---------------------------------------------------------------------------

  /** Python's `s.split(sep)` for a one-character separator: never empty, and
      no part contains the separator. */
  function Split(s: string, sep: char): (parts: seq<string>)
    ensures |parts| >= 1
    ensures forall k :: 0 <= k < |parts| ==> sep !in parts[k]
  {
    if |s| == 0 then [""]
    else
      var rest := Split(s[1..], sep);
      if s[0] == sep then [""] + rest
      else [[s[0]] + rest[0]] + rest[1..]
  }

  /** Python's `sep.join(parts)`. */
  function Join(parts: seq<string>, sep: string): string
  {
    if |parts| == 0 then ""
    else if |parts| == 1 then parts[0]
    else parts[0] + sep + Join(parts[1..], sep)
  }

  lemma {:induction false} SplitNoSeparator(s: string, sep: char)
    requires sep !in s
    ensures Split(s, sep) == [s]
  {
    if |s| > 0 {
      SplitNoSeparator(s[1..], sep);
      assert [s[0]] + s[1..] == s;
    }
  }

  lemma {:induction false} SplitAtSeparator(a: string, sep: char, b: string)
    requires sep !in a
    ensures Split(a + [sep] + b, sep) == [a] + Split(b, sep)
  {
    if |a| == 0 {
      assert a + [sep] + b == [sep] + b;
      assert ([sep] + b)[1..] == b;
    } else {
      assert (a + [sep] + b)[1..] == a[1..] + [sep] + b;
      SplitAtSeparator(a[1..], sep, b);
      assert [a[0]] + a[1..] == a;
    }
  }

  /** Splitting undoes joining when no part holds the separator. */
  lemma {:induction false} SplitJoin(parts: seq<string>, sep: char)
    requires |parts| >= 1
    requires forall k :: 0 <= k < |parts| ==> sep !in parts[k]
    ensures Split(Join(parts, [sep]), sep) == parts
  {
    if |parts| == 1 {
      SplitNoSeparator(parts[0], sep);
    } else {
      SplitJoin(parts[1..], sep);
      SplitAtSeparator(parts[0], sep, Join(parts[1..], [sep]));
      assert [parts[0]] + parts[1..] == parts;
    }
  }

  /** Joining undoes splitting. */
  lemma {:induction false} JoinSplit(s: string, sep: char)
    ensures Join(Split(s, sep), [sep]) == s
  {
    if |s| > 0 {
      var rest := Split(s[1..], sep);
      JoinSplit(s[1..], sep);
      if s[0] == sep {
        assert ([""] + rest)[1..] == rest;
        assert [sep] + s[1..] == s;
      } else {
        var parts := [[s[0]] + rest[0]] + rest[1..];
        assert parts[1..] == rest[1..];
        if |rest| == 1 {
          assert [s[0]] + s[1..] == s;
        } else {
          assert Join(rest, [sep]) == rest[0] + [sep] + Join(rest[1..], [sep]);
          assert [s[0]] + s[1..] == s;
        }
      }
    }
  }

  // ---------------------------------------------------------------------------
  // Decimal integers: format(n, '0Nd') and int(s)
  // ---------------------------------------------------------------------------

  /** A string of digits holds no other character. */
  lemma DigitsExclude(d: string, c: char)
    requires AllDigits(d) && !IsDigit(c)
    ensures c !in d
  {
  }

  /** The value of a string of decimal digits. */
  function DigitsValue(s: string): nat
    requires AllDigits(s)
  {
    if |s| == 0 then 0 else 10 * DigitsValue(s[..|s| - 1]) + DigitValue(s[|s| - 1])
  }

  /** `str(n)` for a natural number: the shortest decimal spelling. */
  function Decimal(n: nat): (r: string)
    ensures |r| >= 1 && AllDigits(r) && DigitsValue(r) == n
    ensures n < 10 <==> |r| == 1
    ensures n < 100 <==> |r| <= 2
    ensures n < 1000 <==> |r| <= 3
  {
    if n < 10 then [DigitChar(n)]
    else
      var r := Decimal(n / 10) + [DigitChar(n % 10)];
      assert r[..|r| - 1] == Decimal(n / 10);
      r
  }

  function Zeros(k: nat): (r: string)
    ensures |r| == k && AllDigits(r)
  {
    if k == 0 then "" else Zeros(k - 1) + "0"
  }

  lemma {:induction false} LeadingZeros(k: nat, s: string)
    requires AllDigits(s)
    ensures AllDigits(Zeros(k) + s) && DigitsValue(Zeros(k) + s) == DigitsValue(s)
  {
    if k > 0 && |s| == 0 {
      LeadingZeros(k - 1, "");
      assert Zeros(k) + s == Zeros(k - 1) + "0";
      assert (Zeros(k - 1) + "0")[..k - 1] == Zeros(k - 1) + "";
    } else if |s| > 0 {
      var t := s[..|s| - 1];
      LeadingZeros(k, t);
      assert (Zeros(k) + s)[..|Zeros(k) + s| - 1] == Zeros(k) + t;
    }
  }

  /** `format(n, '0{width}d')` for a natural number: its decimal spelling,
      padded on the left with zeros to at least `width` characters. */
  function ZeroPad(n: nat, width: nat): (r: string)
    ensures AllDigits(r) && DigitsValue(r) == n
    ensures |r| == if |Decimal(n)| < width then width else |Decimal(n)|
  {
    var d := Decimal(n);
    var z := if |d| < width then width - |d| else 0;
    LeadingZeros(z, d);
    Zeros(z) + d
  }

  /** `format(n, '0{width}d')` for any integer: a negative value keeps its sign
      in front of the zeros, and the sign counts towards the width. */
  function FormatInt(n: int, width: nat): string
  {
    if n < 0 then "-" + ZeroPad(-n, if width > 0 then width - 1 else 0)
    else ZeroPad(n, width)
  }

  /** The digits of an `int()` literal: digits with single underscores between them. */
  predicate IntBody(b: string) {
    && |b| > 0
    && forall i :: 0 <= i < |b| ==> IntBodyChar(b, i)
  }

  predicate IntBodyChar(b: string, i: nat)
    requires i < |b|
  {
    IsDigit(b[i]) || (b[i] == '_' && 0 < i < |b| - 1 && IsDigit(b[i - 1]) && IsDigit(b[i + 1]))
  }

  function DropUnderscores(b: string): (r: string)
    requires forall i :: 0 <= i < |b| ==> IsDigit(b[i]) || b[i] == '_'
    ensures AllDigits(r)
  {
    if |b| == 0 then ""
    else (if b[0] == '_' then "" else [b[0]]) + DropUnderscores(b[1..])
  }

  lemma {:induction false} DropUnderscoresOfDigits(b: string)
    requires AllDigits(b)
    ensures DropUnderscores(b) == b
  {
    if |b| > 0 {
      DropUnderscoresOfDigits(b[1..]);
      assert [b[0]] + b[1..] == b;
    }
  }

  /** Python's `int(s)` in base 10: surrounding blanks, an optional sign and
      underscore-separated digit groups are accepted; anything else is a
      ValueError, here `None`. */
  function ParseInt(s: string): Option<int>
  {
    ParseSigned(Strip(s))
  }

  /** Without a `-` in the text, `int` never reads a negative number. */
  lemma ParseIntUnsigned(s: string)
    requires '-' !in s && ParseInt(s).Some?
    ensures ParseInt(s).value >= 0
  {
    StripChars(s);
    var t := Strip(s);
    if |t| > 0 {
      assert t[0] in t;
    }
  }

  /** `int()` of a stripped string: an optional sign, then the digits. */
  function ParseSigned(t: string): Option<int>
  {
    var negative := |t| > 0 && t[0] == '-';
    var body := if |t| > 0 && (t[0] == '+' || t[0] == '-') then t[1..] else t;
    if IntBody(body) then
      var v: int := BodyValue(body);
      Some(if negative then -v else v)
    else None
  }

  /** The value of an `int()` literal's digit groups. */
  function BodyValue(body: string): nat
    requires IntBody(body)
  {
    assert forall i :: 0 <= i < |body| ==> IsDigit(body[i]) || body[i] == '_' by {
      forall i | 0 <= i < |body| ensures IsDigit(body[i]) || body[i] == '_' {
        assert IntBodyChar(body, i);
      }
    }
    DigitsValue(DropUnderscores(body))
  }

  lemma DigitsAreIntBody(d: string)
    requires |d| > 0 && AllDigits(d)
    ensures IntBody(d) && DropUnderscores(d) == d
  {
    assert forall i :: 0 <= i < |d| ==> IntBodyChar(d, i);
    DropUnderscoresOfDigits(d);
  }

  /** int() reads back what format(n, '0Nd') writes, for every integer. */
  lemma StripDigits(d: string)
    requires |d| > 0 && AllDigits(d)
    ensures Strip(d) == d && Strip("-" + d) == "-" + d
  {
    assert IsDigit(d[0]) && IsDigit(d[|d| - 1]);
    StripUnchanged(d);
    StripNegated(d);
  }

  lemma StripNegated(d: string)
    requires |d| > 0 && !IsSpace(d[|d| - 1])
    ensures Strip("-" + d) == "-" + d
  {
    var m := "-" + d;
    assert m[0] == '-' && m[|m| - 1] == d[|d| - 1];
    StripUnchanged(m);
  }

  lemma BodyValueOfDigits(d: string)
    requires |d| > 0 && AllDigits(d)
    ensures IntBody(d) && BodyValue(d) == DigitsValue(d)
  {
    DigitsAreIntBody(d);
  }

  /** `int()` reads an unsigned run of digits `d` worth `v`. */
  lemma ParseSignedPlain(d: string, v: nat)
    requires |d| > 0 && AllDigits(d) && v == DigitsValue(d)
    ensures ParseSigned(d) == Some(v)
  {
    BodyValueOfDigits(d);
    assert IsDigit(d[0]);
  }

  /** `int()` reads a minus sign then a run of digits `d` worth `v`. */
  lemma ParseSignedMinus(d: string, v: nat)
    requires |d| > 0 && AllDigits(d) && v == DigitsValue(d)
    ensures ParseSigned("-" + d) == Some(0 - v)
  {
    BodyValueOfDigits(d);
    ParseSignedNegative(d, v);
  }

  lemma ParseSignedNegative(b: string, v: nat)
    requires IntBody(b) && BodyValue(b) == v
    ensures ParseSigned("-" + b) == Some(0 - v)
  {
    assert ("-" + b)[1..] == b;
  }

  lemma ParseDigits(d: string, v: nat)
    requires |d| > 0 && AllDigits(d) && v == DigitsValue(d)
    ensures ParseInt(d) == Some(v)
  {
    StripDigits(d);
    ParseSignedPlain(d, v);
  }

  lemma ParseNegativeDigits(d: string, v: nat)
    requires |d| > 0 && AllDigits(d) && v == DigitsValue(d)
    ensures ParseInt("-" + d) == Some(0 - v)
  {
    StripDigits(d);
    ParseSignedMinus(d, v);
  }

  lemma ParseFormatInt(n: int, width: nat)
    ensures ParseInt(FormatInt(n, width)) == Some(n)
  {
    if n < 0 {
      ParseNegativeDigits(ZeroPad(-n, if width > 0 then width - 1 else 0), -n);
    } else {
      ParseDigits(ZeroPad(n, width), n);
    }
  }

  // ---------------------------------------------------------------------------
  // String comparison
  // ---------------------------------------------------------------------------

  /** Python's `a <= b` on strings: code point by code point, a proper
      prefix first. */
  predicate LexLe(a: string, b: string) {
    a == [] || (b != [] && (a[0] < b[0] || (a[0] == b[0] && LexLe(a[1..], b[1..]))))
  }

  lemma {:induction false} LexLeTotal(a: string, b: string)
    ensures LexLe(a, b) || LexLe(b, a)
  {
    if a != [] && b != [] && a[0] == b[0] {
      LexLeTotal(a[1..], b[1..]);
    }
  }

  lemma {:induction false} LexLeTransitive(a: string, b: string, c: string)
    requires LexLe(a, b) && LexLe(b, c)
    ensures LexLe(a, c)
  {
    if a != [] && a[0] == b[0] && b[0] == c[0] {
      LexLeTransitive(a[1..], b[1..], c[1..]);
    }
  }

  // ---------------------------------------------------------------------------
  // Searching and path names
  // ---------------------------------------------------------------------------

  /** Index of the first `c` in `s`, or `|s|`. */
  function IndexOf(s: string, c: char): (k: nat)
    ensures k <= |s| && c !in s[..k]
    ensures k < |s| ==> s[k] == c
  {
    if s == [] then 0
    else if s[0] == c then 0
    else
      var k := 1 + IndexOf(s[1..], c);
      assert s[..k] == [s[0]] + s[1..][..k - 1];
      k
  }

  /** Index of the last `c` in `s`, or -1. */
  function LastIndexOf(s: string, c: char): (k: int)
    ensures -1 <= k < |s|
    ensures k >= 0 ==> s[k] == c
    ensures forall i :: k < i < |s| ==> s[i] != c
  {
    if s == [] then -1
    else if s[|s| - 1] == c then |s| - 1
    else LastIndexOf(s[..|s| - 1], c)
  }

  /** The last index of `c` is the one index holding `c` with none after it. */
  lemma LastIndexOfIs(s: string, c: char, k: int)
    requires -1 <= k < |s| && (k >= 0 ==> s[k] == c)
    requires forall j :: k < j < |s| ==> s[j] != c
    ensures LastIndexOf(s, c) == k
  {
  }

  /** `Path(name).stem`: the name without its last suffix; a dot that is the
      first or the last character starts no suffix. */
  function Stem(name: string): string
  {
    var i := LastIndexOf(name, '.');
    if 0 < i < |name| - 1 then name[..i] else name
  }

  /** `Path(name).suffix`: from the last dot on; a dot that is the first or
      the last character starts no suffix. */
  function Suffix(name: string): (r: string)
    ensures r == "" || r[0] == '.'
  {
    var i := LastIndexOf(name, '.');
    if 0 < i < |name| - 1 then name[i..] else ""
  }
}
