/**
 * Text helpers with the meaning of the JavaScript and Python string built-ins the
 * program relies on: trimming (with each language's whitespace), splitting on a separator, joining, ASCII lower-casing,
 * decimal conversion and code-point ordering.
 */
module Text {
  import opened Wrappers

  /** A byte of a Python `bytes` object or a Node.js `Buffer`. */
  type Byte = b: int | 0 <= b < 256

  /** The language whose whitespace a trim or a `\s` follows. */
  datatype Host = JavaScript | Python

  /**
   * The whitespace that `trim()` and `\s` remove in JavaScript (the WhiteSpace and LineTerminator
   * characters of ECMAScript), and that `strip()` and `\s` remove in Python (`str.isspace`).
   * Both take tab, line feed, vertical tab, form feed, carriage return, the space separators of
   * Unicode and the line and paragraph separators; JavaScript adds the byte order mark U+FEFF,
   * Python the information separators U+001C..U+001F and the next-line character U+0085.
   */
  predicate IsSpace(c: char, host: Host)
  {
    || c == ' ' || '\t' <= c <= '\r'
    || c == '\U{A0}' || c == '\U{1680}' || '\U{2000}' <= c <= '\U{200A}'
    || c == '\U{2028}' || c == '\U{2029}' || c == '\U{202F}' || c == '\U{205F}' || c == '\U{3000}'
    || (host == JavaScript && c == '\U{FEFF}')
    || (host == Python && ('\U{1C}' <= c <= '\U{1F}' || c == '\U{85}'))
  }

  predicate AllSpace(s: string, host: Host)
  {
    forall k :: 0 <= k < |s| ==> IsSpace(s[k], host)
  }

  /** A string with no whitespace at either end. */
  predicate IsTrimmed(s: string, host: Host)
  {
    |s| == 0 || (!IsSpace(s[0], host) && !IsSpace(s[|s| - 1], host))
  }

  /** Drops leading whitespace: everything dropped is whitespace (the rest is a suffix, see below). */
  function TrimStart(s: string, host: Host): (r: string)
    ensures |r| <= |s|
    ensures |r| > 0 ==> !IsSpace(r[0], host)
    ensures AllSpace(s[..|s| - |r|], host)
    decreases |s|
  {
    if |s| > 0 && IsSpace(s[0], host) then TrimStart(s[1..], host) else s
  }

  /** Drops trailing whitespace: everything dropped is whitespace (the rest is a prefix, see below). */
  function TrimEnd(s: string, host: Host): (r: string)
    ensures |r| <= |s|
    ensures |r| > 0 ==> !IsSpace(r[|r| - 1], host)
    ensures AllSpace(s[|r|..], host)
    decreases |s|
  {
    if |s| > 0 && IsSpace(s[|s| - 1], host) then TrimEnd(s[..|s| - 1], host) else s
  }

  /** `trim()` (JavaScript) / `strip()` (Python). */
  function Trim(s: string, host: Host): (r: string)
    ensures IsTrimmed(r, host)
    ensures |r| <= |s|
  {
    TrimEndIsPrefix(TrimStart(s, host), host);
    TrimEnd(TrimStart(s, host), host)
  }

  lemma {:induction false} TrimStartIsSuffix(s: string, host: Host)
    ensures TrimStart(s, host) == s[|s| - |TrimStart(s, host)|..]
    decreases |s|
  {
    if |s| > 0 && IsSpace(s[0], host) {
      TrimStartIsSuffix(s[1..], host);
    }
  }

  lemma {:induction false} TrimEndIsPrefix(s: string, host: Host)
    ensures TrimEnd(s, host) == s[..|TrimEnd(s, host)|]
    decreases |s|
  {
    if |s| > 0 && IsSpace(s[|s| - 1], host) {
      TrimEndIsPrefix(s[..|s| - 1], host);
    }
  }

  lemma TrimOfTrimmed(s: string, host: Host)
    requires IsTrimmed(s, host)
    ensures Trim(s, host) == s
  {
  }

  /** Trimming is idempotent, and only an all-whitespace string trims to the empty string. */
  lemma TrimIdempotent(s: string, host: Host)
    ensures Trim(Trim(s, host), host) == Trim(s, host)
    ensures Trim(s, host) == "" <==> AllSpace(s, host)
  {
    TrimOfTrimmed(Trim(s, host), host);
    var a := TrimStart(s, host);
    TrimStartIsSuffix(s, host);
    if Trim(s, host) == "" {
      assert |a| == 0;
      assert s[..|s|] == s;
    }
  }

  /** A non-breaking space is whitespace to both hosts: `"\U{A0}".trim()` is empty. */
  lemma NoBreakSpaceTrims(host: Host)
    ensures Trim("\U{A0}", host) == ""
  {
  }

  /** The hosts differ on the byte order mark, which only JavaScript trims. */
  lemma ByteOrderMarkTrims()
    ensures Trim("\U{FEFF}", JavaScript) == "" && Trim("\U{FEFF}", Python) == "\U{FEFF}"
  {
    assert !IsSpace('\U{FEFF}', Python);
  }

  predicate IsUpper(c: char) { 'A' <= c <= 'Z' }
  predicate IsLower(c: char) { 'a' <= c <= 'z' }

  /** ASCII lower-casing of one character. */
  function LowerChar(c: char): (r: char)
    ensures !IsUpper(r)
    ensures !IsUpper(c) ==> r == c
  {
    if IsUpper(c) then (c as int + 32) as char else c
  }

  /** `toLowerCase()` / case folding, restricted to ASCII letters. */
  function ToLower(s: string): (r: string)
    ensures |r| == |s|
    ensures forall k :: 0 <= k < |s| ==> r[k] == LowerChar(s[k])
  {
    seq(|s|, k requires 0 <= k < |s| => LowerChar(s[k]))
  }

  /** Case-insensitive prefix test, as a regular expression anchored with `^` under IGNORECASE. */
  predicate HasPrefixIgnoringCase(s: string, p: string)
  {
    |p| <= |s| && forall k :: 0 <= k < |p| ==> LowerChar(s[k]) == LowerChar(p[k])
  }

  lemma ExactPrefixIgnoringCase(s: string, p: string)
    requires p <= s
    ensures HasPrefixIgnoringCase(s, p)
  {
  }

  predicate StartsWith(s: string, p: string) { p <= s }

  predicate EndsWith(s: string, x: string)
  {
    |x| <= |s| && s[|s| - |x|..] == x
  }

  /** Substring test (`includes` / `in`). */
  predicate Contains(s: string, sub: string)
    decreases |s|
  {
    sub <= s || (|s| > 0 && Contains(s[1..], sub))
  }

  lemma ContainsAt(s: string, sub: string, i: nat)
    requires i + |sub| <= |s| && s[i..i + |sub|] == sub
    ensures Contains(s, sub)
    decreases i
  {
    if i > 0 {
      assert s[1..][i - 1..i - 1 + |sub|] == sub;
      ContainsAt(s[1..], sub, i - 1);
    }
  }

  lemma ContainsWitness(s: string, sub: string) returns (i: nat)
    requires Contains(s, sub)
    ensures i + |sub| <= |s| && s[i..i + |sub|] == sub
    decreases |s|
  {
    if sub <= s {
      i := 0;
    } else {
      var j := ContainsWitness(s[1..], sub);
      i := j + 1;
      assert s[i..i + |sub|] == s[1..][j..j + |sub|];
    }
  }

  /** `s.split(sep)` for a one-character separator: never empty, pieces free of the separator. */
  function Split(s: string, sep: char): (r: seq<string>)
    ensures |r| >= 1
    ensures forall k :: 0 <= k < |r| ==> sep !in r[k]
    decreases |s|
  {
    if |s| == 0 then [""]
    else
      var rest := Split(s[1..], sep);
      if s[0] == sep then [""] + rest else [[s[0]] + rest[0]] + rest[1..]
  }

  /** `parts.join(sep)`. */
  function Join(parts: seq<string>, sep: string): string
    decreases |parts|
  {
    if |parts| == 0 then ""
    else if |parts| == 1 then parts[0]
    else parts[0] + sep + Join(parts[1..], sep)
  }

  /** Joining the pieces of a split with the separator gives back the original string. */
  lemma {:induction false} JoinSplit(s: string, sep: char)
    ensures Join(Split(s, sep), [sep]) == s
    decreases |s|
  {
    if |s| > 0 {
      JoinSplit(s[1..], sep);
      var rest := Split(s[1..], sep);
      if s[0] == sep {
        assert s == [sep] + s[1..];
      } else {
        var parts := [[s[0]] + rest[0]] + rest[1..];
        if |rest| == 1 {
          assert parts == [[s[0]] + s[1..]];
          assert s == [s[0]] + s[1..];
        } else {
          assert parts[1..] == rest[1..];
          assert Join(rest, [sep]) == rest[0] + [sep] + Join(rest[1..], [sep]);
          assert s == [s[0]] + s[1..];
        }
      }
    }
  }

  lemma {:induction false} SplitPrefix(head: string, sep: char, tail: string)
    requires sep !in head
    ensures Split(head + [sep] + tail, sep) == [head] + Split(tail, sep)
    decreases |head|
  {
    var s := head + [sep] + tail;
    if |head| == 0 {
      assert s == [sep] + tail;
      assert s[1..] == tail;
    } else {
      assert s[0] == head[0] != sep;
      assert s[1..] == head[1..] + [sep] + tail;
      SplitPrefix(head[1..], sep, tail);
      var rest := Split(s[1..], sep);
      assert rest == [head[1..]] + Split(tail, sep);
      assert Split(s, sep) == [[s[0]] + rest[0]] + rest[1..];
      assert [head[0]] + head[1..] == head;
      assert rest[1..] == Split(tail, sep);
    }
  }

  lemma SplitNoSep(s: string, sep: char)
    requires sep !in s
    ensures Split(s, sep) == [s]
    decreases |s|
  {
    if |s| > 0 {
      SplitNoSep(s[1..], sep);
      assert [s[0]] + s[1..] == s;
    }
  }

  /** Splitting a join of separator-free pieces gives back the pieces. */
  lemma {:induction false} SplitJoin(parts: seq<string>, sep: char)
    requires |parts| >= 1
    requires forall k :: 0 <= k < |parts| ==> sep !in parts[k]
    ensures Split(Join(parts, [sep]), sep) == parts
    decreases |parts|
  {
    if |parts| == 1 {
      SplitNoSep(parts[0], sep);
    } else {
      SplitJoin(parts[1..], sep);
      SplitPrefix(parts[0], sep, Join(parts[1..], [sep]));
      assert [parts[0]] + parts[1..] == parts;
    }
  }

  predicate IsDigit(c: char) { '0' <= c <= '9' }

  /**
   * `\d` in a regular expression. In JavaScript it is the ASCII digits. In a Python `str` pattern
   * it is every decimal digit of Unicode (general category Nd, as in the Unicode 15.0 database of
   * Python 3.12): the runs of digits zero to nine of many scripts, such as U+0660..U+0669.
   */
  predicate IsRegexDigit(c: char, host: Host)
  {
    match host
    case JavaScript => IsDigit(c)
    case Python => IsUnicodeDecimal(c as int)
  }

  /** The code points of Unicode's decimal digits (general category Nd). */
  predicate IsUnicodeDecimal(n: int)
  {
    if n < 0x660 then 0x30 <= n <= 0x39 else IsOtherDecimal(n)
  }

  /** The decimal digits of Unicode beyond the ASCII ones. */
  predicate IsOtherDecimal(n: int)
  {
    || 0x660 <= n <= 0x669
    || 0x6F0 <= n <= 0x6F9
    || 0x7C0 <= n <= 0x7C9
    || 0x966 <= n <= 0x96F
    || 0x9E6 <= n <= 0x9EF
    || 0xA66 <= n <= 0xA6F
    || 0xAE6 <= n <= 0xAEF
    || 0xB66 <= n <= 0xB6F
    || 0xBE6 <= n <= 0xBEF
    || 0xC66 <= n <= 0xC6F
    || 0xCE6 <= n <= 0xCEF
    || 0xD66 <= n <= 0xD6F
    || 0xDE6 <= n <= 0xDEF
    || 0xE50 <= n <= 0xE59
    || 0xED0 <= n <= 0xED9
    || 0xF20 <= n <= 0xF29
    || 0x1040 <= n <= 0x1049
    || 0x1090 <= n <= 0x1099
    || 0x17E0 <= n <= 0x17E9
    || 0x1810 <= n <= 0x1819
    || 0x1946 <= n <= 0x194F
    || 0x19D0 <= n <= 0x19D9
    || 0x1A80 <= n <= 0x1A89
    || 0x1A90 <= n <= 0x1A99
    || 0x1B50 <= n <= 0x1B59
    || 0x1BB0 <= n <= 0x1BB9
    || 0x1C40 <= n <= 0x1C49
    || 0x1C50 <= n <= 0x1C59
    || 0xA620 <= n <= 0xA629
    || 0xA8D0 <= n <= 0xA8D9
    || 0xA900 <= n <= 0xA909
    || 0xA9D0 <= n <= 0xA9D9
    || 0xA9F0 <= n <= 0xA9F9
    || 0xAA50 <= n <= 0xAA59
    || 0xABF0 <= n <= 0xABF9
    || 0xFF10 <= n <= 0xFF19
    || 0x104A0 <= n <= 0x104A9
    || 0x10D30 <= n <= 0x10D39
    || 0x11066 <= n <= 0x1106F
    || 0x110F0 <= n <= 0x110F9
    || 0x11136 <= n <= 0x1113F
    || 0x111D0 <= n <= 0x111D9
    || 0x112F0 <= n <= 0x112F9
    || 0x11450 <= n <= 0x11459
    || 0x114D0 <= n <= 0x114D9
    || 0x11650 <= n <= 0x11659
    || 0x116C0 <= n <= 0x116C9
    || 0x11730 <= n <= 0x11739
    || 0x118E0 <= n <= 0x118E9
    || 0x11950 <= n <= 0x11959
    || 0x11C50 <= n <= 0x11C59
    || 0x11D50 <= n <= 0x11D59
    || 0x11DA0 <= n <= 0x11DA9
    || 0x11F50 <= n <= 0x11F59
    || 0x16A60 <= n <= 0x16A69
    || 0x16AC0 <= n <= 0x16AC9
    || 0x16B50 <= n <= 0x16B59
    || 0x1D7CE <= n <= 0x1D7FF
    || 0x1E140 <= n <= 0x1E149
    || 0x1E2F0 <= n <= 0x1E2F9
    || 0x1E4F0 <= n <= 0x1E4F9
    || 0x1E950 <= n <= 0x1E959
    || 0x1FBF0 <= n <= 0x1FBF9
  }

  predicate AllRegexDigits(s: string, host: Host)
  {
    forall k :: 0 <= k < |s| ==> IsRegexDigit(s[k], host)
  }

  /** Python's `\d` takes the Arabic-Indic digit three; JavaScript's does not. */
  lemma ArabicIndicDigit()
    ensures IsRegexDigit('\U{663}', Python) && !IsRegexDigit('\U{663}', JavaScript)
  {
  }

  /** The ASCII digits are digits for both languages, and nothing else below U+0660 is. */
  lemma AsciiRegexDigits(c: char, host: Host)
    requires c as int < 0x660
    ensures IsRegexDigit(c, host) <==> IsDigit(c)
  {
  }

  predicate AllDigits(s: string)
  {
    forall k :: 0 <= k < |s| ==> IsDigit(s[k])
  }

  function DigitValue(c: char): nat
    requires IsDigit(c)
  {
    c as int - '0' as int
  }

  function DigitChar(d: nat): (c: char)
    requires d < 10
    ensures IsDigit(c) && DigitValue(c) == d
  {
    ('0' as int + d) as char
  }

  /** The decimal value of a string of digits (`parseInt`, `int()` on digits). */
  function DecimalValue(s: string): nat
    requires AllDigits(s)
    decreases |s|
  {
    if |s| == 0 then 0 else DecimalValue(s[..|s| - 1]) * 10 + DigitValue(s[|s| - 1])
  }

  /** The decimal notation of a natural number, as `String(n)` / `str(n)` prints it. */
  function NatToString(n: nat): (r: string)
    ensures |r| >= 1 && AllDigits(r)
    ensures |r| > 1 ==> r[0] != '0'
    decreases n
  {
    if n < 10 then [DigitChar(n)] else NatToString(n / 10) + [DigitChar(n % 10)]
  }

  /** Reading back the printed number gives the number. */
  lemma {:induction false} DecimalOfNatToString(n: nat)
    ensures DecimalValue(NatToString(n)) == n
    decreases n
  {
    if n >= 10 {
      DecimalOfNatToString(n / 10);
      var s := NatToString(n);
      assert s[..|s| - 1] == NatToString(n / 10);
    }
  }

  /** A leading zero does not change the value (`parseInt("05")` is 5). */
  lemma {:induction false} DecimalLeadingZero(s: string)
    requires AllDigits(s)
    ensures AllDigits("0" + s) && DecimalValue("0" + s) == DecimalValue(s)
    decreases |s|
  {
    if |s| > 0 {
      DecimalLeadingZero(s[..|s| - 1]);
      assert ("0" + s)[..|s|] == "0" + s[..|s| - 1];
    }
  }

  /** Distinct numbers print differently. */
  lemma NatToStringInjective(a: nat, b: nat)
    requires NatToString(a) == NatToString(b)
    ensures a == b
  {
    DecimalOfNatToString(a);
    DecimalOfNatToString(b);
  }

  /** The longest run of digits at the start of `s`. */
  function LeadingDigits(s: string): (r: string)
    ensures AllDigits(r) && r <= s
    ensures |r| < |s| ==> !IsDigit(s[|r|])
    decreases |s|
  {
    if |s| > 0 && IsDigit(s[0]) then [s[0]] + LeadingDigits(s[1..]) else ""
  }

  lemma {:induction false} LeadingDigitsOfDigits(s: string)
    requires AllDigits(s)
    ensures LeadingDigits(s) == s
    decreases |s|
  {
    if |s| > 0 {
      LeadingDigitsOfDigits(s[1..]);
      assert [s[0]] + s[1..] == s;
    }
  }

  /**
   * `parseInt(s)` in base ten: leading (JavaScript) whitespace and one sign are skipped, then the longest run
   * of digits is read and the rest ignored; `None` stands for NaN, when there is no digit.
   */
  function ParseInt(s: string): Option<int>
  {
    var t := TrimStart(s, JavaScript);
    var signed := |t| > 0 && t[0] in "+-";
    var digits := LeadingDigits(if signed then t[1..] else t);
    if digits == "" then None
    else
      var value: int := DecimalValue(digits);
      Some(if signed && t[0] == '-' then -value else value)
  }

  /** `parseInt` reads back every printed natural number. */
  lemma ParseIntOfNatToString(n: nat)
    ensures ParseInt(NatToString(n)) == Some(n)
  {
    var s := NatToString(n);
    assert !IsSpace(s[0], JavaScript) && s[0] !in "+-";
    LeadingDigitsOfDigits(s);
    DecimalOfNatToString(n);
  }

  /** `String(i)` for an integer that may be negative. */
  function IntToString(i: int): string
  {
    if i < 0 then "-" + NatToString(-i) else NatToString(i)
  }

  /** The `||` of JavaScript on optional text: the empty text counts as absent. */
  function NonEmpty(c: Option<string>): (r: Option<string>)
    ensures r.Some? <==> c.Some? && c.value != ""
    ensures r.Some? ==> r == c
  {
    if c.Some? && c.value != "" then c else None
  }

  /** JavaScript's `%` on integers: the remainder takes the sign of the dividend. */
  function JsRem(a: int, d: int): (r: int)
    requires d > 0
    ensures a >= 0 ==> r == a % d
    ensures a < 0 ==> -d < r <= 0
  {
    if a >= 0 then a % d else -((-a) % d)
  }

  /** `padStart(2, '0')`. */
  function PadStart2(s: string): (r: string)
    ensures |r| == if |s| >= 2 then |s| else 2
    ensures r[|r| - |s|..] == s
  {
    if |s| >= 2 then s else if |s| == 1 then "0" + s else "00"
  }

  /** Code-point lexicographic order, as JavaScript's `<` on strings. */
  predicate StrLess(a: string, b: string)
    decreases |a|
  {
    if |a| == 0 then |b| > 0
    else if |b| == 0 then false
    else if a[0] != b[0] then a[0] < b[0]
    else StrLess(a[1..], b[1..])
  }

  predicate StrLessEq(a: string, b: string)
  {
    a == b || StrLess(a, b)
  }

  lemma {:induction false} StrLessIrreflexive(a: string)
    ensures !StrLess(a, a)
    decreases |a|
  {
    if |a| > 0 { StrLessIrreflexive(a[1..]); }
  }

  lemma {:induction false} StrLessAsymmetric(a: string, b: string)
    requires StrLess(a, b)
    ensures !StrLess(b, a)
    decreases |a|
  {
    if |a| > 0 && |b| > 0 && a[0] == b[0] { StrLessAsymmetric(a[1..], b[1..]); }
  }

  lemma {:induction false} StrLessTransitive(a: string, b: string, c: string)
    requires StrLess(a, b) && StrLess(b, c)
    ensures StrLess(a, c)
    decreases |a|
  {
    if |a| > 0 && |b| > 0 && |c| > 0 && a[0] == b[0] && b[0] == c[0] {
      StrLessTransitive(a[1..], b[1..], c[1..]);
    }
  }

  lemma {:induction false} StrLessTotal(a: string, b: string)
    requires a != b
    ensures StrLess(a, b) || StrLess(b, a)
    decreases |a|
  {
    if |a| > 0 && |b| > 0 && a[0] == b[0] {
      assert a == [a[0]] + a[1..] && b == [b[0]] + b[1..];
      StrLessTotal(a[1..], b[1..]);
    }
  }
}
