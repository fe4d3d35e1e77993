/**
 * The observing helpers of the web interface: reading sexagesimal coordinates, reading and ordering
 * "HH:MM" times across midnight, the highest point and the ideal window of an altitude curve,
 * and the compass sector of an azimuth.
 */
module AstronomyUtils {
  import opened Wrappers
  import opened Text

  // ---------------------------------------------------------------------------------------------
  // Coordinates

  /**
   * One element of the two coordinate patterns. Each digit run is followed by a character that is
   * not a digit and each run of white space by a digit, so the greedy reading below is the only
   * way the regular expression can match at a position.
   */
  datatype Token = Lit(c: char) | Num | Spaces | Sign

  // The patterns are written one token at a time from the front, as the printing lemmas take them apart.

  /** `(\d+)h\s*(\d+)m\s*(\d+)s` */
  const RaPattern: seq<Token> :=
    [Num] + ([Lit('h')] + ([Spaces] + ([Num] + ([Lit('m')] + ([Spaces] + ([Num] + [Lit('s')]))))))

  /** `([+-])(\d+)Â°\s*(\d+)'\s*(\d+)"`, where the degree mark is the two characters U+00C2 U+00B0. */
  const DecPattern: seq<Token> := [Sign] + DecBody

  /** The declination pattern after the sign. */
  const DecBody: seq<Token> := [Num] + ([Lit('Â')] + ([Lit('°')] + ([Spaces] + DecTail)))

  /** The declination pattern from the arcminutes on. */
  const DecTail: seq<Token> := [Num] + ([Lit('\'')] + ([Spaces] + ([Num] + [Lit('"')])))

  /** The length of the run of digits at the start of `s`. */
  function DigitRun(s: string): (n: nat)
    ensures n <= |s| && AllDigits(s[..n])
    ensures n < |s| ==> !IsDigit(s[n])
    decreases |s|
  {
    if |s| > 0 && IsDigit(s[0]) then
      var n := 1 + DigitRun(s[1..]);
      assert s[..n] == [s[0]] + s[1..][..n - 1];
      n
    else 0
  }

  /** The length of the run of white space at the start of `s`. */
  function SpaceRun(s: string): (n: nat)
    ensures n <= |s|
    decreases |s|
  {
    if |s| > 0 && IsSpace(s[0], JavaScript) then 1 + SpaceRun(s[1..]) else 0
  }

  /** The captured numbers (a sign as -1 or 1) when `pat` matches at the start of `s`. */
  function MatchStart(s: string, pat: seq<Token>): Option<seq<int>>
    decreases |pat|
  {
    if |pat| == 0 then Some([])
    else
      match pat[0]
      case Lit(c) => if |s| > 0 && s[0] == c then MatchStart(s[1..], pat[1..]) else None
      case Spaces => MatchStart(s[SpaceRun(s)..], pat[1..])
      case Num =>
        var n := DigitRun(s);
        if n == 0 then None
        else
          (match MatchStart(s[n..], pat[1..])
           case None => None
           case Some(rest) => Some([DecimalValue(s[..n]) as int] + rest))
      case Sign =>
        if |s| > 0 && (s[0] == '+' || s[0] == '-') then
          (match MatchStart(s[1..], pat[1..])
           case None => None
           case Some(rest) => Some([if s[0] == '-' then -1 else 1] + rest))
        else None
  }

  /** `String.prototype.match` without the global flag: the leftmost position where `pat` matches. */
  function Search(s: string, pat: seq<Token>): Option<seq<int>>
    decreases |s|
  {
    var m := MatchStart(s, pat);
    if m.Some? then m
    else if |s| == 0 then None
    else Search(s[1..], pat)
  }

  /** The number of captures of a pattern. */
  function Captures(pat: seq<Token>): nat
  {
    if |pat| == 0 then 0
    else (if pat[0] == Num || pat[0] == Sign then 1 else 0) + Captures(pat[1..])
  }

  lemma {:induction false} MatchStartCaptures(s: string, pat: seq<Token>)
    requires MatchStart(s, pat).Some?
    ensures |MatchStart(s, pat).value| == Captures(pat)
    decreases |pat|
  {
    if |pat| > 0 {
      match pat[0]
      case Lit(c) => MatchStartCaptures(s[1..], pat[1..]);
      case Spaces => MatchStartCaptures(s[SpaceRun(s)..], pat[1..]);
      case Num => MatchStartCaptures(s[DigitRun(s)..], pat[1..]);
      case Sign => MatchStartCaptures(s[1..], pat[1..]);
    }
  }

  lemma {:induction false} SearchCaptures(s: string, pat: seq<Token>)
    requires Search(s, pat).Some?
    ensures |Search(s, pat).value| == Captures(pat)
    decreases |s|
  {
    if MatchStart(s, pat).Some? {
      MatchStartCaptures(s, pat);
    } else {
      SearchCaptures(s[1..], pat);
    }
  }

  /** The right ascension pattern captures three numbers, the declination pattern four. */
  lemma PatternCaptures()
    ensures Captures(RaPattern) == 3 && Captures(DecPattern) == 4
  {
    RaCaptures();
    DecBodyCaptures();
    CapturesCons(Sign, DecBody);
  }

  lemma RaCaptures()
    ensures Captures(RaPattern) == 3
  {
    var ra0: seq<Token> := [Lit('s')];
    CapturesCons(Lit('s'), []);
    assert [Lit('s')] + [] == ra0;
    var ra1 := [Num] + ra0;
    CapturesCons(Num, ra0);
    var ra2 := [Spaces] + ra1;
    CapturesCons(Spaces, ra1);
    var ra3 := [Lit('m')] + ra2;
    CapturesCons(Lit('m'), ra2);
    var ra4 := [Num] + ra3;
    CapturesCons(Num, ra3);
    var ra5 := [Spaces] + ra4;
    CapturesCons(Spaces, ra4);
    var ra6 := [Lit('h')] + ra5;
    CapturesCons(Lit('h'), ra5);
    CapturesCons(Num, ra6);
  }

  lemma DecTailCaptures()
    ensures Captures(DecTail) == 2
  {
    var d0: seq<Token> := [Lit('"')];
    CapturesCons(Lit('"'), []);
    assert [Lit('"')] + [] == d0;
    var d1 := [Num] + d0;
    CapturesCons(Num, d0);
    var d2 := [Spaces] + d1;
    CapturesCons(Spaces, d1);
    var d3 := [Lit('\'')] + d2;
    CapturesCons(Lit('\''), d2);
    CapturesCons(Num, d3);
  }

  lemma DecBodyCaptures()
    ensures Captures(DecBody) == 3
  {
    DecTailCaptures();
    var b0 := [Spaces] + DecTail;
    CapturesCons(Spaces, DecTail);
    var b1 := [Lit('°')] + b0;
    CapturesCons(Lit('°'), b0);
    var b2 := [Lit('Â')] + b1;
    CapturesCons(Lit('Â'), b1);
    CapturesCons(Num, b2);
  }

  lemma CapturesCons(t: Token, pat: seq<Token>)
    ensures Captures([t] + pat) == (if t == Num || t == Sign then 1 else 0) + Captures(pat)
  {
    assert ([t] + pat)[1..] == pat;
  }

  /** Right ascension and declination in degrees. */
  datatype Degrees = Degrees(raDeg: real, decDeg: real)

  /** `parseCoordinates`: hours, minutes and seconds of right ascension, a signed declination. */
  function ParseCoordinates(ra: string, dec: string): (r: Option<Degrees>)
    ensures r.Some? <==> Search(ra, RaPattern).Some? && Search(dec, DecPattern).Some?
  {
    var raMatch := Search(ra, RaPattern);
    if raMatch.None? then None
    else
      var decMatch := Search(dec, DecPattern);
      if decMatch.None? then None
      else
        SearchCaptures(ra, RaPattern);
        SearchCaptures(dec, DecPattern);
        PatternCaptures();
        var h := raMatch.value;
        var d := decMatch.value;
        Some(Degrees(RaDegrees(h[0], h[1], h[2]), DecDegrees(d[0], d[1], d[2], d[3])))
  }

  /** Fifteen degrees per hour of right ascension. */
  function RaDegrees(h: int, m: int, s: int): real
  {
    (h as real + m as real / 60.0 + s as real / 3600.0) * 15.0
  }

  function DecDegrees(sign: int, d: int, m: int, s: int): real
  {
    sign as real * (d as real + m as real / 60.0 + s as real / 3600.0)
  }

  /** The declination takes the sign of its sign character. */
  lemma DecDegreesSign(d: nat, m: nat, s: nat)
    ensures DecDegrees(-1, d, m, s) == -DecDegrees(1, d, m, s)
    ensures DecDegrees(1, d, m, s) >= 0.0
  {
  }

  /** Right ascension as the catalog lookup prints it: `HHh MMm SSs`. */
  function FormatRa(h: nat, m: nat, s: nat): string
  {
    PadStart2(NatToString(h)) + "h " + PadStart2(NatToString(m)) + "m " + PadStart2(NatToString(s)) + "s"
  }

  /** Declination as the catalog lookup prints it: a sign, then `DDÂ° MM' SS"`. */
  function FormatDec(negative: bool, d: nat, m: nat, s: nat): string
  {
    (if negative then "-" else "+") + PadStart2(NatToString(d)) + "Â° "
    + PadStart2(NatToString(m)) + "' " + PadStart2(NatToString(s)) + "\""
  }

  function Padded(n: nat): (t: string)
    ensures |t| >= 1 && AllDigits(t) && DecimalValue(t) == n
  {
    var t := NatToString(n);
    DecimalOfNatToString(n);
    DecimalLeadingZero(t);
    PadStart2(t)
  }

  lemma {:induction false} DigitRunOf(t: string, rest: string)
    requires AllDigits(t) && (|rest| == 0 || !IsDigit(rest[0]))
    ensures DigitRun(t + rest) == |t|
    decreases |t|
  {
    if |t| > 0 {
      assert (t + rest)[1..] == t[1..] + rest;
      DigitRunOf(t[1..], rest);
    } else {
      assert t + rest == rest;
    }
  }

  /**
   * The captures `vals` can be printed for `pat`: a sign is -1 or 1, a number is not negative and
   * is followed by a literal that is not a digit, and white space is followed by a number.
   */
  predicate Printable(pat: seq<Token>, vals: seq<int>)
    decreases |pat|
  {
    if |pat| == 0 then |vals| == 0
    else
      match pat[0]
      case Lit(c) => Printable(pat[1..], vals)
      case Spaces => |pat| >= 2 && pat[1] == Num && Printable(pat[1..], vals)
      case Num =>
        && |vals| >= 1 && vals[0] >= 0
        && |pat| >= 2 && pat[1].Lit? && !IsDigit(pat[1].c)
        && Printable(pat[1..], vals[1..])
      case Sign => |vals| >= 1 && (vals[0] == 1 || vals[0] == -1) && Printable(pat[1..], vals[1..])
  }

  /** The text that prints `vals` in the shape of `pat`: numbers padded to two digits, one space for white space. */
  function Print(pat: seq<Token>, vals: seq<int>): (r: string)
    requires Printable(pat, vals)
    ensures |pat| > 0 ==> |r| > 0
    ensures |pat| > 0 && pat[0].Lit? ==> r[0] == pat[0].c
    ensures |pat| > 0 && pat[0] == Num ==> IsDigit(r[0])
    decreases |pat|
  {
    if |pat| == 0 then ""
    else
      match pat[0]
      case Lit(c) => [c] + Print(pat[1..], vals)
      case Spaces => " " + Print(pat[1..], vals)
      case Num => Padded(vals[0]) + Print(pat[1..], vals[1..])
      case Sign => (if vals[0] < 0 then "-" else "+") + Print(pat[1..], vals[1..])
  }

  /** Whatever is printed in the shape of a pattern matches it, and the match captures the printed values. */
  lemma {:induction false} MatchPrint(pat: seq<Token>, vals: seq<int>)
    requires Printable(pat, vals)
    ensures MatchStart(Print(pat, vals), pat) == Some(vals)
    decreases |pat|
  {
    if |pat| > 0 {
      var r := Print(pat, vals);
      match pat[0]
      case Lit(c) =>
        MatchPrint(pat[1..], vals);
        assert r[1..] == Print(pat[1..], vals);
      case Spaces =>
        MatchPrint(pat[1..], vals);
        var rest := Print(pat[1..], vals);
        assert r == " " + rest;
        OneSpaceRun(rest);
      case Num =>
        MatchPrint(pat[1..], vals[1..]);
        MatchPrintNum(pat, vals);
      case Sign =>
        MatchPrint(pat[1..], vals[1..]);
        assert r[1..] == Print(pat[1..], vals[1..]);
        assert [vals[0]] + vals[1..] == vals;
    }
  }

  /** One space before a digit is a run of white space of length one. */
  lemma OneSpaceRun(rest: string)
    requires |rest| > 0 && IsDigit(rest[0])
    ensures SpaceRun(" " + rest) == 1
  {
    var r := " " + rest;
    assert r[1..] == rest;
    assert SpaceRun(rest) == 0;
  }

  /** The step of `MatchPrint` for a number: the padded digits are read back as the first value. */
  lemma MatchPrintNum(pat: seq<Token>, vals: seq<int>)
    requires Printable(pat, vals) && |pat| > 0 && pat[0] == Num
    requires MatchStart(Print(pat[1..], vals[1..]), pat[1..]) == Some(vals[1..])
    ensures MatchStart(Print(pat, vals), pat) == Some(vals)
  {
    var r := Print(pat, vals);
    var t := Padded(vals[0]);
    var rest := Print(pat[1..], vals[1..]);
    assert r == t + rest;
    DigitRunOf(t, rest);
    assert r[..|t|] == t && r[|t|..] == rest;
    assert [vals[0]] + vals[1..] == vals;
  }

  lemma PrintLit(c: char, pat: seq<Token>, vals: seq<int>)
    requires Printable(pat, vals)
    ensures Printable([Lit(c)] + pat, vals) && Print([Lit(c)] + pat, vals) == [c] + Print(pat, vals)
  {
    assert ([Lit(c)] + pat)[1..] == pat;
  }

  lemma PrintSpaces(pat: seq<Token>, vals: seq<int>)
    requires Printable(pat, vals) && |pat| > 0 && pat[0] == Num
    ensures Printable([Spaces] + pat, vals) && Print([Spaces] + pat, vals) == " " + Print(pat, vals)
  {
    assert ([Spaces] + pat)[1..] == pat;
  }

  lemma PrintNum(v: nat, pat: seq<Token>, vals: seq<int>)
    requires Printable(pat, vals) && |pat| > 0 && pat[0].Lit? && !IsDigit(pat[0].c)
    ensures Printable([Num] + pat, [v] + vals)
    ensures Print([Num] + pat, [v] + vals) == Padded(v) + Print(pat, vals)
  {
    assert ([Num] + pat)[1..] == pat;
    assert ([v] + vals)[1..] == vals;
  }

  lemma PrintSign(negative: bool, pat: seq<Token>, vals: seq<int>)
    requires Printable(pat, vals)
    ensures Printable([Sign] + pat, [if negative then -1 else 1] + vals)
    ensures Print([Sign] + pat, [if negative then -1 else 1] + vals)
         == (if negative then "-" else "+") + Print(pat, vals)
  {
    assert ([Sign] + pat)[1..] == pat;
    assert ([if negative then -1 else 1] + vals)[1..] == vals;
  }

  /** The printed right ascension reads back as the same hours, minutes and seconds. */
  lemma RaRoundTrip(h: nat, m: nat, s: nat)
    ensures Search(FormatRa(h, m, s), RaPattern) == Some([h as int, m as int, s as int])
  {
    var p7: seq<Token> := [Lit('s')];
    PrintLit('s', [], []);
    assert [Lit('s')] + [] == p7 && ['s'] + Print([], []) == "s";
    var p6 := [Num] + p7;
    PrintNum(s, p7, []);
    var p5 := [Spaces] + p6;
    PrintSpaces(p6, [s]);
    var p4 := [Lit('m')] + p5;
    PrintLit('m', p5, [s]);
    var p3 := [Num] + p4;
    PrintNum(m, p4, [s]);
    var p2 := [Spaces] + p3;
    PrintSpaces(p3, [m, s]);
    var p1 := [Lit('h')] + p2;
    PrintLit('h', p2, [m, s]);
    PrintNum(h, p1, [m, s]);
    assert [s as int] + [] == [s] && [m as int] + [s] == [m, s] && [h as int] + [m, s] == [h, m, s];
    var text := FormatRa(h, m, s);
    var a, b, c := Padded(h), Padded(m), Padded(s);
    assert Print(RaPattern, [h, m, s]) == a + (['h'] + (" " + (b + (['m'] + (" " + (c + "s"))))));
    assert text == a + "h " + b + "m " + c + "s";
    RegroupRa(a, b, c);
    MatchPrint(RaPattern, [h, m, s]);
    assert Search(text, RaPattern) == MatchStart(text, RaPattern);
  }

  lemma RegroupRa(a: string, b: string, c: string)
    ensures a + (['h'] + (" " + (b + (['m'] + (" " + (c + "s")))))) == a + "h " + b + "m " + c + "s"
  {
  }

  lemma RegroupDec(sg: string, a: string, b: string, c: string)
    ensures sg + (a + (['Â'] + (['°'] + (" " + (b + (['\''] + (" " + (c + "\""))))))))
         == sg + a + "Â° " + b + "' " + c + "\""
  {
  }

  /** The printed declination reads back as the same sign, degrees, arcminutes and arcseconds. */
  lemma DecRoundTrip(negative: bool, d: nat, m: nat, s: nat)
    ensures Search(FormatDec(negative, d, m, s), DecPattern)
         == Some([if negative then -1 else 1, d as int, m as int, s as int])
  {
    var sign: int := if negative then -1 else 1;
    var text := FormatDec(negative, d, m, s);
    DecPrinted(negative, d, m, s);
    MatchPrint(DecPattern, [sign, d, m, s]);
    assert Search(text, DecPattern) == MatchStart(text, DecPattern);
  }

  lemma DecTailPrinted(m: nat, s: nat)
    ensures Printable(DecTail, [m, s])
    ensures Print(DecTail, [m, s]) == Padded(m) + (['\''] + (" " + (Padded(s) + "\"")))
  {
    var p9: seq<Token> := [Lit('"')];
    PrintLit('"', [], []);
    assert [Lit('"')] + [] == p9 && ['"'] + Print([], []) == "\"";
    var p8 := [Num] + p9;
    PrintNum(s, p9, []);
    var p7 := [Spaces] + p8;
    PrintSpaces(p8, [s]);
    var p6 := [Lit('\'')] + p7;
    PrintLit('\'', p7, [s]);
    PrintNum(m, p6, [s]);
    assert [s as int] + [] == [s] && [m as int] + [s] == [m, s];
  }

  /** After the sign, the declination pattern prints the degrees with their mark, then the tail. */
  lemma DecBodyPrinted(d: nat, m: nat, s: nat)
    ensures Printable(DecBody, [d, m, s])
    ensures Print(DecBody, [d, m, s])
         == Padded(d) + (['Â'] + (['°'] + (" " + (Padded(m) + (['\''] + (" " + (Padded(s) + "\"")))))))
  {
    DecTailPrinted(m, s);
    var p4 := [Spaces] + DecTail;
    PrintSpaces(DecTail, [m, s]);
    var p3 := [Lit('°')] + p4;
    PrintLit('°', p4, [m, s]);
    var p2 := [Lit('Â')] + p3;
    PrintLit('Â', p3, [m, s]);
    PrintNum(d, p2, [m, s]);
    assert [d as int] + [m, s] == [d, m, s];
  }

  /** The declination pattern prints the sign, then the body. */
  lemma DecPatternPrinted(negative: bool, d: nat, m: nat, s: nat)
    ensures Printable(DecPattern, [if negative then -1 else 1, d, m, s])
    ensures Print(DecPattern, [if negative then -1 else 1, d, m, s])
         == (if negative then "-" else "+") + (Padded(d) + (['Â'] + (['°'] + (" " +
            (Padded(m) + (['\''] + (" " + (Padded(s) + "\""))))))))
  {
    DecBodyPrinted(d, m, s);
    PrintSign(negative, DecBody, [d, m, s]);
    var sign: int := if negative then -1 else 1;
    assert [sign] + [d, m, s] == [sign, d, m, s];
  }

  lemma DecPrinted(negative: bool, d: nat, m: nat, s: nat)
    ensures Printable(DecPattern, [if negative then -1 else 1, d, m, s])
    ensures Print(DecPattern, [if negative then -1 else 1, d, m, s]) == FormatDec(negative, d, m, s)
  {
    DecPatternPrinted(negative, d, m, s);
    RegroupDec(if negative then "-" else "+", Padded(d), Padded(m), Padded(s));
  }

  /** Printed coordinates convert to degrees: 15 degrees per hour of right ascension. */
  lemma CoordinatesRoundTrip(h: nat, m: nat, s: nat, negative: bool, d: nat, am: nat, as_: nat)
    ensures ParseCoordinates(FormatRa(h, m, s), FormatDec(negative, d, am, as_))
         == Some(Degrees(RaDegrees(h, m, s), DecDegrees(if negative then -1 else 1, d, am, as_)))
  {
    var ra, dec := FormatRa(h, m, s), FormatDec(negative, d, am, as_);
    RaRoundTrip(h, m, s);
    DecRoundTrip(negative, d, am, as_);
    var sign: int := if negative then -1 else 1;
    var hv: seq<int> := [h, m, s];
    var dv: seq<int> := [sign, d, am, as_];
    assert Search(ra, RaPattern) == Some(hv);
    assert Search(dec, DecPattern) == Some(dv);
  }

  /** A declination written with a plain degree sign is not recognised. */
  lemma PlainDegreeSignRejected()
    ensures ParseCoordinates("00h 42m 44s", "+41° 16' 09\"").None?
  {
    PlainDegreeSearchFails("+41° 16' 09\"");
  }

  lemma PlainDegreeSearchFails(dec: string)
    requires dec == "+41° 16' 09\""
    ensures Search(dec, DecPattern).None?
  {
    PlainDegreeMarkFails(dec[1..]);
    assert DecPattern[0] == Sign && DecPattern[1..] == DecBody;
    assert MatchStart(dec, DecPattern).None?;
    NoDecMatch(dec[1..]);
  }

  /** After the sign, two digits followed by `°` alone miss the `Â` of the degree mark. */
  lemma PlainDegreeMarkFails(t: string)
    requires t == "41° 16' 09\""
    ensures MatchStart(t, DecBody).None?
  {
    assert IsDigit(t[0]) && IsDigit(t[1]) && !IsDigit(t[2]);
    var n := DigitRun(t);
    assert n == 2;
    assert DecBody[0] == Num && DecBody[1..][0] == Lit('Â');
    assert t[n..][0] == '°';
  }

  /** Text without a `+` or `-` never matches the declination pattern. */
  lemma {:induction false} NoDecMatch(s: string)
    requires forall k :: 0 <= k < |s| ==> s[k] != '+' && s[k] != '-'
    ensures Search(s, DecPattern).None?
    decreases |s|
  {
    assert DecPattern[0] == Sign;
    assert MatchStart(s, DecPattern).None?;
    if |s| > 0 {
      NoDecMatch(s[1..]);
    }
  }

  // ---------------------------------------------------------------------------------------------
  // "HH:MM" times

  datatype Clock = Clock(hours: nat, minutes: nat)

  /** `parseTimeString`: one or two digits of hours, a colon, two digits of minutes, in range. */
  function ParseTime(t: string): (r: Option<Clock>)
    ensures t == "" ==> r.None?
    ensures r.Some? ==> r.value.hours <= 23 && r.value.minutes <= 59
  {
    if |t| < 4 || |t| > 5 then None
    else
      var colon := |t| - 3;
      var hh := t[..colon];
      var mm := t[colon + 1..];
      if t[colon] != ':' || !AllDigits(hh) || !AllDigits(mm) then None
      else
        var c := Clock(DecimalValue(hh), DecimalValue(mm));
        if c.hours > 23 || c.minutes > 59 then None else Some(c)
  }

  /** The shape `^(\d{1,2}):(\d{2})$` of a time, given its two captures. */
  predicate TimeShape(hh: string, mm: string)
  {
    1 <= |hh| <= 2 && |mm| == 2 && AllDigits(hh) && AllDigits(mm)
  }

  /** Every time that reads is one or two hour digits, a colon and two minute digits, with those values. */
  lemma ParseTimeShape(t: string, c: Clock) returns (hh: string, mm: string)
    requires ParseTime(t) == Some(c)
    ensures t == hh + ":" + mm && TimeShape(hh, mm)
    ensures c == Clock(DecimalValue(hh), DecimalValue(mm))
  {
    hh, mm := t[..|t| - 3], t[|t| - 2..];
    assert t == hh + ":" + mm;
  }

  /**
   * Text of the pattern's shape reads as its two numbers exactly when they are a time of day;
   * text of any other shape does not read (with `ParseTimeShape`, the two directions of the pattern).
   */
  lemma ParseTimeOfPieces(hh: string, mm: string)
    ensures ParseTime(hh + ":" + mm) ==
      if TimeShape(hh, mm) && DecimalValue(hh) <= 23 && DecimalValue(mm) <= 59
      then Some(Clock(DecimalValue(hh), DecimalValue(mm)))
      else None
  {
    var t := hh + ":" + mm;
    if TimeShape(hh, mm) {
      assert t[..|t| - 3] == hh && t[|t| - 3] == ':' && t[|t| - 2..] == mm;
    } else if ParseTime(t).Some? {
      var h', m' := ParseTimeShape(t, ParseTime(t).value);
      ColonAt(hh, mm, h', m');
    }
  }

  /** Where one text is split at a colon in two ways and the second split has a digit-only shape, the splits agree. */
  lemma ColonAt(hh: string, mm: string, h': string, m': string)
    requires hh + ":" + mm == h' + ":" + m' && TimeShape(h', m')
    ensures TimeShape(hh, mm)
  {
    var t := hh + ":" + mm;
    assert t[|hh|] == ':';
    assert |hh| == |h'|;
    assert hh == t[..|hh|] == h';
    assert mm == t[|hh| + 1..] == m';
  }

  /** "HH:MM", both parts padded to two digits. */
  function FormatClock(c: Clock): string
  {
    PadStart2(NatToString(c.hours)) + ":" + PadStart2(NatToString(c.minutes))
  }

  /** A number below 100 pads to exactly two digits. */
  lemma PaddedTwoDigits(n: nat)
    requires n <= 99
    ensures |Padded(n)| == 2
  {
    if n >= 10 {
      assert NatToString(n) == NatToString(n / 10) + [DigitChar(n % 10)];
    }
  }

  /** A formatted time reads back as the same time. */
  lemma ParseFormatClock(c: Clock)
    requires c.hours <= 23 && c.minutes <= 59
    ensures ParseTime(FormatClock(c)) == Some(c)
  {
    var hh, mm := Padded(c.hours), Padded(c.minutes);
    var t := FormatClock(c);
    PaddedTwoDigits(c.hours);
    PaddedTwoDigits(c.minutes);
    assert t == hh + ":" + mm;
    assert t[..2] == hh && t[3..] == mm && t[2] == ':';
  }

  /** Where a time falls in the night: valid times in evening-to-morning order, then unreadable, then empty. */
  function TimeRank(t: string): nat
  {
    if t == "" then 3001
    else match ParseTime(t)
         case None => 3000
         case Some(c) => (if c.hours < 12 then c.hours + 24 else c.hours) * 60 + c.minutes
  }

  /** `compareAstronomicalTimes`. */
  function CompareTimes(a: string, b: string): int
  {
    if a == "" && b == "" then 0
    else if a == "" then 1
    else if b == "" then -1
    else
      var pa := ParseTime(a);
      var pb := ParseTime(b);
      if pa.None? && pb.None? then 0
      else if pa.None? then 1
      else if pb.None? then -1
      else
        var ha := if pa.value.hours < 12 then pa.value.hours + 24 else pa.value.hours;
        var hb := if pb.value.hours < 12 then pb.value.hours + 24 else pb.value.hours;
        if ha != hb then ha - hb else pa.value.minutes - pb.value.minutes
  }

  /** The comparison orders times by their place in the night. */
  lemma CompareFollowsRank(a: string, b: string)
    ensures CompareTimes(a, b) < 0 <==> TimeRank(a) < TimeRank(b)
    ensures CompareTimes(a, b) == 0 <==> TimeRank(a) == TimeRank(b)
  {
  }

  /** Swapping the arguments negates the comparison. */
  lemma CompareAntisymmetric(a: string, b: string)
    ensures CompareTimes(a, b) == -CompareTimes(b, a)
  {
  }

  /** Comparing with `<= 0` is transitive, so the comparison can drive a sort. */
  lemma CompareTransitive(a: string, b: string, c: string)
    requires CompareTimes(a, b) <= 0 && CompareTimes(b, c) <= 0
    ensures CompareTimes(a, c) <= 0
  {
    CompareFollowsRank(a, b);
    CompareFollowsRank(b, c);
    CompareFollowsRank(a, c);
  }

  /** Late evening comes before the small hours. */
  lemma EveningBeforeMorning()
    ensures CompareTimes("23:00", "01:00") < 0
    ensures CompareTimes("", "01:00") > 0 && CompareTimes("25:00", "01:00") > 0
  {
    assert "01"[..1] == "0" && "25"[..1] == "2" && "23"[..1] == "2" && "00"[..1] == "0";
    assert DecimalValue("23") == 23 && DecimalValue("01") == 1 && DecimalValue("25") == 25;
    assert DecimalValue("00") == 0;
    assert "23:00"[..2] == "23" && "01:00"[..2] == "01" && "25:00"[..2] == "25";
    assert "23:00"[3..] == "00" && "01:00"[3..] == "00" && "25:00"[3..] == "00";
    assert ParseTime("23:00") == Some(Clock(23, 0));
    assert ParseTime("01:00") == Some(Clock(1, 0));
    assert ParseTime("25:00").None?;
  }

  // ---------------------------------------------------------------------------------------------
  // Altitude curves

  /** A sample of an altitude curve; `time` is in milliseconds since the epoch. */
  datatype AltitudePoint = AltitudePoint(time: int, altitude: real, isIdeal: bool)

  /** Index `i` holds the highest altitude, and no earlier point is as high. */
  predicate IsFirstHighest(data: seq<AltitudePoint>, i: int)
  {
    && 0 <= i < |data|
    && (forall j :: 0 <= j < |data| ==> data[j].altitude <= data[i].altitude)
    && (forall j :: 0 <= j < i ==> data[j].altitude < data[i].altitude)
  }

  /** There is only one first highest point. */
  lemma FirstHighestUnique(data: seq<AltitudePoint>, i: int, j: int)
    requires IsFirstHighest(data, i) && IsFirstHighest(data, j)
    ensures i == j
  {
    assert data[i].altitude <= data[j].altitude && data[j].altitude <= data[i].altitude;
  }

  /** `getMaxAltitudeTime`: the time of the first highest point, absent for an empty curve. */
  method MaxAltitudeTime(data: seq<AltitudePoint>) returns (r: Option<int>)
    ensures r.None? <==> |data| == 0
    ensures r.Some? ==> exists i :: IsFirstHighest(data, i) && r.value == data[i].time
  {
    if |data| == 0 {
      return None;
    }
    var best := 0;
    var i := 1;
    while i < |data|
      invariant 1 <= i <= |data|
      invariant 0 <= best < i
      invariant forall j :: 0 <= j < i ==> data[j].altitude <= data[best].altitude
      invariant forall j :: 0 <= j < best ==> data[j].altitude < data[best].altitude
      decreases |data| - i
    {
      if data[i].altitude > data[best].altitude {
        best := i;
      }
      i := i + 1;
    }
    assert IsFirstHighest(data, best);
    return Some(data[best].time);
  }

  function IdealPoints(data: seq<AltitudePoint>): (r: seq<AltitudePoint>)
    ensures |r| <= |data|
    decreases |data|
  {
    if |data| == 0 then []
    else if data[0].isIdeal then [data[0]] + IdealPoints(data[1..])
    else IdealPoints(data[1..])
  }

  predicate NoneIdeal(data: seq<AltitudePoint>)
  {
    forall j :: 0 <= j < |data| ==> !data[j].isIdeal
  }

  /** `i` is the first ideal point. */
  predicate FirstIdeal(data: seq<AltitudePoint>, i: int)
  {
    0 <= i < |data| && data[i].isIdeal && forall j :: 0 <= j < i ==> !data[j].isIdeal
  }

  /** `i` is the last ideal point. */
  predicate LastIdeal(data: seq<AltitudePoint>, i: int)
  {
    0 <= i < |data| && data[i].isIdeal && forall j :: i < j < |data| ==> !data[j].isIdeal
  }

  /** The filtered list is empty exactly when no point is ideal; its ends are the first and last ideal points. */
  lemma IdealPointsEnds(data: seq<AltitudePoint>)
    ensures |IdealPoints(data)| == 0 <==> NoneIdeal(data)
    ensures |IdealPoints(data)| > 0 ==>
              && (exists i :: FirstIdeal(data, i) && IdealPoints(data)[0] == data[i])
              && (exists i :: LastIdeal(data, i) && IdealPoints(data)[|IdealPoints(data)| - 1] == data[i])
  {
    IdealPointsEmpty(data);
    if |IdealPoints(data)| > 0 {
      var f := IdealPointsFirst(data);
      var l := IdealPointsLast(data);
    }
  }

  lemma {:induction false} IdealPointsEmpty(data: seq<AltitudePoint>)
    ensures |IdealPoints(data)| == 0 <==> NoneIdeal(data)
    decreases |data|
  {
    if |data| > 0 {
      var rest := data[1..];
      IdealPointsEmpty(rest);
      if !data[0].isIdeal && NoneIdeal(rest) {
        forall j | 0 <= j < |data| ensures !data[j].isIdeal {
          if j > 0 { assert data[j] == rest[j - 1]; }
        }
      }
      if !NoneIdeal(rest) {
        var j :| 0 <= j < |rest| && rest[j].isIdeal;
        assert data[j + 1] == rest[j];
      }
    }
  }

  lemma {:induction false} IdealPointsFirst(data: seq<AltitudePoint>) returns (i: nat)
    requires |IdealPoints(data)| > 0
    ensures FirstIdeal(data, i) && IdealPoints(data)[0] == data[i]
    decreases |data|
  {
    if data[0].isIdeal {
      i := 0;
    } else {
      var f := IdealPointsFirst(data[1..]);
      i := f + 1;
      assert FirstIdeal(data, i) by {
        forall j | 0 <= j < i ensures !data[j].isIdeal {
          if j > 0 { assert data[j] == data[1..][j - 1]; }
        }
      }
    }
  }

  lemma {:induction false} IdealPointsLast(data: seq<AltitudePoint>) returns (i: nat)
    requires |IdealPoints(data)| > 0
    ensures LastIdeal(data, i) && IdealPoints(data)[|IdealPoints(data)| - 1] == data[i]
    decreases |data|
  {
    var rest := data[1..];
    if |IdealPoints(rest)| == 0 {
      IdealPointsEmpty(rest);
      i := 0;
      assert LastIdeal(data, 0) by {
        forall j | 0 < j < |data| ensures !data[j].isIdeal {
          assert data[j] == rest[j - 1];
        }
      }
    } else {
      var k := IdealPointsLast(rest);
      i := k + 1;
      assert LastIdeal(data, i) by {
        forall j | i < j < |data| ensures !data[j].isIdeal {
          assert data[j] == rest[j - 1];
        }
      }
    }
  }

  /** The start and end of the ideal observing window. */
  datatype Window = Window(start: Option<int>, end: Option<int>)

  /** `getIdealObservationTimeRange`. */
  function IdealWindow(data: seq<AltitudePoint>): (w: Window)
    ensures w.start.None? <==> NoneIdeal(data)
    ensures w.start.None? <==> w.end.None?
    ensures w.start.Some? ==> exists i :: FirstIdeal(data, i) && w.start.value == data[i].time
    ensures w.end.Some? ==> exists i :: LastIdeal(data, i) && w.end.value == data[i].time
  {
    var ideal := IdealPoints(data);
    IdealEndTimes(data);
    if |ideal| == 0 then Window(None, None)
    else Window(Some(ideal[0].time), Some(ideal[|ideal| - 1].time))
  }

  /** The ends of the filtered list, by their times. */
  lemma IdealEndTimes(data: seq<AltitudePoint>)
    ensures |IdealPoints(data)| == 0 <==> NoneIdeal(data)
    ensures |IdealPoints(data)| > 0 ==> exists i :: FirstIdeal(data, i) && IdealPoints(data)[0].time == data[i].time
    ensures |IdealPoints(data)| > 0 ==>
      exists i :: LastIdeal(data, i) && IdealPoints(data)[|IdealPoints(data)| - 1].time == data[i].time
  {
    IdealPointsEnds(data);
  }

  // ---------------------------------------------------------------------------------------------
  // Compass sectors

  datatype Sector = Sector(name: string, min: real, max: real)

  /** The sixteen points of the compass; north is split across 360 degrees. */
  const Sectors: seq<Sector> := [
    Sector("N", 348.75, 360.0), Sector("N", 0.0, 11.25), Sector("NNE", 11.25, 33.75),
    Sector("NE", 33.75, 56.25), Sector("ENE", 56.25, 78.75), Sector("E", 78.75, 101.25),
    Sector("ESE", 101.25, 123.75), Sector("SE", 123.75, 146.25), Sector("SSE", 146.25, 168.75),
    Sector("S", 168.75, 191.25), Sector("SSW", 191.25, 213.75), Sector("SW", 213.75, 236.25),
    Sector("WSW", 236.25, 258.75), Sector("W", 258.75, 281.25), Sector("WNW", 281.25, 303.75),
    Sector("NW", 303.75, 326.25), Sector("NNW", 326.25, 348.75)]

  predicate InSector(s: Sector, az: real)
  {
    s.min <= az < s.max
  }

  /** Every azimuth in [0, 360) lies in a sector, and nothing else does. */
  lemma SectorsCover(az: real)
    ensures (exists k :: 0 <= k < |Sectors| && InSector(Sectors[k], az)) <==> 0.0 <= az < 360.0
  {
    if 0.0 <= az < 360.0 {
      var k := SectorOf(az);
    }
    forall k | 0 <= k < |Sectors| && InSector(Sectors[k], az) ensures 0.0 <= az < 360.0 {
      SectorWithinCircle(az, k);
    }
  }

  /** The sector of an azimuth in [0, 360). */
  lemma SectorOf(az: real) returns (k: int)
    requires 0.0 <= az < 360.0
    ensures 0 <= k < |Sectors| && InSector(Sectors[k], az)
  {
    k :=
      if az >= 348.75 then 0 else if az < 11.25 then 1 else if az < 33.75 then 2
      else if az < 56.25 then 3 else if az < 78.75 then 4 else if az < 101.25 then 5
      else if az < 123.75 then 6 else if az < 146.25 then 7 else if az < 168.75 then 8
      else if az < 191.25 then 9 else if az < 213.75 then 10 else if az < 236.25 then 11
      else if az < 258.75 then 12 else if az < 281.25 then 13 else if az < 303.75 then 14
      else if az < 326.25 then 15 else 16;
  }

  /** Only azimuths in [0, 360) lie in a sector. */
  lemma SectorWithinCircle(az: real, k: int)
    requires 0 <= k < |Sectors| && InSector(Sectors[k], az)
    ensures 0.0 <= az < 360.0
  {
  }

  /** No azimuth lies in two sectors. */
  lemma SectorsDisjoint(az: real, j: int, k: int)
    requires 0 <= j < |Sectors| && 0 <= k < |Sectors|
    requires InSector(Sectors[j], az) && InSector(Sectors[k], az)
    ensures j == k
  {
  }

  /** `azimuthToCompassDirection`: the name of the sector holding the azimuth, or "N" outside [0, 360). */
  method CompassDirection(az: real) returns (name: string)
    ensures 0.0 <= az < 360.0 ==>
              exists k :: 0 <= k < |Sectors| && InSector(Sectors[k], az) && name == Sectors[k].name
    ensures !(0.0 <= az < 360.0) ==> name == "N"
  {
    var k := 0;
    while k < |Sectors|
      invariant 0 <= k <= |Sectors|
      invariant forall j :: 0 <= j < k ==> !InSector(Sectors[j], az)
      decreases |Sectors| - k
    {
      if Sectors[k].min <= az && az < Sectors[k].max {
        SectorsCover(az);
        return Sectors[k].name;
      }
      k := k + 1;
    }
    SectorsCover(az);
    return "N";
  }
}
