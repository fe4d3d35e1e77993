/** The observation schedule: end times, time formatting, conflicts and the item editor. */
module Schedule {
  import opened Wrappers
  import opened Text
  import opened Seqs
  import opened AstronomyUtils

  /** One planned observation of a schedule. */
  datatype PlanningItem = PlanningItem(
    id: string,
    objectName: string,
    startTime: string,
    duration: int,
    ra: string,
    dec: string,
    magnitude: string,
    objectType: Option<string>)

  /** A stored schedule of one user. */
  datatype ObservationSchedule = ObservationSchedule(
    id: string,
    userId: string,
    name: string,
    description: Option<string>,
    scheduledDate: Option<string>,
    location: Option<string>,
    items: seq<PlanningItem>,
    isActive: bool,
    createdAt: string,
    updatedAt: string)

  // ---------------------------------------------------------------------------------------------
  // End times

  /**
   * `Number(piece)` for the pieces of a time, in its integer forms: trimmed of JavaScript
   * whitespace, the piece is empty (which reads as 0) or an optional sign and decimal digits.
   * Any other text reads as NaN, here `None`.
   */
  function NumberOf(piece: string): (r: Option<int>)
    ensures AllDigits(piece) ==> r == Some(DecimalValue(piece))
    ensures r.Some? ==> r.value < 0 ==> '-' in piece
  {
    DigitsTrimmed(piece);
    var t := Trim(piece, JavaScript);
    TrimStartIsSuffix(piece, JavaScript);
    TrimEndIsPrefix(TrimStart(piece, JavaScript), JavaScript);
    if AllDigits(t) then Some(DecimalValue(t))
    else if |t| >= 2 && t[0] in "+-" && AllDigits(t[1..]) then
      var value: int := DecimalValue(t[1..]);
      Some(if t[0] == '-' then -value else value)
    else None
  }

  /** Digits are not whitespace, so a run of digits trims to itself. */
  lemma DigitsTrimmed(piece: string)
    ensures AllDigits(piece) ==> Trim(piece, JavaScript) == piece
  {
    if AllDigits(piece) && |piece| > 0 {
      assert IsDigit(piece[0]) && IsDigit(piece[|piece| - 1]);
      TrimOfTrimmed(piece, JavaScript);
    }
  }

  /** `Number` reads back every integer `String` prints. */
  lemma NumberOfIntToString(i: int)
    ensures NumberOf(IntToString(i)) == Some(i)
  {
    if i >= 0 {
      assert IntToString(i) == NatToString(i);
      NumberOfNatural(i);
    } else {
      assert IntToString(i) == "-" + NatToString(-i);
      NumberOfNegative(-i);
    }
  }

  lemma NumberOfNatural(n: nat)
    ensures NumberOf(NatToString(n)) == Some(n)
  {
    DecimalOfNatToString(n);
  }

  lemma NumberOfNegative(n: nat)
    requires n > 0
    ensures NumberOf("-" + NatToString(n)) == Some(-(n as int))
  {
    var d := NatToString(n);
    DecimalOfNatToString(n);
    SignedTrimmed(d);
    var t := "-" + d;
    assert t[1..] == d;
    assert !AllDigits(t) by { assert !IsDigit(t[0]); }
  }

  /** A minus sign followed by digits is already trimmed. */
  lemma SignedTrimmed(d: string)
    requires |d| > 0 && AllDigits(d)
    ensures Trim("-" + d, JavaScript) == "-" + d
  {
    var t := "-" + d;
    assert IsTrimmed(t, JavaScript) by {
      assert t[|t| - 1] == d[|d| - 1];
      assert IsDigit(t[|t| - 1]);
    }
    TrimOfTrimmed(t, JavaScript);
  }

  /** Space around a piece is dropped, and a sign is read. */
  lemma NumberSpacedAndSigned()
    ensures NumberOf(" 7") == Some(7) && NumberOf("-1") == Some(-1)
  {
    assert Trim(" 7", JavaScript) == "7";
    assert Trim("-1", JavaScript) == "-1";
  }

  /** Text that is not a signed run of digits is NaN. */
  lemma NumberNaN()
    ensures NumberOf("7a").None? && NumberOf("-").None?
  {
    assert Trim("7a", JavaScript) == "7a";
    assert Trim("-", JavaScript) == "-";
  }

  /** A number as the end-time text shows it: padded to two characters, or "NaN". */
  function Shown(n: Option<int>): string
  {
    match n
    case None => "NaN"
    case Some(v) => PadStart2(IntToString(v))
  }

  /**
   * `calculateEndTime`: the start's hours and minutes plus the duration, the minutes carried
   * into the hours by floor division and both wrapped with JavaScript's `%`.
   */
  function EndTime(start: string, duration: int): (r: string)
    ensures r == "" <==> start == ""
  {
    if start == "" then ""
    else
      var parts := Split(start, ':');
      EndText(NumberOf(parts[0]), if |parts| > 1 then NumberOf(parts[1]) else None, duration)
  }

  /** The end time from the numbers of the start's pieces (`None` for NaN, which spreads). */
  function EndText(hours: Option<int>, minutes: Option<int>, duration: int): (r: string)
    ensures r != ""
  {
    if minutes.None? then "NaN:NaN"
    else JoinClock(EndHours(hours, minutes.value + duration), Some(JsRem(minutes.value + duration, 60)))
  }

  /** Two shown numbers around a colon. */
  function JoinClock(hours: Option<int>, minutes: Option<int>): (r: string)
    ensures r != ""
  {
    Shown(hours) + ":" + Shown(minutes)
  }

  /** The hours of the end time: the start's hours plus the carried hours, wrapped at 24. */
  function EndHours(hours: Option<int>, endMinutes: int): Option<int>
  {
    if hours.None? then None else Some(JsRem(hours.value + endMinutes / 60, 24))
  }

  /** Minutes since midnight. */
  function MinutesOfDay(c: Clock): nat
  {
    c.hours * 60 + c.minutes
  }

  /** The carry arithmetic of the end time is addition of minutes modulo a day. */
  lemma CarryIsModuloDay(c: Clock, duration: nat)
    requires c.hours <= 23 && c.minutes <= 59
    ensures MinutesOfDay(EndClock(c.hours, c.minutes, duration)) == (MinutesOfDay(c) + duration) % 1440
  {
    var endMinutes := c.minutes + duration;
    var endHours := c.hours + endMinutes / 60;
    var x := MinutesOfDay(EndClock(c.hours, c.minutes, duration));
    var t := MinutesOfDay(c) + duration;
    assert x == (endHours % 24) * 60 + endMinutes % 60;
    assert t == c.hours * 60 + c.minutes + duration;
    assert endMinutes == (endMinutes / 60) * 60 + endMinutes % 60;
    assert endHours == (endHours / 24) * 24 + endHours % 24;
    assert t == (endHours / 24) * 1440 + x;
    DayRemainder(t, endHours / 24, x);
  }

  /** A count of minutes is its whole days and a remainder below a day. */
  lemma DayRemainder(t: int, days: int, x: int)
    requires t == days * 1440 + x && 0 <= x < 1440
    ensures t % 1440 == x
  {
  }

  /** A valid time is its hour digits, a colon and its minute digits. */
  lemma SplitValidTime(t: string, c: Clock) returns (hh: string, mm: string)
    requires ParseTime(t) == Some(c)
    ensures Split(t, ':') == [hh, mm]
    ensures AllDigits(hh) && AllDigits(mm) && 1 <= |hh| <= 2 && |mm| == 2
    ensures DecimalValue(hh) == c.hours && DecimalValue(mm) == c.minutes
  {
    var colon := |t| - 3;
    hh, mm := t[..colon], t[colon + 1..];
    assert t == hh + [':'] + mm;
    assert ':' !in hh && ':' !in mm;
    SplitPrefix(hh, ':', mm);
    SplitNoSep(mm, ':');
  }

  /** The clock the end-time arithmetic reaches from numbers: minutes carried, both parts wrapped. */
  function EndClock(hours: nat, minutes: nat, duration: nat): Clock
  {
    Clock((hours + (minutes + duration) / 60) % 24, (minutes + duration) % 60)
  }

  /** For numbers and a non-negative duration, the end time is the end clock, formatted. */
  lemma EndTextOfNumbers(hours: nat, minutes: nat, duration: nat)
    ensures EndText(Some(hours), Some(minutes), duration) == FormatClock(EndClock(hours, minutes, duration))
  {
    EndTextOfClock(Some(hours), Some(minutes), duration, EndClock(hours, minutes, duration));
  }

  /** An end time whose two wrapped parts are a clock's parts is that clock, formatted. */
  lemma EndTextOfClock(hours: Option<int>, minutes: Option<int>, duration: int, c: Clock)
    requires minutes.Some?
    requires EndHours(hours, minutes.value + duration) == Some(c.hours)
    requires JsRem(minutes.value + duration, 60) == c.minutes
    ensures EndText(hours, minutes, duration) == FormatClock(c)
  {
    EndTextJoin(hours, minutes, duration);
    FormatClockJoin(c);
  }

  /** The end time of known minutes is the end hours and the wrapped minutes around a colon. */
  lemma EndTextJoin(hours: Option<int>, minutes: Option<int>, duration: int)
    requires minutes.Some?
    ensures EndText(hours, minutes, duration)
         == JoinClock(EndHours(hours, minutes.value + duration), Some(JsRem(minutes.value + duration, 60)))
  {
  }

  /** A formatted clock is its two numbers shown around a colon. */
  lemma FormatClockJoin(c: Clock)
    ensures FormatClock(c) == JoinClock(Some(c.hours), Some(c.minutes))
  {
  }

  /** The end time of a start made of two digit pieces, for a non-negative duration. */
  lemma EndTimeOfPieces(start: string, hh: string, mm: string, duration: nat)
    requires start != "" && Split(start, ':') == [hh, mm] && AllDigits(hh) && AllDigits(mm)
    ensures EndTime(start, duration) == EndText(Some(DecimalValue(hh)), Some(DecimalValue(mm)), duration)
  {
  }

  /**
   * For a valid start and a non-negative duration the end time is a valid time, the start
   * moved on by the duration around a 24-hour clock.
   */
  lemma EndTimeOfValid(start: string, c: Clock, duration: nat) returns (end: Clock)
    requires ParseTime(start) == Some(c)
    ensures ParseTime(EndTime(start, duration)) == Some(end)
    ensures MinutesOfDay(end) == (MinutesOfDay(c) + duration) % 1440
  {
    EndTimeOfClock(start, c, duration);
    end := EndTextValid(c, duration);
  }

  /** The end time of a valid start is the end text of its parsed hours and minutes. */
  lemma EndTimeOfClock(start: string, c: Clock, duration: nat)
    requires ParseTime(start) == Some(c)
    ensures EndTime(start, duration) == EndText(Some(c.hours), Some(c.minutes), duration)
  {
    var hh, mm := SplitValidTime(start, c);
    EndTimeOfPieces(start, hh, mm, duration);
  }

  lemma EndTextValid(c: Clock, duration: nat) returns (end: Clock)
    requires c.hours <= 23 && c.minutes <= 59
    ensures ParseTime(EndText(Some(c.hours), Some(c.minutes), duration)) == Some(end)
    ensures MinutesOfDay(end) == (MinutesOfDay(c) + duration) % 1440
  {
    end := EndClockValid(c, duration);
    EndTextOfNumbers(c.hours, c.minutes, duration);
    ParseFormatClock(end);
  }

  /** The end clock of a valid clock is valid and lies the duration later on a 24-hour dial. */
  lemma EndClockValid(c: Clock, duration: nat) returns (end: Clock)
    requires c.hours <= 23 && c.minutes <= 59
    ensures end == EndClock(c.hours, c.minutes, duration)
    ensures end.hours <= 23 && end.minutes <= 59
    ensures MinutesOfDay(end) == (MinutesOfDay(c) + duration) % 1440
  {
    end := EndClock(c.hours, c.minutes, duration);
    CarryIsModuloDay(c, duration);
  }

  // ---------------------------------------------------------------------------------------------
  // Formatting a time

  /**
   * `formatTime`: both pieces around the first colon padded to two characters. A non-empty
   * text without a colon has no minutes piece, and `padStart` on it throws (`None`).
   */
  function FormatTime(time: string): (r: Option<string>)
    ensures time == "" ==> r == Some("")
    ensures r.None? <==> time != "" && ':' !in time
  {
    if time == "" then Some("")
    else
      var parts := Split(time, ':');
      if |parts| < 2 then
        SplitNoColon(time);
        None
      else
        SplitHasColon(time);
        Some(PadStart2(parts[0]) + ":" + PadStart2(parts[1]))
  }

  lemma SplitNoColon(s: string)
    requires |Split(s, ':')| < 2
    ensures ':' !in s
  {
    JoinSplit(s, ':');
  }

  lemma SplitHasColon(s: string)
    requires |Split(s, ':')| >= 2
    ensures ':' in s
  {
    if ':' !in s { SplitNoSep(s, ':'); }
  }

  /** One or two digits pad to the same text as their value printed and padded. */
  lemma PadDigits(s: string)
    requires AllDigits(s) && 1 <= |s| <= 2
    ensures PadStart2(s) == Padded(DecimalValue(s))
  {
    if |s| == 1 {
      PadOneDigitText(s);
    } else {
      PadTwoDigitText(s);
    }
  }

  lemma PadOneDigitText(s: string)
    requires AllDigits(s) && |s| == 1
    ensures PadStart2(s) == Padded(DecimalValue(s))
  {
    var a := s[0];
    assert s == [a];
    PadOneDigit(a);
  }

  lemma PadTwoDigitText(s: string)
    requires AllDigits(s) && |s| == 2
    ensures PadStart2(s) == Padded(DecimalValue(s))
  {
    var a, b := s[0], s[1];
    assert s == [a, b];
    PadTwoDigits(a, b);
  }

  lemma PadOneDigit(a: char)
    requires IsDigit(a)
    ensures PadStart2([a]) == Padded(DecimalValue([a]))
  {
    assert [a][..0] == "";
    assert DigitChar(DigitValue(a)) == a;
  }

  lemma PadTwoDigits(a: char, b: char)
    requires IsDigit(a) && IsDigit(b)
    ensures PadStart2([a, b]) == Padded(DecimalValue([a, b]))
  {
    assert [a, b][..1] == [a] && [a][..0] == "";
    var v := DecimalValue([a, b]);
    assert DecimalValue([a]) == DigitValue(a) by { assert [a][..0] == ""; }
    assert v == DigitValue(a) * 10 + DigitValue(b);
    assert DigitChar(DigitValue(b)) == b;
    if a == '0' {
      assert NatToString(v) == [b];
    } else {
      assert DigitChar(DigitValue(a)) == a;
      assert v / 10 == DigitValue(a) && v % 10 == DigitValue(b);
      assert NatToString(v) == NatToString(v / 10) + [DigitChar(v % 10)];
    }
  }

  /** Formatting a valid time writes it with two-digit hours ("7:05" becomes "07:05"). */
  lemma FormatTimeOfValid(time: string, c: Clock)
    requires ParseTime(time) == Some(c)
    ensures FormatTime(time) == Some(FormatClock(c))
  {
    var hh, mm := SplitValidTime(time, c);
    PadDigits(hh);
    PadDigits(mm);
  }

  // ---------------------------------------------------------------------------------------------
  // Conflicts

  /**
   * The three overlap clauses of the conflict check, on "HH:MM" texts compared as strings:
   * the new start falls inside the item, the new end falls inside it, or the new slot covers it.
   */
  predicate Overlaps(checkStart: string, checkEnd: string, start: string, end: string)
  {
    || (StrLessEq(start, checkStart) && StrLess(checkStart, end))
    || (StrLess(start, checkEnd) && StrLessEq(checkEnd, end))
    || (StrLessEq(checkStart, start) && StrLessEq(end, checkEnd))
  }

  /** The item is reported: it is not the item being edited and its slot overlaps. */
  function IsConflict(editedId: string, checkStart: string, checkEnd: string): PlanningItem -> bool
  {
    (it: PlanningItem) => it.id != editedId && Overlaps(checkStart, checkEnd, it.startTime, EndTime(it.startTime, it.duration))
  }

  /**
   * `getScheduleConflicts`: the items of the active schedule, other than the one being edited,
   * whose slot overlaps the slot starting at `checkStart` for `checkDuration` minutes.
   */
  method GetScheduleConflicts(active: Option<ObservationSchedule>, checkStart: string, checkDuration: int,
                              item: Option<PlanningItem>) returns (conflicts: seq<PlanningItem>)
    ensures active.None? || checkStart == "" || item.None? ==> conflicts == []
    ensures active.Some? && checkStart != "" && item.Some? ==>
      conflicts == Filter(active.value.items, IsConflict(item.value.id, checkStart, EndTime(checkStart, checkDuration)))
  {
    conflicts := [];
    if active.None? || checkStart == "" || item.None? {
      return;
    }
    var items := active.value.items;
    var isConflict := IsConflict(item.value.id, checkStart, EndTime(checkStart, checkDuration));
    var i := 0;
    while i < |items|
      invariant 0 <= i <= |items|
      invariant conflicts == Filter(items[..i], isConflict)
    {
      var it := items[i];
      FilterStep(items, i, isConflict);
      if isConflict(it) {
        conflicts := conflicts + [it];
      }
      i := i + 1;
    }
    assert items[..i] == items;
  }

  /**
   * The conflicts are a sub-list of the schedule in its order; an item is among them exactly
   * when it is not the edited item and its slot overlaps; the edited item never is.
   */
  lemma ConflictsAreOverlappingOthers(items: seq<PlanningItem>, editedId: string, checkStart: string, checkEnd: string)
    ensures Subsequence(Filter(items, IsConflict(editedId, checkStart, checkEnd)), items)
    ensures forall it :: it in Filter(items, IsConflict(editedId, checkStart, checkEnd)) <==>
      it in items && it.id != editedId && Overlaps(checkStart, checkEnd, it.startTime, EndTime(it.startTime, it.duration))
  {
    FilterSubsequence(items, IsConflict(editedId, checkStart, checkEnd));
    FilterMembers(items, IsConflict(editedId, checkStart, checkEnd));
  }

  /**
   * Slots that cross midnight are missed: an item from 23:00 for two hours ends at "01:00",
   * and a new slot from 23:30 for half an hour overlaps it but is not reported.
   */
  lemma MidnightOverlapMissed(itemStart: string, checkStart: string)
    requires itemStart == "23:00" && checkStart == "23:30"
    ensures EndTime(itemStart, 120) == "01:00" && EndTime(checkStart, 30) == "00:00"
    ensures !Overlaps(checkStart, EndTime(checkStart, 30), itemStart, EndTime(itemStart, 120))
  {
    assert itemStart == "23" + ":" + "00" && checkStart == "23" + ":" + "30";
    assert DecimalValue("00") == 0 && DecimalValue("30") == 30 by { assert "00"[..1] == "0" && "30"[..1] == "3"; }
    EndAtElevenPm(itemStart, "00", 0, 120);
    EndAtElevenPm(checkStart, "30", 30, 30);
    EndTextOneAm();
    EndTextMidnight();
    MidnightOrder();
  }

  /** The end time of a start at 23:mm. */
  lemma EndAtElevenPm(start: string, mm: string, minutes: nat, duration: nat)
    requires start == "23" + ":" + mm && |mm| == 2 && AllDigits(mm) && DecimalValue(mm) == minutes
    ensures EndTime(start, duration) == EndText(Some(23), Some(minutes), duration)
  {
    SmallDecimals();
    EndOfTwoDigitPieces(start, "23", mm, 23, minutes, duration);
  }

  lemma EndTextOneAm()
    ensures EndText(Some(23), Some(0), 120) == "01:00"
  {
    EndTextAt(23, 0, 120, 1, 0);
    PaddedSmall();
  }

  lemma EndTextMidnight()
    ensures EndText(Some(23), Some(30), 30) == "00:00"
  {
    EndTextAt(23, 30, 30, 0, 0);
    PaddedSmall();
  }

  lemma EndTextAt(hours: nat, minutes: nat, duration: nat, endHours: nat, endMinutes: nat)
    requires (hours + (minutes + duration) / 60) % 24 == endHours && (minutes + duration) % 60 == endMinutes
    ensures EndText(Some(hours), Some(minutes), duration) == FormatClock(Clock(endHours, endMinutes))
  {
    EndTextOfNumbers(hours, minutes, duration);
  }

  lemma SmallDecimals()
    ensures |"23"| == 2 && AllDigits("23") && DecimalValue("23") == 23
  {
    assert "23"[..1] == "2";
  }

  lemma PaddedSmall()
    ensures FormatClock(Clock(1, 0)) == "01:00" && FormatClock(Clock(0, 0)) == "00:00"
  {
  }

  /** The end of a slot whose start is two digits, a colon and two digits. */
  lemma EndOfTwoDigitPieces(start: string, hh: string, mm: string, hours: nat, minutes: nat, duration: nat)
    requires start == hh + ":" + mm && |hh| == 2 && |mm| == 2 && AllDigits(hh) && AllDigits(mm)
    requires DecimalValue(hh) == hours && DecimalValue(mm) == minutes
    ensures EndTime(start, duration) == EndText(Some(hours), Some(minutes), duration)
  {
    TwoDigitPieces(start, hh, mm);
    EndTimeOfPieces(start, hh, mm, duration);
  }

  lemma TwoDigitPieces(t: string, hh: string, mm: string)
    requires t == hh + ":" + mm && |hh| == 2 && |mm| == 2 && AllDigits(hh) && AllDigits(mm)
    ensures Split(t, ':') == [hh, mm]
  {
    assert ':' !in hh && ':' !in mm;
    assert t == hh + [':'] + mm;
    SplitPrefix(hh, ':', mm);
    SplitNoSep(mm, ':');
  }

  lemma MidnightOrder()
    ensures !Overlaps("23:30", "00:00", "23:00", "01:00")
  {
    assert StrLess("00:00", "23:00") && StrLess("01:00", "23:30");
    StrLessAsymmetric("01:00", "23:30");
    StrLessAsymmetric("00:00", "23:00");
  }

  // ---------------------------------------------------------------------------------------------
  // Saving an edited item

  /**
   * `handleSave`: nothing is saved without an item, with a blank name or without a start;
   * otherwise the item keeps every field but the trimmed name, the start and the duration.
   */
  function HandleSave(item: Option<PlanningItem>, objectName: string, startTime: string, duration: int): (r: Option<PlanningItem>)
    ensures r.Some? <==> item.Some? && Trim(objectName, JavaScript) != "" && startTime != ""
    ensures r.Some? ==>
      && r.value.objectName == Trim(objectName, JavaScript) && r.value.startTime == startTime && r.value.duration == duration
      && r.value.id == item.value.id && r.value.ra == item.value.ra && r.value.dec == item.value.dec
      && r.value.magnitude == item.value.magnitude && r.value.objectType == item.value.objectType
  {
    if item.None? || Trim(objectName, JavaScript) == "" || startTime == "" then None
    else Some(item.value.(objectName := Trim(objectName, JavaScript), startTime := startTime, duration := duration))
  }
}
