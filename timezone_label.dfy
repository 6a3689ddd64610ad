/**
 * The two places in js/utils/dateUtils.js that print the local UTC offset:
 * `getTimezoneName` ("GMT+5", "GMT-3:30") and the numeric offset at the end
 * of the local `iso` layout of `formatDateTime`
 * ("2023-11-14T23:13:20.000+01:00", the date-time-with-offset layout of
 * section 5.6 of RFC 3339 except that the year is not zero-padded).
 *
 * Both take `Date.prototype.getTimezoneOffset()`, the minutes to ADD to
 * local time to get UTC (positive west of Greenwich), as a parameter, and
 * both split it with `Math.abs(Math.floor(offset / 60))` hours and
 * `Math.abs(offset % 60)` minutes. For an offset east of UTC that is not a
 * whole number of hours this counts one hour too many; the members below
 * model the code as written, and the `...Intended` members next to them
 * are the evident intent, proved to round-trip.
 */
module TimezoneLabel {
  import opened Wrappers
  import opened JsText

  // ---------------------------------------------------------------------
  // The offset split shared by both layouts, as written
  // ---------------------------------------------------------------------

  /** `Math.abs(Math.floor(offset / 60))` (Dafny's `/` by a positive number floors). */
  function OffsetHours(offset: int): nat {
    Abs(offset / 60)
  }

  /** `Math.abs(offset % 60)` with JavaScript's truncating `%`. */
  function OffsetMinutes(offset: int): nat {
    Abs(JsRem(offset, 60))
  }

  /** `offset <= 0 ? '+' : '-'`: local time ahead of UTC prints '+'. */
  function OffsetSign(offset: int): char {
    if offset <= 0 then '+' else '-'
  }

  /** The minutes east of UTC a sign, hours and minutes stand for. */
  function Denoted(sign: char, hours: nat, minutes: nat): int {
    if sign == '+' then hours * 60 + minutes else -(hours * 60 + minutes)
  }

  /**
   * What the split really denotes: the offset itself when it is west of UTC
   * or a whole number of hours, one hour more than the offset when it is
   * east of UTC with a minutes part (India, offset -330: 6 hours 30 minutes).
   */
  lemma SplitAsWritten(offset: int)
    ensures OffsetMinutes(offset) < 60
    ensures OffsetMinutes(offset) == 0 <==> offset % 60 == 0
    ensures offset >= 0 || offset % 60 == 0 ==>
              Denoted(OffsetSign(offset), OffsetHours(offset), OffsetMinutes(offset)) == -offset
    ensures offset < 0 && offset % 60 != 0 ==>
              Denoted(OffsetSign(offset), OffsetHours(offset), OffsetMinutes(offset)) == -offset + 60
  {
  }

  /** The intended split: hours and minutes of the offset's magnitude. */
  function IntendedHours(offset: int): nat {
    Abs(offset) / 60
  }

  function IntendedMinutes(offset: int): nat {
    Abs(offset) % 60
  }

  lemma SplitIntended(offset: int)
    ensures IntendedMinutes(offset) < 60
    ensures Denoted(OffsetSign(offset), IntendedHours(offset), IntendedMinutes(offset)) == -offset
  {
  }

  // ---------------------------------------------------------------------
  // getTimezoneName
  // ---------------------------------------------------------------------

  /** "GMT" and the sign, then the unpadded hours, then ":MM" only when the minutes are nonzero. */
  function GmtLabel(sign: char, hours: nat, minutes: nat): string {
    if minutes == 0 then "GMT" + [sign] + NatToString(hours)
    else "GMT" + [sign] + NatToString(hours) + ":" + PadNumber(minutes, 2)
  }

  /** `getTimezoneName()` when `new Date().getTimezoneOffset()` is offset, as written. */
  function TimezoneName(offset: int): string {
    GmtLabel(OffsetSign(offset), OffsetHours(offset), OffsetMinutes(offset))
  }

  /** `getTimezoneName()` as evidently intended. */
  function TimezoneNameIntended(offset: int): string {
    GmtLabel(OffsetSign(offset), IntendedHours(offset), IntendedMinutes(offset))
  }

  /** Reads a "GMT±H[:MM]" name back as the offset east of UTC, in minutes, that it names. */
  function ParseGmtLabel(name: string): Option<int> {
    if |name| < 5 || name[..3] != "GMT" || (name[3] != '+' && name[3] != '-') then None
    else
      var parts := Split(name[4..], ':');
      if |parts| > 2 || parts[0] == [] || !AllDigits(parts[0]) then None
      else if |parts| == 2 && (|parts[1]| != 2 || !AllDigits(parts[1])) then None
      else
        var minutes := if |parts| == 2 then DecimalValue(parts[1]) else 0;
        Some(Denoted(name[3], DecimalValue(parts[0]), minutes))
  }

  lemma DigitsHaveNoColon(s: string)
    requires AllDigits(s)
    ensures ':' !in s
  {
  }

  /** A whole-hour name "GMT±H" reads back as the hours it was built from. */
  lemma WholeHourNameReadsBack(sign: char, hours: nat)
    requires sign == '+' || sign == '-'
    ensures ParseGmtLabel(GmtLabel(sign, hours, 0)) == Some(Denoted(sign, hours, 0))
  {
    var h := NatToString(hours);
    var name := GmtLabel(sign, hours, 0);
    NatToStringRoundTrip(hours);
    DigitsHaveNoColon(h);
    assert name[..3] == "GMT" && name[3] == sign;
    assert name[4..] == h;
    SplitNoSeparator(h, ':');
  }

  /** A name "GMT±H:MM" reads back as the hours and minutes it was built from. */
  lemma MinutesNameReadsBack(sign: char, hours: nat, minutes: nat)
    requires sign == '+' || sign == '-'
    requires 0 < minutes < 60
    ensures ParseGmtLabel(GmtLabel(sign, hours, minutes)) == Some(Denoted(sign, hours, minutes))
  {
    var h, m := NatToString(hours), PadNumber(minutes, 2);
    var name := GmtLabel(sign, hours, minutes);
    NatToStringRoundTrip(hours);
    TwoDigitPad(minutes);
    DigitsHaveNoColon(h);
    DigitsHaveNoColon(m);
    assert name[..3] == "GMT" && name[3] == sign;
    assert name[4..] == h + [':'] + m;
    SplitAfterHead(h, ':', m);
    SplitNoSeparator(m, ':');
    assert Split(name[4..], ':') == [h, m];
  }

  /** A name reads back as the sign, hours and minutes it was built from. */
  lemma GmtLabelReadsBack(sign: char, hours: nat, minutes: nat)
    requires sign == '+' || sign == '-'
    requires minutes < 60
    ensures ParseGmtLabel(GmtLabel(sign, hours, minutes)) == Some(Denoted(sign, hours, minutes))
  {
    if minutes == 0 {
      WholeHourNameReadsBack(sign, hours);
    } else {
      MinutesNameReadsBack(sign, hours, minutes);
    }
  }

  /**
   * As written, the name stands for the true offset except east of UTC off the
   * hour, where it stands for one hour more.
   */
  lemma TimezoneNameDenotes(offset: int)
    ensures offset >= 0 || offset % 60 == 0 ==> ParseGmtLabel(TimezoneName(offset)) == Some(-offset)
    ensures offset < 0 && offset % 60 != 0 ==> ParseGmtLabel(TimezoneName(offset)) == Some(-offset + 60)
  {
    SplitAsWritten(offset);
    GmtLabelReadsBack(OffsetSign(offset), OffsetHours(offset), OffsetMinutes(offset));
  }

  /** The intended name always stands for the true offset. */
  lemma TimezoneNameIntendedRoundTrip(offset: int)
    ensures ParseGmtLabel(TimezoneNameIntended(offset)) == Some(-offset)
  {
    SplitIntended(offset);
    GmtLabelReadsBack(OffsetSign(offset), IntendedHours(offset), IntendedMinutes(offset));
  }

  /** The name starts "GMT" and the sign, and the ":MM" part appears exactly when the minutes are nonzero. */
  lemma TimezoneNameShape(offset: int)
    ensures TimezoneName(offset)[..3] == "GMT"
    ensures TimezoneName(offset)[3] == '+' <==> offset <= 0
    ensures ':' in TimezoneName(offset) <==> OffsetMinutes(offset) != 0
  {
    var name := TimezoneName(offset);
    var h := NatToString(OffsetHours(offset));
    DigitsHaveNoColon(h);
    if OffsetMinutes(offset) == 0 {
      assert name == "GMT" + [OffsetSign(offset)] + h;
      assert ':' !in "GMT" + [OffsetSign(offset)];
    } else {
      SplitAsWritten(offset);
      TwoDigitPad(OffsetMinutes(offset));
      var m := PadNumber(OffsetMinutes(offset), 2);
      assert name == "GMT" + [OffsetSign(offset)] + h + ":" + m;
      assert name[|name| - 3] == ':';
    }
  }

  /** UTC itself prints "GMT+0". */
  lemma UtcName()
    ensures TimezoneName(0) == "GMT+0"
  {
    assert OffsetHours(0) == 0 && OffsetMinutes(0) == 0;
    assert NatToString(0) == "0";
  }

  /** India (offset -330) prints "GMT+6:30" as written. */
  lemma IndiaOverstated()
    ensures TimezoneName(-330) == "GMT+6:30"
  {
    assert OffsetHours(-330) == 6 && OffsetMinutes(-330) == 30;
    assert NatToString(6) == "6";
    assert NatToString(30) == "30";
    assert PadNumber(30, 2) == "30";
  }

  /** For India "GMT+5:30" was meant. */
  lemma IndiaIntended()
    ensures TimezoneNameIntended(-330) == "GMT+5:30"
  {
    assert IntendedHours(-330) == 5 && IntendedMinutes(-330) == 30;
    assert NatToString(5) == "5";
    assert NatToString(30) == "30";
    assert PadNumber(30, 2) == "30";
  }

  /** Nepal (offset -345) prints "GMT+6:45" instead of "GMT+5:45". */
  lemma NepalOverstated()
    ensures TimezoneName(-345) == "GMT+6:45"
  {
    assert OffsetHours(-345) == 6 && OffsetMinutes(-345) == 45;
    assert NatToString(6) == "6";
    assert NatToString(45) == "45";
    assert PadNumber(45, 2) == "45";
  }

  /** West of UTC the split is right: Newfoundland (offset 210) prints "GMT-3:30". */
  lemma NewfoundlandCorrect()
    ensures TimezoneName(210) == "GMT-3:30"
  {
    assert OffsetHours(210) == 3 && OffsetMinutes(210) == 30;
    assert NatToString(3) == "3";
    assert NatToString(30) == "30";
    assert PadNumber(30, 2) == "30";
  }

  // ---------------------------------------------------------------------
  // The local `iso` layout of formatDateTime
  // ---------------------------------------------------------------------

  /** `±HH:MM`, as written. */
  function OffsetSuffix(offset: int): string {
    [OffsetSign(offset)] + PadNumber(OffsetHours(offset), 2) + ":" + PadNumber(OffsetMinutes(offset), 2)
  }

  /** `±HH:MM`, as evidently intended. */
  function OffsetSuffixIntended(offset: int): string {
    [OffsetSign(offset)] + PadNumber(IntendedHours(offset), 2) + ":" + PadNumber(IntendedMinutes(offset), 2)
  }

  /** Reads a `±HH:MM` suffix back as minutes east of UTC. */
  function ParseOffsetSuffix(s: string): Option<int> {
    if |s| != 6 || (s[0] != '+' && s[0] != '-') || s[3] != ':' || !AllDigits(s[1..3]) || !AllDigits(s[4..])
    then None
    else Some(Denoted(s[0], DecimalValue(s[1..3]), DecimalValue(s[4..])))
  }

  /** Numbers below 100 pad to two digits that read back as the number. */
  lemma TwoDigitPad(n: nat)
    requires n < 100
    ensures |PadNumber(n, 2)| == 2 && AllDigits(PadNumber(n, 2)) && DecimalValue(PadNumber(n, 2)) == n
  {
    Pow10Values();
    assert Pow10(2) == 100;
    PadNumberRoundTrip(n, 2);
  }

  /** Numbers below 1000 pad to three digits that read back as the number. */
  lemma ThreeDigitPad(n: nat)
    requires n < 1000
    ensures |PadNumber(n, 3)| == 3 && AllDigits(PadNumber(n, 3)) && DecimalValue(PadNumber(n, 3)) == n
  {
    Pow10Values();
    PadNumberRoundTrip(n, 3);
  }

  /** A sign, two characters, ':' and two more characters make six, in those places. */
  lemma SuffixPieces(s: string, sign: char, p: string, q: string)
    requires |p| == 2 && |q| == 2 && s == [sign] + p + ":" + q
    ensures |s| == 6 && s[0] == sign && s[3] == ':' && s[1..3] == p && s[4..] == q
  {
    FieldAt(s, [sign] + p, ':', q);
    FieldAt(s, [], sign, p);
  }

  /** Such a suffix reads back as the offset the sign, hours and minutes denote. */
  lemma SuffixReadsBack(sign: char, hours: nat, minutes: nat)
    requires sign == '+' || sign == '-'
    requires hours < 100 && minutes < 60
    ensures ParseOffsetSuffix([sign] + PadNumber(hours, 2) + ":" + PadNumber(minutes, 2))
            == Some(Denoted(sign, hours, minutes))
  {
    TwoDigitPad(hours);
    TwoDigitPad(minutes);
    var s := [sign] + PadNumber(hours, 2) + ":" + PadNumber(minutes, 2);
    SuffixPieces(s, sign, PadNumber(hours, 2), PadNumber(minutes, 2));
  }

  /**
   * As written, the suffix names the true offset except east of UTC off the
   * hour, where it names one hour more (offset -330 prints "+06:30").
   */
  lemma OffsetSuffixDenotes(offset: int)
    requires -5940 <= offset < 6000
    ensures offset >= 0 || offset % 60 == 0 ==> ParseOffsetSuffix(OffsetSuffix(offset)) == Some(-offset)
    ensures offset < 0 && offset % 60 != 0 ==> ParseOffsetSuffix(OffsetSuffix(offset)) == Some(-offset + 60)
  {
    var sign, h, m := OffsetSign(offset), OffsetHours(offset), OffsetMinutes(offset);
    SplitAsWritten(offset);
    assert -99 <= offset / 60 < 100;
    SuffixReadsBack(sign, h, m);
    assert OffsetSuffix(offset) == [sign] + PadNumber(h, 2) + ":" + PadNumber(m, 2);
  }

  /** The intended suffix names the true offset for every offset under 100 hours. */
  lemma OffsetSuffixIntendedRoundTrip(offset: int)
    requires -6000 < offset < 6000
    ensures ParseOffsetSuffix(OffsetSuffixIntended(offset)) == Some(-offset)
  {
    SplitIntended(offset);
    SuffixReadsBack(OffsetSign(offset), IntendedHours(offset), IntendedMinutes(offset));
  }

  /** India's local iso strings end in "+06:30" as written, "+05:30" as intended. */
  lemma IndiaSuffix()
    ensures OffsetSuffix(-330) == "+06:30"
    ensures OffsetSuffixIntended(-330) == "+05:30"
  {
    assert OffsetHours(-330) == 6 && OffsetMinutes(-330) == 30;
    assert IntendedHours(-330) == 5 && IntendedMinutes(-330) == 30;
    assert NatToString(6) == "6" && NatToString(5) == "5";
    assert PadNumber(6, 2) == "0" + "6";
    assert PadNumber(5, 2) == "0" + "5";
    assert NatToString(30) == "30";
    assert PadNumber(30, 2) == "30";
  }

  /** UTC ends in "+00:00"; New York in winter (offset 300) in "-05:00". */
  lemma WholeHourSuffixes()
    ensures OffsetSuffix(0) == "+00:00"
    ensures OffsetSuffix(300) == "-05:00"
  {
    assert OffsetHours(300) == 5 && OffsetMinutes(300) == 0;
    assert NatToString(0) == "0" && NatToString(5) == "5";
    assert PadNumber(0, 2) == "0" + "0";
    assert PadNumber(5, 2) == "0" + "5";
  }

  /** What the local `Date` getters return for the instant being formatted. */
  datatype LocalFields = LocalFields(
    year: int,            // getFullYear()
    monthIndex: nat,      // getMonth(), 0 for January
    day: nat,             // getDate()
    hours: nat,           // getHours()
    minutes: nat,         // getMinutes()
    seconds: nat,         // getSeconds()
    milliseconds: nat,    // getMilliseconds()
    timezoneOffset: int   // getTimezoneOffset()
  )

  /** The ranges the getters keep to (offsets of real zones are within a day). */
  predicate InRange(f: LocalFields) {
    f.monthIndex < 12 && 1 <= f.day <= 31 && f.hours < 24 && f.minutes < 60 && f.seconds < 60
    && f.milliseconds < 1000 && -1440 <= f.timezoneOffset <= 1440
  }

  /** `${year}-${month}-${day}`, the year as `String(year)` without padding. */
  function IsoDate(f: LocalFields): string {
    IntToString(f.year) + "-" + PadNumber(f.monthIndex + 1, 2) + "-" + PadNumber(f.day, 2)
  }

  /** `${hours}:${minutes}:${seconds}.${milliseconds}`. */
  function IsoTime(f: LocalFields): string {
    PadNumber(f.hours, 2) + ":" + PadNumber(f.minutes, 2) + ":" + PadNumber(f.seconds, 2)
    + "." + PadNumber(f.milliseconds, 3)
  }

  /** The date and time part: `YYYY-MM-DDTHH:MM:SS.mmm`. */
  function IsoDateTime(f: LocalFields): string {
    IsoDate(f) + "T" + IsoTime(f)
  }

  /** `formatDateTime(date, false, 'iso')`: the date and time, then the offset. */
  function IsoLocal(f: LocalFields): string {
    IsoDateTime(f) + OffsetSuffix(f.timezoneOffset)
  }

  /** A field put after a prefix and a separator sits right after them in anything that starts with all three. */
  lemma FieldAt(s: string, pre: string, sep: char, p: string)
    requires |pre| + 1 + |p| <= |s| && s[..|pre| + 1 + |p|] == pre + [sep] + p
    ensures s[..|pre|] == pre && s[|pre|] == sep && s[|pre| + 1..|pre| + 1 + |p|] == p
  {
    var n := |pre| + 1 + |p|;
    assert s[..|pre|] == s[..n][..|pre|];
    assert s[|pre| + 1..n] == s[..n][|pre| + 1..];
  }

  /** In the date, the month and the day follow the year, each after a '-'. */
  lemma DateLayout(s: string, yr: string, mo: string, d: string)
    requires |mo| == 2 && |d| == 2 && s == yr + "-" + mo + "-" + d
    ensures var y := |yr|;
            |s| == y + 6 && s[..y] == yr && s[y] == '-' && s[y + 3] == '-'
            && s[y + 1..y + 3] == mo && s[y + 4..] == d
  {
    FieldAt(s, yr + "-" + mo, '-', d);
    FieldAt(s, yr, '-', mo);
  }

  /** In the time, every field has a fixed place. */
  lemma TimeLayout(s: string, h: string, mi: string, se: string, ms: string)
    requires |h| == 2 && |mi| == 2 && |se| == 2 && |ms| == 3
    requires s == h + ":" + mi + ":" + se + "." + ms
    ensures |s| == 12 && s[2] == ':' && s[5] == ':' && s[8] == '.'
            && s[..2] == h && s[3..5] == mi && s[6..8] == se && s[9..] == ms
  {
    FieldAt(s, h + ":" + mi + ":" + se, '.', ms);
    FieldAt(s, h + ":" + mi, ':', se);
    FieldAt(s, h, ':', mi);
  }

  /** A separator between two strings sits right after the first. */
  lemma JoinLayout(s: string, a: string, sep: char, b: string)
    requires s == a + [sep] + b
    ensures |s| == |a| + 1 + |b| && s[..|a|] == a && s[|a|] == sep && s[|a| + 1..] == b
  {
    FieldAt(s, a, sep, b);
  }

  /**
   * The date is the year, then the month (getMonth() + 1) and the day, each
   * zero-padded to two digits after a '-'.
   */
  lemma IsoDateFields(f: LocalFields)
    requires InRange(f)
    ensures var y, s := |IntToString(f.year)|, IsoDate(f);
            |s| == y + 6 && s[..y] == IntToString(f.year) && s[y] == '-' && s[y + 3] == '-'
            && s[y + 1..y + 3] == PadNumber(f.monthIndex + 1, 2) && s[y + 4..] == PadNumber(f.day, 2)
  {
    TwoDigitPad(f.monthIndex + 1);
    TwoDigitPad(f.day);
    DateLayout(IsoDate(f), IntToString(f.year), PadNumber(f.monthIndex + 1, 2), PadNumber(f.day, 2));
  }

  /**
   * The time is always 12 characters: hours, minutes and seconds in two
   * digits separated by ':', then '.' and the milliseconds in three digits.
   */
  lemma IsoTimeFields(f: LocalFields)
    requires InRange(f)
    ensures var s := IsoTime(f);
            |s| == 12 && s[2] == ':' && s[5] == ':' && s[8] == '.'
            && s[..2] == PadNumber(f.hours, 2) && s[3..5] == PadNumber(f.minutes, 2)
            && s[6..8] == PadNumber(f.seconds, 2) && s[9..] == PadNumber(f.milliseconds, 3)
  {
    TwoDigitPad(f.hours);
    TwoDigitPad(f.minutes);
    TwoDigitPad(f.seconds);
    ThreeDigitPad(f.milliseconds);
    TimeLayout(IsoTime(f), PadNumber(f.hours, 2), PadNumber(f.minutes, 2), PadNumber(f.seconds, 2),
               PadNumber(f.milliseconds, 3));
  }

  /** The date and the time are joined by 'T', which sits 6 characters after the year. */
  lemma IsoDateTimeJoin(f: LocalFields)
    requires InRange(f)
    ensures var d, s := IsoDate(f), IsoDateTime(f);
            |d| == |IntToString(f.year)| + 6 && |s| == |d| + 13
            && s[..|d|] == d && s[|d|] == 'T' && s[|d| + 1..] == IsoTime(f)
  {
    IsoDateFields(f);
    IsoTimeFields(f);
    JoinLayout(IsoDateTime(f), IsoDate(f), 'T', IsoTime(f));
  }

  /** For offsets under 100 hours the suffix is six characters, led by the sign, with ':' in the middle. */
  lemma OffsetSuffixShape(offset: int)
    requires -5940 <= offset < 6000
    ensures var t := OffsetSuffix(offset);
            |t| == 6 && t[0] == OffsetSign(offset) && t[3] == ':'
  {
    SplitAsWritten(offset);
    TwoDigitPad(OffsetHours(offset));
    TwoDigitPad(OffsetMinutes(offset));
    SuffixPieces(OffsetSuffix(offset), OffsetSign(offset), PadNumber(OffsetHours(offset), 2),
                 PadNumber(OffsetMinutes(offset), 2));
  }

  /**
   * The local iso string is the date and time followed by the six-character
   * offset suffix, whose sign is '+' exactly when the offset is not west of UTC.
   */
  lemma IsoLocalEndsWithOffset(f: LocalFields)
    requires InRange(f)
    ensures var s := IsoLocal(f);
            |s| == |IsoDateTime(f)| + 6 && s[..|s| - 6] == IsoDateTime(f)
            && s[|s| - 6..] == OffsetSuffix(f.timezoneOffset)
            && (s[|s| - 6] == '+' <==> f.timezoneOffset <= 0)
  {
    OffsetSuffixShape(f.timezoneOffset);
    var d, t := IsoDateTime(f), OffsetSuffix(f.timezoneOffset);
    var s := IsoLocal(f);
    assert s == d + t;
    assert s[..|d|] == d;
    assert s[|d|..] == t;
  }

  /**
   * The last six characters of the local iso string read back as the true
   * offset, except east of UTC off the hour, where they read one hour more.
   */
  lemma IsoLocalOffsetReadsBack(f: LocalFields)
    requires InRange(f)
    ensures var s, o := IsoLocal(f), f.timezoneOffset;
            o >= 0 || o % 60 == 0 ==> ParseOffsetSuffix(s[|s| - 6..]) == Some(-o)
    ensures var s, o := IsoLocal(f), f.timezoneOffset;
            o < 0 && o % 60 != 0 ==> ParseOffsetSuffix(s[|s| - 6..]) == Some(-o + 60)
  {
    IsoLocalEndsWithOffset(f);
    OffsetSuffixDenotes(f.timezoneOffset);
  }
}
