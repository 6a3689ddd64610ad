/**
 * `formatTimeDifference` (js/utils/dateUtils.js): the distance between a
 * timestamp and the current time in words, "just now", "in 2 hours 15
 * minutes" or "3 days ago". The clock reading `Date.now()` is a parameter.
 */
module RelativeTime {
  import opened JsText

  /** The units the wording uses; a month is 30 days and a year 365 days. */
  datatype TimeUnit = Minutes | Hours | Days | Weeks | Months | Years {
    function Seconds(): nat {
      match this
      case Minutes => 60
      case Hours => 3600
      case Days => 86400
      case Weeks => 604800
      case Months => 2592000
      case Years => 31536000
    }

    function Singular(): string {
      match this
      case Minutes => "minute"
      case Hours => "hour"
      case Days => "day"
      case Weeks => "week"
      case Months => "month"
      case Years => "year"
    }

    function Plural(): string {
      Singular() + "s"
    }
  }

  /**
   * The bucket a distance falls in: "just now", or a leading count of the
   * largest unit that fits, with the remainder counted in the next smaller
   * unit (the minute bucket has no remainder: its remainder unit is minutes
   * and the remainder is always 0).
   */
  datatype Span = JustNow | Amount(lead: nat, unit: TimeUnit, rest: nat, restUnit: TimeUnit)

  /**
   * The bucket selection of lines 249-306: "just now" exactly under a
   * minute, else a leading count of at least one.
   */
  function Bucket(absDiff: nat): (s: Span)
    ensures s == JustNow <==> absDiff < 60
    ensures s.Amount? ==> s.lead >= 1
  {
    if absDiff < 60 then JustNow
    else if absDiff < 3600 then Amount(absDiff / 60, Minutes, 0, Minutes)
    else if absDiff < 86400 then Amount(absDiff / 3600, Hours, (absDiff % 3600) / 60, Minutes)
    else if absDiff < 604800 then Amount(absDiff / 86400, Days, (absDiff % 86400) / 3600, Hours)
    else if absDiff < 2592000 then Amount(absDiff / 604800, Weeks, (absDiff % 604800) / 86400, Days)
    else if absDiff < 31536000 then Amount(absDiff / 2592000, Months, (absDiff % 2592000) / 86400, Days)
    else Amount(absDiff / 31536000, Years, (absDiff % 31536000) / 2592000, Months)
  }

  /** x counted in whole units, the rest in whole sub-units, undercounts x by less than one sub-unit. */
  lemma SplitBounds(x: nat, unit: nat, sub: nat)
    requires 0 < sub <= unit
    ensures (x / unit) * unit + ((x % unit) / sub) * sub <= x
    ensures x < (x / unit) * unit + ((x % unit) / sub + 1) * sub
  {
    var q, m := x / unit, x % unit;
    var r, t := m / sub, m % sub;
    assert x == q * unit + m;
    assert m == r * sub + t;
    assert (r + 1) * sub == r * sub + sub;
  }

  /** Every bucket undercounts the distance, by less than one remainder unit. */
  lemma BucketBrackets(absDiff: nat)
    ensures var s := Bucket(absDiff);
            s.Amount? ==>
              s.lead * s.unit.Seconds() + s.rest * s.restUnit.Seconds() <= absDiff
              < s.lead * s.unit.Seconds() + (s.rest + 1) * s.restUnit.Seconds()
  {
    if absDiff < 60 {
    } else if absDiff < 3600 {
      SplitBounds(absDiff, 60, 60);
    } else if absDiff < 86400 {
      SplitBounds(absDiff, 3600, 60);
    } else if absDiff < 604800 {
      SplitBounds(absDiff, 86400, 3600);
    } else if absDiff < 2592000 {
      SplitBounds(absDiff, 604800, 86400);
    } else if absDiff < 31536000 {
      SplitBounds(absDiff, 2592000, 86400);
    } else {
      SplitBounds(absDiff, 31536000, 2592000);
    }
  }

  /**
   * Each count stays in the range its bucket allows: no "60 minutes", no
   * "24 hours", no "7 days"; the remainder unit is the next smaller one.
   */
  lemma BucketRanges(absDiff: nat)
    ensures var s := Bucket(absDiff);
            && (s.Amount? && s.unit == Minutes ==> s.lead <= 59 && s.rest == 0)
            && (s.Amount? && s.unit == Hours ==> s.lead <= 23 && s.rest <= 59 && s.restUnit == Minutes)
            && (s.Amount? && s.unit == Days ==> s.lead <= 6 && s.rest <= 23 && s.restUnit == Hours)
            && (s.Amount? && s.unit == Weeks ==> s.lead <= 4 && s.rest <= 6 && s.restUnit == Days)
            && (s.Amount? && s.unit == Months ==> s.lead <= 12 && s.rest <= 29 && s.restUnit == Days)
            && (s.Amount? && s.unit == Years ==> s.rest <= 12 && s.restUnit == Months)
  {
  }

  /** "1 hour", "2 hours": the unit word is singular exactly for the count 1. */
  function Quantity(n: nat, u: TimeUnit): string {
    NatToString(n) + " " + (if n == 1 then u.Singular() else u.Plural())
  }

  /** The `result` string of the source before the prefix or suffix is added. */
  function Phrase(s: Span): string {
    match s
    case JustNow => "just now"
    case Amount(n, u, r, ru) => if r == 0 then Quantity(n, u) else Quantity(n, u) + " " + Quantity(r, ru)
  }

  /** `formatTimeDifference(timestamp)` with `Date.now()` equal to nowMillis. */
  function FormatTimeDifference(timestamp: int, nowMillis: int): string {
    var now := nowMillis / 1000;     // Math.floor(Date.now() / 1000)
    var diffSeconds := timestamp - now;
    var isInFuture := diffSeconds > 0;
    var result := Phrase(Bucket(Abs(diffSeconds)));
    if result == "just now" then result
    else if isInFuture then "in " + result
    else result + " ago"
  }

  /** The signed distance the function measures, in whole seconds. */
  function DiffSeconds(timestamp: int, nowMillis: int): int {
    timestamp - nowMillis / 1000
  }

  /** A counted phrase starts with a digit, so it is never the literal "just now". */
  lemma AmountIsNotJustNow(s: Span)
    requires s.Amount?
    ensures Phrase(s) != "just now"
    ensures |Phrase(s)| >= 1 && IsDigit(Phrase(s)[0])
  {
    var q := Quantity(s.lead, s.unit);
    assert q[0] == NatToString(s.lead)[0];
    assert Phrase(s)[0] == q[0];
  }

  /** "just now" comes out, bare, exactly when the distance is under a minute either way. */
  lemma JustNowExactlyUnderAMinute(timestamp: int, nowMillis: int)
    ensures FormatTimeDifference(timestamp, nowMillis) == "just now"
            <==> -60 < DiffSeconds(timestamp, nowMillis) < 60
  {
    var d := DiffSeconds(timestamp, nowMillis);
    var s := Bucket(Abs(d));
    if s.Amount? {
      AmountIsNotJustNow(s);
      var p := Phrase(s);
      var r := FormatTimeDifference(timestamp, nowMillis);
      if d > 0 {
        assert r == "in " + p;
        assert r[0] == 'i';
      } else {
        assert r == p + " ago";
        assert r[|r| - 1] == 'o';
      }
    }
  }

  /** A future distance of a minute or more reads "in <phrase>"; a past one "<phrase> ago". */
  lemma DirectionWording(timestamp: int, nowMillis: int)
    ensures var d := DiffSeconds(timestamp, nowMillis);
            d >= 60 ==> FormatTimeDifference(timestamp, nowMillis) == "in " + Phrase(Bucket(d))
    ensures var d := DiffSeconds(timestamp, nowMillis);
            d <= -60 ==> FormatTimeDifference(timestamp, nowMillis) == Phrase(Bucket(-d)) + " ago"
  {
    var d := DiffSeconds(timestamp, nowMillis);
    if d >= 60 || d <= -60 {
      AmountIsNotJustNow(Bucket(Abs(d)));
    }
  }

  /** The remainder clause is left out exactly when the remainder is zero. */
  lemma RemainderOmittedIffZero(s: Span)
    requires s.Amount?
    ensures Phrase(s) == Quantity(s.lead, s.unit) <==> s.rest == 0
  {
    if s.rest != 0 {
      assert |Phrase(s)| > |Quantity(s.lead, s.unit)|;
    }
  }

  /** The singular word is used exactly for a count of one. */
  lemma SingularIffOne(n: nat, u: TimeUnit)
    ensures Quantity(n, u) == NatToString(n) + " " + u.Singular() <==> n == 1
  {
    if n != 1 {
      assert |Quantity(n, u)| == |NatToString(n) + " " + u.Singular()| + 1;
    }
  }

  /** 59 seconds either way is "just now". */
  lemma JustNowBoundary()
    ensures FormatTimeDifference(59, 0) == "just now"
    ensures FormatTimeDifference(-59, 0) == "just now"
  {
    assert DiffSeconds(59, 0) == 59 && DiffSeconds(-59, 0) == -59;
    JustNowExactlyUnderAMinute(59, 0);
    JustNowExactlyUnderAMinute(-59, 0);
  }

  /** Sixty seconds is one minute, with the singular word. */
  lemma OneMinutePhrase()
    ensures Phrase(Bucket(60)) == "1 minute"
  {
    assert Bucket(60) == Amount(1, Minutes, 0, Minutes);
    assert NatToString(1) == "1";
  }

  /** 60 seconds ahead is "in 1 minute", 60 seconds back "1 minute ago". */
  lemma MinuteBoundary()
    ensures FormatTimeDifference(60, 0) == "in " + "1 minute"
    ensures FormatTimeDifference(0, 60_000) == "1 minute" + " ago"
  {
    assert DiffSeconds(60, 0) == 60 && DiffSeconds(0, 60_000) == -60;
    DirectionWording(60, 0);
    DirectionWording(0, 60_000);
    OneMinutePhrase();
  }

  /** An hour ago exactly has no remainder clause. */
  lemma HourExample()
    ensures FormatTimeDifference(0, 3_600_000) == "1 hour" + " ago"
  {
    assert DiffSeconds(0, 3_600_000) == -3600;
    DirectionWording(0, 3_600_000);
    assert Bucket(3600) == Amount(1, Hours, 0, Minutes);
    assert NatToString(1) == "1";
    assert Phrase(Bucket(3600)) == "1 hour";
  }

  /** Two hours fifteen minutes ahead. */
  lemma RemainderExample()
    ensures FormatTimeDifference(8100, 0) == "in " + "2 hours 15 minutes"
  {
    assert DiffSeconds(8100, 0) == 8100;
    DirectionWording(8100, 0);
    RemainderPhrase();
  }

  /** 8100 seconds are two hours and fifteen minutes. */
  lemma RemainderPhrase()
    ensures Phrase(Bucket(8100)) == "2 hours 15 minutes"
  {
    var s := Bucket(8100);
    assert s == Amount(2, Hours, 15, Minutes);
    assert NatToString(2) == "2";
    assert NatToString(15) == "15";
    assert Quantity(2, Hours) == "2 hours";
    assert Quantity(15, Minutes) == "15 minutes";
  }

  /**
   * Because a year is 365 days and a month 30, the last five days of a
   * year's remainder count as a twelfth month: 725 days ago reads
   * "1 year 12 months ago".
   */
  lemma TwelveMonthRemainder()
    ensures FormatTimeDifference(0, 62_640_000_000) == "1 year 12 months" + " ago"
  {
    assert DiffSeconds(0, 62_640_000_000) == -62_640_000;
    DirectionWording(0, 62_640_000_000);
    TwelveMonthPhrase();
  }

  /** 725 days are one year and twelve thirty-day months. */
  lemma TwelveMonthPhrase()
    ensures Phrase(Bucket(62_640_000)) == "1 year 12 months"
  {
    var s := Bucket(62_640_000);
    assert s == Amount(1, Years, 12, Months);
    assert NatToString(1) == "1";
    assert NatToString(12) == "12";
    assert Quantity(1, Years) == "1 year";
    assert Quantity(12, Months) == "12 months";
  }
}
