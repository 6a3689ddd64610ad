/**
 * The timestamp test of the table scanner (content.js): a cell's trimmed
 * text is a Unix timestamp when it is exactly 10 ASCII digits (seconds) or
 * exactly 13 ASCII digits (milliseconds, floored to seconds).
 */
module Classifier {
  import opened Wrappers
  import opened JsText

  /** No classified timestamp reaches 10^10 seconds. */
  const SecondsLimit: nat := 10_000_000_000

  /** `/^\d{10}$/` */
  predicate IsSecondsText(t: string) {
    |t| == 10 && AllDigits(t)
  }

  /** `/^\d{13}$/` */
  predicate IsMillisecondsText(t: string) {
    |t| == 13 && AllDigits(t)
  }

  /**
   * The seconds value of a cell whose text is a timestamp, or None when the
   * text is anything else. Whatever the unit of the text, the result is a
   * number of seconds below 10^10.
   */
  function Classify(text: string): (r: Option<nat>)
    ensures r.Some? <==> IsSecondsText(Trim(text)) || IsMillisecondsText(Trim(text))
    ensures r.Some? ==> r.value < SecondsLimit
  {
    var t := Trim(text);
    if IsSecondsText(t) || IsMillisecondsText(t) then
      var v := DecimalValue(t);
      DecimalValueBound(t);
      Pow10Values();
      Some(if IsMillisecondsText(t) then v / 1000 else v)
    else
      None
  }

  /** Ten digits classify to the number they spell, unchanged. */
  lemma ClassifySeconds(d: string)
    requires IsSecondsText(d)
    ensures Classify(d) == Some(DecimalValue(d))
  {
    assert !IsJsSpace(d[0]) && !IsJsSpace(d[9]);
    TrimNoSpaceEnds(d);
  }

  /** Thirteen digits classify to the number they spell, divided by 1000 and floored. */
  lemma ClassifyMilliseconds(d: string)
    requires IsMillisecondsText(d)
    ensures Classify(d) == Some(DecimalValue(d) / 1000)
  {
    assert !IsJsSpace(d[0]) && !IsJsSpace(d[12]);
    TrimNoSpaceEnds(d);
  }

  /**
   * A millisecond timestamp is recognised as the same instant as its seconds
   * prefix: "1700000000123" and "1700000000" classify alike.
   */
  lemma {:induction false} MillisecondsAgreeWithSeconds(secs: string, millis: string)
    requires IsSecondsText(secs) && |millis| == 3 && AllDigits(millis)
    ensures Classify(secs + millis) == Classify(secs)
  {
    var v, w := DecimalValue(secs), DecimalValue(millis);
    ClassifySeconds(secs);
    DecimalValueAppend(secs, millis);
    DecimalValueBound(millis);
    Pow10Values();
    assert DecimalValue(secs + millis) == v * 1000 + w;
    assert (v * 1000 + w) / 1000 == v;
    ClassifyMilliseconds(secs + millis);
  }

  /** Only the trimmed text is examined: texts that trim alike classify alike. */
  lemma ClassifyByTrim(a: string, b: string)
    requires Trim(a) == Trim(b)
    ensures Classify(a) == Classify(b)
  {
  }

  /** Surrounding white space does not matter: classifying the trimmed text changes nothing. */
  lemma ClassifyIgnoresPadding(text: string)
    ensures Classify(Trim(text)) == Classify(text)
  {
    TrimIdempotent(text);
    ClassifyByTrim(Trim(text), text);
  }

  /** A trimmed text of any length but 10 and 13 never matches. */
  lemma WrongLengthNeverMatches(text: string)
    requires |Trim(text)| != 10 && |Trim(text)| != 13
    ensures Classify(text) == None
  {
  }

  /** A sign, a decimal point or a letter anywhere in the trimmed text means no match. */
  lemma NonDigitNeverMatches(text: string, i: nat)
    requires i < |Trim(text)| && !IsDigit(Trim(text)[i])
    ensures Classify(text) == None
  {
  }

  /**
   * Every timestamp between 10^9 and 10^10 seconds, written out as a decimal
   * number, classifies back to itself.
   */
  lemma PrintedTimestampRoundTrip(ts: nat)
    requires 1_000_000_000 <= ts < SecondsLimit
    ensures Classify(NatToString(ts)) == Some(ts)
  {
    Pow10Values();
    NatToStringLength(ts, 9);
    NatToStringRoundTrip(ts);
    ClassifySeconds(NatToString(ts));
  }

  /**
   * The same timestamps written out in milliseconds, whatever the
   * millisecond part, classify back to the second.
   */
  lemma PrintedMillisecondsRoundTrip(ts: nat, ms: nat)
    requires 1_000_000_000 <= ts < SecondsLimit && ms < 1000
    ensures Classify(NatToString(ts * 1000 + ms)) == Some(ts)
  {
    var n := ts * 1000 + ms;
    assert n / 1000 == ts;
    Pow10Values();
    NatToStringLength(n, 12);
    NatToStringRoundTrip(n);
    ClassifyMilliseconds(NatToString(n));
  }

  /** The example the extension is known by. */
  lemma SecondsExample()
    ensures Classify("1700000000") == Some(1700000000)
  {
    var zeros: string := seq(8, _ => '0');
    assert "1700000000" == "17" + zeros;
    ZerosValue(8);
    DecimalValueAppend("17", zeros);
    assert DecimalValue("17") == 17;
    assert Pow10(8) == 100_000_000;
    ClassifySeconds("1700000000");
  }

  /** The same instant in milliseconds classifies identically. */
  lemma MillisecondsExample()
    ensures Classify("1700000000000") == Classify("1700000000")
  {
    var s := "1700000000000";
    assert s == "1700000000" + "000";
    MillisecondsAgreeWithSeconds("1700000000", "000");
  }

  /** Text copied with blanks or line breaks around it classifies like the bare text. */
  lemma PaddingIgnored(pre: string, t: string, post: string)
    requires forall i :: 0 <= i < |pre| ==> IsJsSpace(pre[i])
    requires forall i :: 0 <= i < |post| ==> IsJsSpace(post[i])
    requires t == [] || (!IsJsSpace(t[0]) && !IsJsSpace(t[|t| - 1]))
    ensures Classify(pre + t + post) == Classify(t)
  {
    TrimAround(pre, t, post);
    TrimNoSpaceEnds(t);
    ClassifyByTrim(pre + t + post, t);
  }

  /** Nine digits are neither seconds nor milliseconds, and the empty cell does not match. */
  lemma ShortRejected()
    ensures Classify("170000000") == None
    ensures Classify("") == None
  {
    var t := "170000000";
    assert t[0] == '1' && t[8] == '0';
    TrimNoSpaceEnds(t);
    WrongLengthNeverMatches(t);
    TrimNoSpaceEnds("");
    WrongLengthNeverMatches("");
  }

  /** A sign spoils an otherwise valid timestamp. */
  lemma SignRejected()
    ensures Classify("-1700000000") == None
  {
    var a := "-1700000000";
    assert a[0] == '-' && a[10] == '0';
    TrimNoSpaceEnds(a);
    NonDigitNeverMatches(a, 0);
  }

  /** So does a decimal point. */
  lemma DecimalPointRejected()
    ensures Classify("1700000000.5") == None
  {
    var b := "1700000000.5";
    assert b[0] == '1' && b[10] == '.' && b[11] == '5';
    TrimNoSpaceEnds(b);
    NonDigitNeverMatches(b, 10);
  }
}
