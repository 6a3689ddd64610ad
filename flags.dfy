/**
 * Country flags (js/utils/flagUtils.js): the URL of a flag image, the
 * `<img>` markup that shows it, and the list of country codes the
 * extension claims to support. The upper-casing of a code is ASCII-only.
 */
module Flags {
  import opened Wrappers
  import opened JsText

  const FlagBaseUrl: string := "http://purecatamphetamine.github.io/country-flag-icons/3x2/"
  const SvgExtension: string := ".svg"

  /** `getFlagUrl(countryCode)`. */
  function FlagUrl(countryCode: string): string {
    FlagBaseUrl + ToUpper(countryCode) + SvgExtension
  }

  /** The code a flag URL names, or None for any other string. */
  function CodeOfFlagUrl(url: string): Option<string> {
    if |url| >= |FlagBaseUrl| + |SvgExtension| && url[..|FlagBaseUrl|] == FlagBaseUrl
       && url[|url| - |SvgExtension|..] == SvgExtension
    then Some(url[|FlagBaseUrl|..|url| - |SvgExtension|])
    else None
  }

  /** The markup of `getFlagImg` around the URL, around the code, and after it. */
  const ImgOpen: string := "<img \n    src=\""
  const AltOpen: string := "\" \n    alt=\""
  const ImgClose: string := " flag\" \n    style=\"width: 16px; height: 12px; vertical-align: middle; margin-right: 4px;\"\n  />"

  /** `getFlagImg(countryCode)`: the src is the flag URL, the alt text the code as given. */
  function FlagImg(countryCode: string): string {
    ImgOpen + FlagUrl(countryCode) + AltOpen + countryCode + ImgClose
  }

  /** `countries`. */
  const Countries: seq<string> := ["US", "GB", "BR", "FR", "DE", "IT", "JP", "CN", "RU", "IN"]

  /** `hasFlag(countryCode)`. */
  predicate HasFlag(countryCode: string) {
    ToUpper(countryCode) in Countries
  }

  /** The URL names the upper-cased code: reading it back gives ToUpper of the code. */
  lemma FlagUrlReadsBack(countryCode: string)
    ensures CodeOfFlagUrl(FlagUrl(countryCode)) == Some(ToUpper(countryCode))
  {
    var u, c := FlagUrl(countryCode), ToUpper(countryCode);
    assert u[..|FlagBaseUrl|] == FlagBaseUrl;
    assert u[|u| - |SvgExtension|..] == SvgExtension;
    assert u[|FlagBaseUrl|..|u| - |SvgExtension|] == c;
  }

  /** Codes differing only in ASCII case share a URL, and codes with different upper-case forms do not. */
  lemma FlagUrlCaseInsensitive(a: string, b: string)
    ensures FlagUrl(a) == FlagUrl(b) <==> ToUpper(a) == ToUpper(b)
  {
    if FlagUrl(a) == FlagUrl(b) {
      FlagUrlReadsBack(a);
      FlagUrlReadsBack(b);
    }
  }

  /** Where the code sits in the markup: after the fixed opening, the URL (as long as the code) and the alt opening. */
  function AltOffset(codeLength: nat): nat {
    |ImgOpen| + |FlagBaseUrl| + codeLength + |SvgExtension| + |AltOpen|
  }

  /** The alt text of the markup is the code exactly as given, and the markup grows by two characters per code character. */
  lemma FlagImgAltText(countryCode: string)
    ensures var m, n := FlagImg(countryCode), |countryCode|;
            |m| == AltOffset(n) + n + |ImgClose| && m[AltOffset(n)..AltOffset(n) + n] == countryCode
  {
    var m, n := FlagImg(countryCode), |countryCode|;
    var pre := ImgOpen + FlagUrl(countryCode) + AltOpen;
    assert |pre| == AltOffset(n);
    assert m == pre + countryCode + ImgClose;
    assert m[|pre|..|pre| + n] == countryCode;
  }

  /** The markup always opens an `<img` element. */
  lemma FlagImgOpensTag(countryCode: string)
    ensures FlagImg(countryCode)[..|ImgOpen|] == ImgOpen
    ensures FlagImg(countryCode)[0] == '<'
  {
    var n := |ImgOpen|;
    var u := ImgOpen + FlagUrl(countryCode);
    var v := u + AltOpen;
    var w := v + countryCode;
    PrefixKept(ImgOpen, FlagUrl(countryCode), n);
    PrefixKept(u, AltOpen, n);
    PrefixKept(v, countryCode, n);
    PrefixKept(w, ImgClose, n);
  }

  /** Appending to a string keeps its first n characters. */
  lemma PrefixKept(a: string, b: string, n: nat)
    requires n <= |a|
    ensures (a + b)[..n] == a[..n]
  {
  }

  /**
   * Different codes give different markup, even when they differ only in
   * case and so share the image: the alt text keeps the original case.
   */
  lemma FlagImgInjective(a: string, b: string)
    requires FlagImg(a) == FlagImg(b)
    ensures a == b
  {
    FlagImgAltText(a);
    FlagImgAltText(b);
  }

  /** "gb" and "GB" show the same image under different alt texts. */
  lemma LowerCaseSharesImage()
    ensures FlagUrl("gb") == FlagUrl("GB")
    ensures FlagImg("gb") != FlagImg("GB")
  {
    assert ToUpper("gb") == "GB";
    if FlagImg("gb") == FlagImg("GB") {
      FlagImgInjective("gb", "GB");
    }
  }

  /** Upper-casing a code before passing it on changes neither its image nor whether it has a flag. */
  lemma UpperCasedCodeAlike(countryCode: string)
    ensures FlagUrl(ToUpper(countryCode)) == FlagUrl(countryCode)
    ensures HasFlag(ToUpper(countryCode)) <==> HasFlag(countryCode)
  {
    ToUpperIdempotent(countryCode);
  }

  /** A code has a flag exactly when its upper-case form is listed, so the test ignores ASCII case. */
  lemma HasFlagCaseInsensitive(a: string, b: string)
    requires ToUpper(a) == ToUpper(b)
    ensures HasFlag(a) <==> HasFlag(b)
  {
  }

  /** Every supported code is two ASCII letters, so only two-letter codes have a flag. */
  lemma HasFlagIsTwoLetters(countryCode: string)
    requires HasFlag(countryCode)
    ensures |countryCode| == 2
    ensures forall i :: 0 <= i < 2 ==> 'A' <= ToUpper(countryCode)[i] <= 'Z'
  {
  }

  /** The list is short: Canada, for one, is not in it, though time zones map to it. */
  lemma HasFlagExamples()
    ensures HasFlag("in") && HasFlag("Gb")
    ensures !HasFlag("CA") && !HasFlag("USA")
  {
    assert ToUpper("in") == "IN";
    assert ToUpper("Gb") == "GB";
    assert ToUpper("CA") == "CA";
  }
}
