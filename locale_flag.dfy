/**
 * `getLocaleFlag` (js/utils/timezoneUtils.js): the flag of the host's
 * country, from its IANA time zone through the fixed table of
 * `getTimezoneMap`, falling back to the region part of the first browser
 * language tag that has one, and to the United States.
 *
 * The host's time zone and language settings are parameters:
 * `timeZone` is None when reading it throws, and `languages` / `language`
 * are None when `navigator.languages` / `navigator.language` are unset.
 */
module LocaleFlag {
  import opened Wrappers
  import opened JsText
  import opened Flags

  /** The object literal of `getTimezoneMap()`, entry by entry in source order, in its five regional groups. */
  const TimezoneEntries: seq<(string, string)> := AfricaZones + AmericasZones + AsiaZones + PacificZones + EuropeZones

  /** Africa. */
  const AfricaZones: seq<(string, string)> := [
      ("Africa/Abidjan", "CI"),
      ("Africa/Accra", "GH"),
      ("Africa/Cairo", "EG"),
      ("Africa/Casablanca", "MA"),
      ("Africa/Johannesburg", "ZA"),
      ("Africa/Lagos", "NG"),
      ("Africa/Nairobi", "KE")
  ]

  /** Americas. */
  const AmericasZones: seq<(string, string)> := [
      ("America/Anchorage", "US"),
      ("America/Argentina/Buenos_Aires", "AR"),
      ("America/Bogota", "CO"),
      ("America/Caracas", "VE"),
      ("America/Chicago", "US"),
      ("America/Denver", "US"),
      ("America/Halifax", "CA"),
      ("America/Los_Angeles", "US"),
      ("America/Mexico_City", "MX"),
      ("America/New_York", "US"),
      ("America/Phoenix", "US"),
      ("America/Santiago", "CL"),
      ("America/Sao_Paulo", "BR"),
      ("America/Toronto", "CA"),
      ("America/Vancouver", "CA")
  ]

  /** Asia. */
  const AsiaZones: seq<(string, string)> := [
      ("Asia/Bangkok", "TH"),
      ("Asia/Dubai", "AE"),
      ("Asia/Hong_Kong", "HK"),
      ("Asia/Jakarta", "ID"),
      ("Asia/Kolkata", "IN"),
      ("Asia/Kuwait", "KW"),
      ("Asia/Manila", "PH"),
      ("Asia/Seoul", "KR"),
      ("Asia/Shanghai", "CN"),
      ("Asia/Singapore", "SG"),
      ("Asia/Tokyo", "JP")
  ]

  /** Australia and the Pacific. */
  const PacificZones: seq<(string, string)> := [
      ("Australia/Adelaide", "AU"),
      ("Australia/Brisbane", "AU"),
      ("Australia/Melbourne", "AU"),
      ("Australia/Perth", "AU"),
      ("Australia/Sydney", "AU"),
      ("Pacific/Auckland", "NZ"),
      ("Pacific/Honolulu", "US")
  ]

  /** Europe. */
  const EuropeZones: seq<(string, string)> := [
      ("Europe/Amsterdam", "NL"),
      ("Europe/Berlin", "DE"),
      ("Europe/Brussels", "BE"),
      ("Europe/Dublin", "IE"),
      ("Europe/Istanbul", "TR"),
      ("Europe/Lisbon", "PT"),
      ("Europe/London", "GB"),
      ("Europe/Madrid", "ES"),
      ("Europe/Moscow", "RU"),
      ("Europe/Paris", "FR"),
      ("Europe/Rome", "IT"),
      ("Europe/Stockholm", "SE"),
      ("Europe/Zurich", "CH")
  ]

  /** `timezoneMap[timeZone]`: the value of the last entry with that key, as in an object literal. */
  function LookupZone(entries: seq<(string, string)>, zone: string): (r: Option<string>)
    ensures r.Some? <==> exists i :: 0 <= i < |entries| && entries[i].0 == zone
    ensures r.Some? ==> exists i :: 0 <= i < |entries| && entries[i] == (zone, r.value)
  {
    if entries == [] then None
    else if entries[|entries| - 1].0 == zone then Some(entries[|entries| - 1].1)
    else LookupZone(entries[..|entries| - 1], zone)
  }

  /** Two upper-case ASCII letters, the shape of every code in the table. */
  predicate IsCountryCode(c: string) {
    |c| == 2 && 'A' <= c[0] <= 'Z' && 'A' <= c[1] <= 'Z'
  }

  /** `navigator.languages || [navigator.language || 'en-US']`. */
  function LanguageList(languages: Option<seq<string>>, language: Option<string>): (r: seq<string>)
    ensures languages.Some? ==> r == languages.value
    ensures languages.None? ==> |r| == 1 && r[0] == (if language.Some? && language.value != "" then language.value else "en-US")
  {
    if languages.Some? then languages.value
    else [if language.Some? && language.value != "" then language.value else "en-US"]
  }

  /** `languages.find(lang => lang.includes('-'))`. */
  function FirstWithHyphen(langs: seq<string>): (r: Option<string>)
    ensures r.None? <==> forall i :: 0 <= i < |langs| ==> '-' !in langs[i]
    ensures r.Some? ==> exists i :: 0 <= i < |langs| && langs[i] == r.value && '-' in langs[i]
                          && forall j :: 0 <= j < i ==> '-' !in langs[j]
  {
    if langs == [] then None
    else if '-' in langs[0] then Some(langs[0])
    else
      var r := FirstWithHyphen(langs[1..]);
      if r.Some? then
        ghost var i :| 0 <= i < |langs[1..]| && langs[1..][i] == r.value && '-' in langs[1..][i]
                       && forall j :: 0 <= j < i ==> '-' !in langs[1..][j];
        assert langs[i + 1] == r.value && forall j :: 0 <= j < i + 1 ==> '-' !in langs[j];
        r
      else r
  }

  /** `localeWithCountry.split('-')[1]`: the piece after the first hyphen, up to the next one. */
  function RegionOf(locale: string): string
    requires '-' in locale
  {
    SplitHasSecondPiece(locale, '-');
    Split(locale, '-')[1]
  }

  /** The white flag returned when reading the time zone throws. */
  const PlaceholderFlag: string := "\U{1F3F3}\U{FE0F}"

  /** The result of `getLocaleFlag()`. */
  function GetLocaleFlag(timeZone: Option<string>, languages: Option<seq<string>>, language: Option<string>): string {
    match timeZone
    case None => PlaceholderFlag
    case Some(zone) =>
      match LookupZone(TimezoneEntries, zone)
      case Some(code) => FlagImg(code)
      case None =>
        var found := FirstWithHyphen(LanguageList(languages, language));
        var localeWithCountry := if found.Some? then found.value else "en-US";
        FlagImg(RegionOf(localeWithCountry))
  }

  /** Every value of the entries is two upper-case ASCII letters. */
  predicate AllCodes(entries: seq<(string, string)>) {
    forall i :: 0 <= i < |entries| ==> IsCountryCode(entries[i].1)
  }

  /** Every key of the entries differs from the zone in length or at position k. */
  predicate KeysDifferAt(entries: seq<(string, string)>, zone: string, k: nat) {
    forall i :: 0 <= i < |entries| ==>
      |entries[i].0| != |zone| || (k < |zone| && entries[i].0[k] != zone[k])
  }

  /** Looking up in a concatenation: the later entries win, and the earlier ones answer only what the later ones lack. */
  lemma {:induction false} LookupAppend(a: seq<(string, string)>, b: seq<(string, string)>, zone: string)
    ensures LookupZone(a + b, zone) == if LookupZone(b, zone).Some? then LookupZone(b, zone) else LookupZone(a, zone)
    decreases |b|
  {
    if b == [] {
      assert a + b == a;
    } else {
      var ab := a + b;
      assert ab[|ab| - 1] == b[|b| - 1];
      assert ab[..|ab| - 1] == a + b[..|b| - 1];
      LookupAppend(a, b[..|b| - 1], zone);
    }
  }

  /** A zone whose name differs from every key, in length or at one position, is not found. */
  lemma KeysDifferNotFound(entries: seq<(string, string)>, zone: string, k: nat)
    requires KeysDifferAt(entries, zone, k)
    ensures LookupZone(entries, zone) == None
  {
  }

  /** The Americas and Europe, the two longest groups, hold only country codes. */
  lemma LongRegionsHoldCodes()
    ensures AllCodes(AmericasZones) && AllCodes(EuropeZones)
  {
    assert AllCodes(AmericasZones);
  }

  /** Every value in the table is two upper-case ASCII letters. */
  lemma TableHoldsCountryCodes()
    ensures AllCodes(TimezoneEntries)
  {
    LongRegionsHoldCodes();
    assert AllCodes(AfricaZones);
    assert AllCodes(AsiaZones);
    assert AllCodes(PacificZones);
  }

  // ---------------------------------------------------------------------
  // No key of the table repeats
  // ---------------------------------------------------------------------

  /**
   * a comes strictly before b when their three characters from position k on
   * are compared in dictionary order (both keys being long enough).
   */
  predicate BelowAt(a: string, b: string, k: nat) {
    k + 2 < |a| && k + 2 < |b|
    && (a[k] < b[k] || (a[k] == b[k] && (a[k + 1] < b[k + 1] || (a[k + 1] == b[k + 1] && a[k + 2] < b[k + 2]))))
  }

  /** Each key comes strictly after the one before it, by the characters from position k on. */
  predicate KeysAscending(entries: seq<(string, string)>, k: nat) {
    forall i :: 0 <= i < |entries| - 1 ==> BelowAt(entries[i].0, entries[i + 1].0, k)
  }

  /** No two entries share a key. */
  predicate DistinctKeys(entries: seq<(string, string)>) {
    forall i, j :: 0 <= i < j < |entries| ==> entries[i].0 != entries[j].0
  }

  /** No key of one list is a key of the other. */
  predicate KeysDisjoint(a: seq<(string, string)>, b: seq<(string, string)>) {
    forall i, j :: 0 <= i < |a| && 0 <= j < |b| ==> a[i].0 != b[j].0
  }

  /** Every key has one of the characters cs at position k. */
  predicate KeyCharsIn(entries: seq<(string, string)>, k: nat, cs: set<char>) {
    forall i :: 0 <= i < |entries| ==> k < |entries[i].0| && entries[i].0[k] in cs
  }

  /** Keys in ascending order are all in order, so none repeats. */
  lemma AscendingKeysDistinct(entries: seq<(string, string)>, k: nat)
    requires KeysAscending(entries, k)
    ensures DistinctKeys(entries)
  {
    forall i, j | 0 <= i < j < |entries|
      ensures entries[i].0 != entries[j].0
    {
      AscendingPair(entries, k, i, j);
    }
  }

  lemma {:induction false} AscendingPair(entries: seq<(string, string)>, k: nat, i: nat, j: nat)
    requires KeysAscending(entries, k) && i < j < |entries|
    ensures BelowAt(entries[i].0, entries[j].0, k)
    decreases j - i
  {
    if i + 1 < j {
      AscendingPair(entries, k, i + 1, j);
    }
  }

  /** Two ascending lists stay ascending when the first ends before the second starts. */
  lemma AscendingAppend(a: seq<(string, string)>, b: seq<(string, string)>, k: nat)
    requires KeysAscending(a, k) && KeysAscending(b, k)
    requires a != [] && b != [] && BelowAt(a[|a| - 1].0, b[0].0, k)
    ensures KeysAscending(a + b, k)
  {
    var ab := a + b;
    forall i | 0 <= i < |ab| - 1
      ensures BelowAt(ab[i].0, ab[i + 1].0, k)
    {
      if i + 1 < |a| {
        assert ab[i] == a[i] && ab[i + 1] == a[i + 1];
      } else if i + 1 == |a| {
        assert ab[i] == a[|a| - 1] && ab[i + 1] == b[0];
      } else {
        assert ab[i] == b[i - |a|] && ab[i + 1] == b[i + 1 - |a|];
      }
    }
  }

  /** Keys with different characters at the same position are different keys. */
  lemma KeyCharsSeparate(a: seq<(string, string)>, b: seq<(string, string)>, k: nat, ca: set<char>, cb: set<char>)
    requires KeyCharsIn(a, k, ca) && KeyCharsIn(b, k, cb) && ca !! cb
    ensures KeysDisjoint(a, b)
  {
    forall i, j | 0 <= i < |a| && 0 <= j < |b|
      ensures a[i].0 != b[j].0
    {
      assert a[i].0[k] in ca && b[j].0[k] in cb;
    }
  }

  /** Joining two lists without repeated keys and without shared keys repeats no key. */
  lemma DistinctAppend(a: seq<(string, string)>, b: seq<(string, string)>)
    requires DistinctKeys(a) && DistinctKeys(b) && KeysDisjoint(a, b)
    ensures DistinctKeys(a + b)
  {
    var ab := a + b;
    forall i, j | 0 <= i < j < |ab|
      ensures ab[i].0 != ab[j].0
    {
      if j < |a| {
        assert ab[i] == a[i] && ab[j] == a[j];
      } else if i < |a| {
        assert ab[i] == a[i] && ab[j] == b[j - |a|];
      } else {
        assert ab[i] == b[i - |a|] && ab[j] == b[j - |a|];
      }
    }
  }

  /** A list shares no key with c when each of its two parts shares none. */
  lemma DisjointAppend(a: seq<(string, string)>, b: seq<(string, string)>, c: seq<(string, string)>)
    requires KeysDisjoint(a, c) && KeysDisjoint(b, c)
    ensures KeysDisjoint(a + b, c)
  {
    var ab := a + b;
    forall i, j | 0 <= i < |ab| && 0 <= j < |c|
      ensures ab[i].0 != c[j].0
    {
      if i < |a| {
        assert ab[i] == a[i];
      } else {
        assert ab[i] == b[i - |a|];
      }
    }
  }

  lemma AfricaKeysAscending()
    ensures KeysAscending(AfricaZones, 7)
  {
  }

  lemma AfricaLeadingChars()
    ensures KeyCharsIn(AfricaZones, 0, {'A'}) && KeyCharsIn(AfricaZones, 1, {'f'})
  {
  }

  lemma AmericasKeysAscending()
    ensures KeysAscending(AmericasZones, 8)
  {
    var a, b := AmericasZones[..8], AmericasZones[8..];
    AmericasHeadAscending();
    AmericasTailAscending();
    AscendingAppend(a, b, 8);
    assert a + b == AmericasZones;
  }

  lemma AmericasHeadAscending()
    ensures KeysAscending(AmericasZones[..8], 8)
  {
  }

  lemma AmericasTailAscending()
    ensures KeysAscending(AmericasZones[8..], 8)
  {
  }

  lemma AmericasLeadingChars()
    ensures KeyCharsIn(AmericasZones, 0, {'A'}) && KeyCharsIn(AmericasZones, 1, {'m'})
  {
  }

  lemma AsiaKeysAscending()
    ensures KeysAscending(AsiaZones, 5)
  {
    var a, b := AsiaZones[..5], AsiaZones[5..];
    assert KeysAscending(a, 5);
    assert KeysAscending(b, 5);
    AscendingAppend(a, b, 5);
    assert a + b == AsiaZones;
  }

  lemma AsiaLeadingChars()
    ensures KeyCharsIn(AsiaZones, 0, {'A'}) && KeyCharsIn(AsiaZones, 1, {'s'})
  {
  }

  lemma PacificKeysAscending()
    ensures KeysAscending(PacificZones, 10)
  {
  }

  lemma PacificLeadingChars()
    ensures KeyCharsIn(PacificZones, 0, {'A', 'P'}) && KeyCharsIn(PacificZones, 1, {'u', 'a'})
  {
  }

  lemma EuropeKeysAscending()
    ensures KeysAscending(EuropeZones, 7)
  {
    var a, b := EuropeZones[..7], EuropeZones[7..];
    assert KeysAscending(a, 7);
    assert KeysAscending(b, 7);
    AscendingAppend(a, b, 7);
    assert a + b == EuropeZones;
  }

  lemma EuropeLeadingChars()
    ensures KeyCharsIn(EuropeZones, 0, {'E'}) && KeyCharsIn(EuropeZones, 1, {'u'})
  {
  }

  /**
   * No zone is listed twice, so no entry of the object literal is overridden
   * by a later one and every entry is the one the lookup finds for its key.
   */
  lemma TableKeysDistinct()
    ensures DistinctKeys(TimezoneEntries)
  {
    AfricaKeysAscending();
    AfricaLeadingChars();
    AmericasKeysAscending();
    AmericasLeadingChars();
    AsiaKeysAscending();
    AsiaLeadingChars();
    PacificKeysAscending();
    PacificLeadingChars();
    EuropeKeysAscending();
    EuropeLeadingChars();
    AscendingKeysDistinct(AfricaZones, 7);
    AscendingKeysDistinct(AmericasZones, 8);
    AscendingKeysDistinct(AsiaZones, 5);
    AscendingKeysDistinct(PacificZones, 10);
    AscendingKeysDistinct(EuropeZones, 7);
    var a1 := AfricaZones + AmericasZones;
    var a2 := a1 + AsiaZones;
    var a3 := a2 + PacificZones;
    KeyCharsSeparate(AfricaZones, AmericasZones, 1, {'f'}, {'m'});
    DistinctAppend(AfricaZones, AmericasZones);
    KeyCharsSeparate(AfricaZones, AsiaZones, 1, {'f'}, {'s'});
    KeyCharsSeparate(AmericasZones, AsiaZones, 1, {'m'}, {'s'});
    DisjointAppend(AfricaZones, AmericasZones, AsiaZones);
    DistinctAppend(a1, AsiaZones);
    KeyCharsSeparate(AfricaZones, PacificZones, 1, {'f'}, {'u', 'a'});
    KeyCharsSeparate(AmericasZones, PacificZones, 1, {'m'}, {'u', 'a'});
    KeyCharsSeparate(AsiaZones, PacificZones, 1, {'s'}, {'u', 'a'});
    DisjointAppend(AfricaZones, AmericasZones, PacificZones);
    DisjointAppend(a1, AsiaZones, PacificZones);
    DistinctAppend(a2, PacificZones);
    KeyCharsSeparate(AfricaZones, EuropeZones, 0, {'A'}, {'E'});
    KeyCharsSeparate(AmericasZones, EuropeZones, 0, {'A'}, {'E'});
    KeyCharsSeparate(AsiaZones, EuropeZones, 0, {'A'}, {'E'});
    KeyCharsSeparate(PacificZones, EuropeZones, 0, {'A', 'P'}, {'E'});
    DisjointAppend(AfricaZones, AmericasZones, EuropeZones);
    DisjointAppend(a1, AsiaZones, EuropeZones);
    DisjointAppend(a2, PacificZones, EuropeZones);
    DistinctAppend(a3, EuropeZones);
  }

  /** A zone in the table decides the flag, whatever the languages; the code is two upper-case letters. */
  lemma ZoneInTableDecides(zone: string, code: string, languages: Option<seq<string>>, language: Option<string>)
    requires LookupZone(TimezoneEntries, zone) == Some(code)
    ensures GetLocaleFlag(Some(zone), languages, language) == FlagImg(code)
    ensures IsCountryCode(code)
  {
    TableHoldsCountryCodes();
  }

  /** Within Asia, the Kolkata entry is followed by no other key of its length. */
  lemma KolkataInAsia()
    ensures LookupZone(AsiaZones, "Asia/Kolkata") == Some("IN")
  {
    var z := "Asia/Kolkata";
    assert AsiaZones == AsiaZones[..5] + AsiaZones[5..];
    KeysDifferNotFound(AsiaZones[5..], z, 5);
    LookupAppend(AsiaZones[..5], AsiaZones[5..], z);
    assert AsiaZones[..5][4] == (z, "IN");
  }

  /** The later regions hold no key that starts like "Asia/". */
  lemma KolkataInTable()
    ensures LookupZone(TimezoneEntries, "Asia/Kolkata") == Some("IN")
  {
    var z := "Asia/Kolkata";
    KeysDifferNotFound(EuropeZones, z, 1);
    KeysDifferNotFound(PacificZones, z, 1);
    LookupAppend(AfricaZones + AmericasZones + AsiaZones + PacificZones, EuropeZones, z);
    LookupAppend(AfricaZones + AmericasZones + AsiaZones, PacificZones, z);
    LookupAppend(AfricaZones + AmericasZones, AsiaZones, z);
    KolkataInAsia();
  }

  /** India's zone gives the Indian flag, whatever the languages. */
  lemma KolkataExample(languages: Option<seq<string>>, language: Option<string>)
    ensures GetLocaleFlag(Some("Asia/Kolkata"), languages, language) == FlagImg("IN")
  {
    KolkataInTable();
    ZoneInTableDecides("Asia/Kolkata", "IN", languages, language);
  }

  /**
   * The region is the piece between the first and the second hyphen: "pt-BR"
   * gives "BR", "zh-Hant-TW" gives "Hant", and "en-" gives the empty string.
   */
  lemma RegionOfPieces(a: string, b: string, rest: string)
    requires '-' !in a && '-' !in b
    ensures RegionOf(a + "-" + b) == b
    ensures RegionOf(a + "-" + b + "-" + rest) == b
  {
    SplitAfterHead(a, '-', b);
    SplitNoSeparator(b, '-');
    assert a + "-" + b + "-" + rest == a + ['-'] + (b + ['-'] + rest);
    SplitAfterHead(a, '-', b + ['-'] + rest);
    SplitAfterHead(b, '-', rest);
  }

  /** Regions of some common tags; "en-" counts as carrying a region, the empty one. */
  lemma RegionOfExamples()
    ensures RegionOf("pt-BR") == "BR"
    ensures RegionOf("de-DE") == "DE"
    ensures RegionOf("zh-Hant-TW") == "Hant"
    ensures RegionOf("en-") == ""
  {
    assert "pt-BR" == "pt" + "-" + "BR";
    RegionOfPieces("pt", "BR", "");
    assert "de-DE" == "de" + "-" + "DE";
    RegionOfPieces("de", "DE", "");
    assert "zh-Hant-TW" == "zh" + "-" + "Hant" + "-" + "TW";
    RegionOfPieces("zh", "Hant", "TW");
    assert "en-" == "en" + "-" + "";
    RegionOfPieces("en", "", "");
  }

  /** The fallback locale gives the United States. */
  lemma DefaultLocaleIsUs()
    ensures RegionOf("en-US") == "US"
  {
    RegionOfPieces("en", "US", "");
  }

  /** The white flag comes out exactly when the time zone cannot be read; every other result is an image. */
  lemma PlaceholderIffZoneUnreadable(timeZone: Option<string>, languages: Option<seq<string>>, language: Option<string>)
    ensures GetLocaleFlag(timeZone, languages, language) == PlaceholderFlag <==> timeZone.None?
    ensures timeZone.Some? ==> GetLocaleFlag(timeZone, languages, language)[..|ImgOpen|] == ImgOpen
  {
    if timeZone.Some? {
      match LookupZone(TimezoneEntries, timeZone.value)
      case Some(code) =>
        FlagImgOpensTag(code);
      case None =>
        var found := FirstWithHyphen(LanguageList(languages, language));
        FlagImgOpensTag(RegionOf(if found.Some? then found.value else "en-US"));
    }
  }

  /**
   * A zone missing from the table defers to the languages: the region of the
   * first tag with a hyphen, whichever list is consulted.
   */
  lemma UnknownZoneUsesLanguage(zone: string, languages: Option<seq<string>>, language: Option<string>, tag: string)
    requires LookupZone(TimezoneEntries, zone).None?
    requires FirstWithHyphen(LanguageList(languages, language)) == Some(tag)
    ensures '-' in tag
    ensures GetLocaleFlag(Some(zone), languages, language) == FlagImg(RegionOf(tag))
  {
  }

  /**
   * A zone missing from the table, with no language tag carrying a hyphen
   * (or no language setting at all), gives the United States flag.
   */
  lemma UnknownZoneDefaultsToUs(zone: string, languages: Option<seq<string>>, language: Option<string>)
    requires LookupZone(TimezoneEntries, zone).None?
    requires forall l :: l in LanguageList(languages, language) ==> '-' !in l
    ensures GetLocaleFlag(Some(zone), languages, language) == FlagImg("US")
  {
    DefaultLocaleIsUs();
  }

  /** "UTC" is not a key of the table: every key starts with a letter other than 'U'. */
  lemma UtcNotInTable()
    ensures LookupZone(TimezoneEntries, "UTC") == None
  {
    KeysDifferNotFound(TimezoneEntries, "UTC", 0);
  }

  /** "UTC" is not in the table: a browser set to French and Brazilian Portuguese shows Brazil. */
  lemma UtcUsesLanguageExample()
    ensures GetLocaleFlag(Some("UTC"), Some(["fr", "pt-BR"]), None) == FlagImg("BR")
  {
    UtcNotInTable();
    var langs := ["fr", "pt-BR"];
    assert '-' !in langs[0] && '-' in langs[1];
    assert FirstWithHyphen(langs) == Some("pt-BR");
    UnknownZoneUsesLanguage("UTC", Some(langs), None, "pt-BR");
    RegionOfExamples();
  }

  /** With the languages unset, `navigator.language` decides. */
  lemma SingleLanguageExample()
    ensures GetLocaleFlag(Some("UTC"), None, Some("de-DE")) == FlagImg("DE")
  {
    UtcNotInTable();
    assert FirstWithHyphen(["de-DE"]) == Some("de-DE");
    UnknownZoneUsesLanguage("UTC", None, Some("de-DE"), "de-DE");
    RegionOfExamples();
  }

  /** An empty `navigator.language` falls back to "en-US"; one without a region gives the United States too. */
  lemma SingleLanguageDefaultExamples()
    ensures GetLocaleFlag(Some("UTC"), None, Some("")) == FlagImg("US")
    ensures GetLocaleFlag(Some("UTC"), None, Some("de")) == FlagImg("US")
  {
    UtcNotInTable();
    UnknownZoneDefaultsToUs("UTC", None, Some("de"));
    assert FirstWithHyphen(["en-US"]) == Some("en-US");
    UnknownZoneUsesLanguage("UTC", None, Some(""), "en-US");
    DefaultLocaleIsUs();
  }
}
