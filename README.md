# AWS Unix timestamp extension — a Dafny model of its core

The extension is a browser content script for the AWS DynamoDB console.
It scans the table cells of the page. A cell whose trimmed text is a
10-digit (seconds) or 13-digit (milliseconds) Unix timestamp is marked
as processed, underlined and given a help cursor, and it gets a pair of
hover listeners that show a shared tooltip with the instant in UTC and
local time. The tooltip is placed beside the cell, or flipped or widened
to fit the window.

The date utilities that go with it are modelled too:
- the settings cache, and the deltas its two listeners apply;
- the relative wording of a timestamp ("in 2 hours 15 minutes", "3 days ago");
- the "GMT±H[:MM]" time-zone name;
- the local `iso` layout with its `±HH:MM` offset suffix;
- the flag of the host's country, from its time zone or its browser languages.

Modules, one per file:

| file | module | models |
|---|---|---|
| `wrappers.dfy` | `Wrappers` | `Option` |
| `js_text.dfy` | `JsText` | the JavaScript string and number primitives the core relies on: `String(n)`, `parseInt` of digits, `padStart`, `trim`, `toUpperCase` (ASCII), `split`, truncating `%` |
| `classifier.dfy` | `Classifier` | the timestamp test and conversion of `enhanceDynamoDBTable` |
| `table_scanner.dfy` | `TableScanner` | the scan over the table cells, as an in-place pass over an array and as a function on sequences |
| `tooltip.dfy` | `TooltipPlacement` | `showTooltip` / `hideTooltip` and the shared tooltip element, as a class |
| `relative_time.dfy` | `RelativeTime` | `formatTimeDifference` |
| `timezone_label.dfy` | `TimezoneLabel` | `getTimezoneName` and the local `iso` layout of `formatDateTime` |
| `settings_cache.dfy` | `SettingsCache` | `getCachedSettings`, its cached object and its two listeners, as classes |
| `flags.dfy` | `Flags` | `getFlagUrl`, `getFlagImg`, `countries`, `hasFlag` |
| `locale_flag.dfy` | `LocaleFlag` | `getTimezoneMap` and `getLocaleFlag` |

Some inputs come from the host, and they are parameters of the model:
- the clock reading `Date.now()`;
- the local offset `getTimezoneOffset()` and the other local `Date` getters;
- the host time zone, `navigator.languages` and `navigator.language`;
- the record storage delivers;
- the measured size of the tooltip;
- the date-formatting function the scanner calls (`convert`).

## Model

| member | source | states |
|---|---|---|
| `JsText.DecimalValue` | content.js:229 | `parseInt` of a digit string. It has no `ensures` of its own; `JsText.DecimalValueBound` bounds it and `JsText.NatToStringRoundTrip` reads printed numbers back with it. |
| `JsText.DecimalValueBound` | content.js:228-229 | A string of k digits denotes a number below 10^k. |
| `JsText.NatToString` | js/utils/dateUtils.js:85 | `String(n)` is at least one digit, and starts with '0' only when it is "0". |
| `JsText.IntToString` | js/utils/dateUtils.js:87-101 | `String(n)` of any integer is at least one character, starts with '-' exactly for a negative number, and is the digits for a non-negative one. |
| `JsText.PadStart` | js/utils/dateUtils.js:85-93 | The result is as long as the string or the width, whichever is larger; it ends with the string and holds only the fill before it. |
| `JsText.Trim` | content.js:227 | The trimmed text neither starts nor ends with white space. |
| `JsText.ToUpper` | js/utils/flagUtils.js:4 | Upper-casing keeps the length and maps each character on its own. |
| `JsText.Split` | js/utils/timezoneUtils.js:80 | A split has at least one piece and no piece holds the separator. |
| `JsText.NatToStringRoundTrip` | js/utils/dateUtils.js:85 | Printing a natural number and reading its digits back gives the number. |
| `JsText.PadNumberRoundTrip` | js/utils/dateUtils.js:85 | A number below 10^w, zero-padded to width w, is exactly w digits that read back as the number. |
| `JsText.PadNumber` | js/utils/dateUtils.js:85 | `String(n).padStart(w, '0')`. It has no `ensures` of its own; `JsText.PadNumberRoundTrip` states it. |
| `JsText.TrimIdempotent` | content.js:227 | Trimming twice is trimming once. |
| `JsText.ToUpperIdempotent` | js/utils/flagUtils.js:4 | Upper-casing twice is upper-casing once. |
| `JsText.SplitJoin` | js/utils/timezoneUtils.js:80 | Joining the pieces of a split with the separator gives back the string. |
| `JsText.SplitHasSecondPiece` | js/utils/timezoneUtils.js:80 | A split has a second piece if and only if the separator occurs. |
| `JsText.JsRem` | js/utils/dateUtils.js:99 | The truncating remainder is smaller than the divisor in magnitude, has the dividend's sign, and its magnitude is the magnitude's remainder. |
| `Classifier.IsSecondsText` | content.js:228 | The test `/^\d{10}$/`. It has no `ensures` of its own; `Classifier.Classify` and `Classifier.ClassifySeconds` state its use. |
| `Classifier.IsMillisecondsText` | content.js:228-229 | The test `/^\d{13}$/`. It has no `ensures` of its own; `Classifier.Classify` and `Classifier.ClassifyMilliseconds` state its use. |
| `Classifier.Classify` | content.js:227-229 | A cell matches if and only if its trimmed text is exactly 10 or exactly 13 digits; a match is below 10^10 seconds. |
| `Classifier.ClassifySeconds` | content.js:228-229 | Ten digits give the number they spell. |
| `Classifier.ClassifyMilliseconds` | content.js:229 | Thirteen digits give the number they spell, divided by 1000 and floored. |
| `Classifier.MillisecondsAgreeWithSeconds` | content.js:229 | Ten digits followed by any three more digits give the same timestamp as the ten alone. |
| `Classifier.ClassifyByTrim` | content.js:227 | Texts that trim to the same string classify alike. |
| `Classifier.ClassifyIgnoresPadding` | content.js:227 | Classifying the trimmed text gives what classifying the text gives. |
| `Classifier.WrongLengthNeverMatches` | content.js:228 | A trimmed text whose length is neither 10 nor 13 never matches. |
| `Classifier.NonDigitNeverMatches` | content.js:228 | A trimmed text with any non-digit never matches. |
| `Classifier.PrintedTimestampRoundTrip` | content.js:227-229 | Every ten-digit timestamp, printed, classifies back to itself. |
| `Classifier.PrintedMillisecondsRoundTrip` | content.js:227-229 | The same timestamp printed in milliseconds, with any milliseconds part, classifies back to the seconds. |
| `Classifier.SecondsExample` | content.js:228-229 | "1700000000" gives 1700000000. |
| `Classifier.MillisecondsExample` | content.js:229 | "1700000000000" gives the same as "1700000000". |
| `Classifier.PaddingIgnored` | content.js:227 | White space before and after the text does not change the outcome. |
| `Classifier.ShortRejected` | content.js:228 | Nine digits and the empty text do not match. |
| `Classifier.SignRejected` | content.js:228 | A leading minus sign prevents a match. |
| `Classifier.DecimalPointRejected` | content.js:228 | A decimal point prevents a match. |
| `TableScanner.Enhance` | content.js:227-242 | The forEach body for a selected cell. It has no `ensures` of its own; `TableScanner.ScanAnnotatesTimestamps` and `TableScanner.ScanLeavesOthersAlone` state what it does. |
| `TableScanner.ScanCell` | content.js:224-243 | What one scan does to one cell: the selector skips marked cells. It has no `ensures` of its own; `TableScanner.VisitCell`, `TableScanner.ScanAnnotatesTimestamps` and `TableScanner.ScanLeavesOthersAlone` state it. |
| `TableScanner.Scan` | content.js:223-245 | One scan keeps the number of cells, and each cell becomes the outcome of visiting it alone. |
| `TableScanner.VisitCell` | content.js:226-243 | The forEach body for a cell: a marked cell is skipped, a timestamp cell is annotated, any other cell is left alone. |
| `TableScanner.ScanSnoc` | content.js:226 | Scanning one more cell extends the earlier scan by that cell's outcome. |
| `TableScanner.ScanStep` | content.js:226 | One step of the pass grows the scanned prefix by the next cell's outcome. |
| `TableScanner.EnhanceDynamoDBTable` | content.js:223-245 | The in-place pass leaves the array equal to the scan of its old contents. |
| `TableScanner.ScanAnnotatesTimestamps` | content.js:227-242 | An unmarked timestamp cell becomes marked. It holds the converted date, is underlined with a help cursor and gains one listener pair. Its text is kept. |
| `TableScanner.ScanLeavesOthersAlone` | content.js:224-228 | A marked cell, or one whose text is not a timestamp, is unchanged. |
| `TableScanner.ScanIdempotent` | content.js:224-245 | Scanning a scanned table changes nothing. |
| `TableScanner.RepeatedScansAreOneScan` | content.js:223-245 | Any number of scans, at least one, leaves the table as one scan does. |
| `TableScanner.AtMostOneListenerPair` | content.js:232-242 | A fresh table scanned any number of times, with no edits between the scans: a cell carries listeners exactly when it carries the marker, and never more than one pair. |
| `TableScanner.ScanKeepsOneListenerPair` | content.js:223-245 | One more scan keeps that invariant: if every cell carries listeners exactly when it carries the marker, the same holds after the scan, with at most one pair per cell. |
| `TableScanner.PageLifetime` | content.js:223-257 | A fresh table, then any sequence of observer callbacks, where the page may insert unmarked cells and remove cells between two scans: after the last scan, every cell carries listeners exactly when it carries the marker, and at most one pair. |
| `TooltipPlacement.ChooseSide` | content.js:190-199 | Which of the three horizontal layouts is used. It has no `ensures` of its own; `TooltipPlacement.NarrowWindowForcesBanner` and `TooltipPlacement.HorizontalStaysInWindow` state its properties. |
| `TooltipPlacement.PlaceHorizontally` | content.js:189-204 | The new left edge and width. It has no `ensures` of its own; `TooltipPlacement.HorizontalStaysInWindow` and `TooltipPlacement.FlippedLeftClearsAnchor` state its properties. |
| `TooltipPlacement.PlaceVertically` | content.js:206-213 | The new top edge. It has no `ensures` of its own; `TooltipPlacement.VerticalPlacement` and `TooltipPlacement.AbovePlacementCanLeaveWindow` state its properties. |
| `TooltipPlacement.HorizontalStaysInWindow` | content.js:189-204 | For an anchor inside the window, the tooltip starts inside it. Beside the anchor or flipped left, the measured box ends at least 10px before the right edge; as a banner, it spans the window less 10px on each side. |
| `TooltipPlacement.FlippedLeftClearsAnchor` | content.js:192-194 | A tooltip flipped to the left ends 10px before the anchor. |
| `TooltipPlacement.NarrowWindowForcesBanner` | content.js:190-199 | When the window is narrower than the tooltip plus its gap, the banner layout is chosen. |
| `TooltipPlacement.VerticalPlacement` | content.js:206-213 | The tooltip sits 5px below the anchor when it fits, otherwise ending 5px above it. |
| `TooltipPlacement.AbovePlacementCanLeaveWindow` | content.js:207-209 | A tall tooltip over a cell near the top is placed above the window's top edge. |
| `TooltipPlacement.Tooltip.constructor` | content.js:171-174 | The element starts empty, unplaced, at the default width and not visible. |
| `TooltipPlacement.Tooltip.Show` | content.js:176-217 | Showing sets the content, the class and visibility. It places the tooltip horizontally and vertically as the placement functions say. |
| `TooltipPlacement.Tooltip.Hide` | content.js:219-221 | Hiding drops the class and keeps content, position, width and visibility. |
| `TooltipPlacement.HoverAndLeave` | content.js:238-242 | After a hover and a leave, the tooltip is hidden but keeps what the hover showed: the cell's content, the left edge and width `PlaceHorizontally` gives and the top edge `PlaceVertically` gives. |
| `RelativeTime.FormatTimeDifference` | js/utils/dateUtils.js:233-316 | The relative wording of a timestamp. It has no `ensures` of its own; `RelativeTime.JustNowExactlyUnderAMinute` and `RelativeTime.DirectionWording` state its properties. |
| `RelativeTime.Quantity` | js/utils/dateUtils.js:255-304 | A count and its unit word. It has no `ensures` of its own; `RelativeTime.SingularIffOne` states it. |
| `RelativeTime.Phrase` | js/utils/dateUtils.js:249-306 | The `result` string before the prefix or suffix. It has no `ensures` of its own; `RelativeTime.AmountIsNotJustNow` and `RelativeTime.RemainderOmittedIffZero` state its properties. |
| `RelativeTime.Bucket` | js/utils/dateUtils.js:249-306 | "just now" exactly under a minute; otherwise a leading count of at least one. |
| `RelativeTime.BucketBrackets` | js/utils/dateUtils.js:249-306 | Count and remainder undercount the distance by less than one remainder unit. |
| `RelativeTime.BucketRanges` | js/utils/dateUtils.js:249-306 | Each count stays within its bucket's range, and the remainder is in the next smaller unit. |
| `RelativeTime.AmountIsNotJustNow` | js/utils/dateUtils.js:309 | A counted phrase starts with a digit, so it is never "just now". |
| `RelativeTime.JustNowExactlyUnderAMinute` | js/utils/dateUtils.js:233-316 | The output is "just now" if and only if the signed distance is strictly between -60 and 60 seconds. |
| `RelativeTime.DirectionWording` | js/utils/dateUtils.js:308-315 | A future distance of a minute or more reads "in <phrase>"; a past one reads "<phrase> ago". |
| `RelativeTime.RemainderOmittedIffZero` | js/utils/dateUtils.js:261-305 | The remainder clause is omitted if and only if the remainder is zero. |
| `RelativeTime.SingularIffOne` | js/utils/dateUtils.js:255-304 | The singular unit word is used if and only if the count is one. |
| `RelativeTime.JustNowBoundary` | js/utils/dateUtils.js:249-251 | 59 seconds either way is "just now". |
| `RelativeTime.OneMinutePhrase` | js/utils/dateUtils.js:252-255 | Sixty seconds is "1 minute". |
| `RelativeTime.MinuteBoundary` | js/utils/dateUtils.js:233-316 | 60 seconds ahead is "in 1 minute" and 60 seconds back is "1 minute ago". |
| `RelativeTime.HourExample` | js/utils/dateUtils.js:256-262 | An hour back exactly is "1 hour ago". |
| `RelativeTime.RemainderPhrase` | js/utils/dateUtils.js:256-264 | 8100 seconds is "2 hours 15 minutes". |
| `RelativeTime.RemainderExample` | js/utils/dateUtils.js:233-316 | 8100 seconds ahead is "in 2 hours 15 minutes". |
| `RelativeTime.TwelveMonthPhrase` | js/utils/dateUtils.js:244-305 | 725 days are "1 year 12 months", because a year is 365 days and a month 30. |
| `RelativeTime.TwelveMonthRemainder` | js/utils/dateUtils.js:233-316 | 725 days back reads "1 year 12 months ago". |
| `TimezoneLabel.TimezoneName` | js/utils/dateUtils.js:149-166 | The "GMT±H[:MM]" name. It has no `ensures` of its own; `TimezoneLabel.TimezoneNameDenotes`, `TimezoneLabel.TimezoneNameShape` and `TimezoneLabel.UtcName` state its properties. |
| `TimezoneLabel.OffsetHours` | js/utils/dateUtils.js:154 | `Math.abs(Math.floor(offset / 60))`. It has no `ensures` of its own; `TimezoneLabel.SplitAsWritten` states what it denotes. |
| `TimezoneLabel.OffsetMinutes` | js/utils/dateUtils.js:155 | `Math.abs(offset % 60)` with the truncating remainder. It has no `ensures` of its own; `TimezoneLabel.SplitAsWritten` states what it denotes. |
| `TimezoneLabel.OffsetSign` | js/utils/dateUtils.js:159 | '+' when the offset is not west of UTC. It has no `ensures` of its own; `TimezoneLabel.TimezoneNameShape` states it. |
| `TimezoneLabel.TimezoneNameIntended` | js/utils/dateUtils.js:149-166 | The corrected name. It has no `ensures` of its own; `TimezoneLabel.TimezoneNameIntendedRoundTrip` and `TimezoneLabel.IndiaIntended` state its properties. |
| `TimezoneLabel.SplitAsWritten` | js/utils/dateUtils.js:154-159 | The written split has minutes below 60, nonzero exactly off the hour. It denotes the true offset west of UTC or on the hour, and one hour more east of UTC off the hour. |
| `TimezoneLabel.SplitIntended` | js/utils/dateUtils.js:154-159 | The corrected split always denotes the true offset. |
| `TimezoneLabel.GmtLabelReadsBack` | js/utils/dateUtils.js:161-165 | Every "GMT±H[:MM]" label reads back as the signed minutes it was built from. |
| `TimezoneLabel.TimezoneNameDenotes` | js/utils/dateUtils.js:149-166 | As written, the name stands for the true offset, except east of UTC off the hour, where it stands for one hour more. |
| `TimezoneLabel.TimezoneNameIntendedRoundTrip` | js/utils/dateUtils.js:149-166 | The corrected name always reads back as the true offset. |
| `TimezoneLabel.TimezoneNameShape` | js/utils/dateUtils.js:159-165 | The name starts "GMT", has '+' exactly when the offset is not west of UTC, and has ':' exactly when the minutes are nonzero. |
| `TimezoneLabel.UtcName` | js/utils/dateUtils.js:154-162 | UTC is named "GMT+0". |
| `TimezoneLabel.IndiaOverstated` | js/utils/dateUtils.js:154-164 | India (offset -330) is named "GMT+6:30". |
| `TimezoneLabel.IndiaIntended` | js/utils/dateUtils.js:154-164 | The corrected name for India is "GMT+5:30". |
| `TimezoneLabel.NepalOverstated` | js/utils/dateUtils.js:154-164 | Nepal (offset -345) is named "GMT+6:45". |
| `TimezoneLabel.NewfoundlandCorrect` | js/utils/dateUtils.js:154-164 | Newfoundland (offset 210) is named "GMT-3:30", correctly. |
| `TimezoneLabel.OffsetSuffix` | js/utils/dateUtils.js:96-99 | The `±HH:MM` suffix. It has no `ensures` of its own; `TimezoneLabel.OffsetSuffixShape` and `TimezoneLabel.OffsetSuffixDenotes` state its properties. |
| `TimezoneLabel.OffsetSuffixIntended` | js/utils/dateUtils.js:96-99 | The corrected suffix. It has no `ensures` of its own; `TimezoneLabel.OffsetSuffixIntendedRoundTrip` and `TimezoneLabel.IndiaSuffix` state its properties. |
| `TimezoneLabel.SuffixReadsBack` | js/utils/dateUtils.js:97-101 | A sign with two-digit hours and minutes reads back as the signed minutes it was built from. |
| `TimezoneLabel.OffsetSuffixDenotes` | js/utils/dateUtils.js:96-101 | As written, the suffix names the true offset, except east of UTC off the hour, where it names one hour more. |
| `TimezoneLabel.OffsetSuffixIntendedRoundTrip` | js/utils/dateUtils.js:96-101 | The corrected suffix reads back as the true offset. |
| `TimezoneLabel.IndiaSuffix` | js/utils/dateUtils.js:96-101 | India's local iso strings end in "+06:30"; the corrected suffix is "+05:30". |
| `TimezoneLabel.WholeHourSuffixes` | js/utils/dateUtils.js:96-101 | UTC ends in "+00:00" and offset 300 in "-05:00". |
| `TimezoneLabel.IsoDate` | js/utils/dateUtils.js:85-89 | The date part. It has no `ensures` of its own; `TimezoneLabel.IsoDateFields` states it. |
| `TimezoneLabel.IsoTime` | js/utils/dateUtils.js:90-93 | The time part. It has no `ensures` of its own; `TimezoneLabel.IsoTimeFields` states it. |
| `TimezoneLabel.IsoDateTime` | js/utils/dateUtils.js:85-101 | Date and time joined by 'T'. It has no `ensures` of its own; `TimezoneLabel.IsoDateTimeJoin` states it. |
| `TimezoneLabel.IsoLocal` | js/utils/dateUtils.js:85-101 | The local `iso` layout. It has no `ensures` of its own; `TimezoneLabel.IsoDateTimeJoin`, `TimezoneLabel.IsoLocalEndsWithOffset` and `TimezoneLabel.IsoLocalOffsetReadsBack` state its properties. |
| `TimezoneLabel.IsoDateFields` | js/utils/dateUtils.js:85-89 | The date part is the unpadded year, '-', the two-digit month (getMonth() + 1), '-' and the two-digit day. |
| `TimezoneLabel.IsoTimeFields` | js/utils/dateUtils.js:90-93 | The time part is 12 characters. Hours, minutes and seconds are two digits each, separated by ':', then '.' and three-digit milliseconds. |
| `TimezoneLabel.IsoDateTimeJoin` | js/utils/dateUtils.js:101 | Date and time are joined by 'T'. |
| `TimezoneLabel.OffsetSuffixShape` | js/utils/dateUtils.js:96-99 | The suffix is six characters: the sign, then ':' in the middle. |
| `TimezoneLabel.IsoLocalEndsWithOffset` | js/utils/dateUtils.js:85-101 | The local iso string is the date-time followed by the offset suffix, whose sign is '+' exactly when the offset is not west of UTC. |
| `TimezoneLabel.IsoLocalOffsetReadsBack` | js/utils/dateUtils.js:85-101 | The last six characters read back as the true offset, except east of UTC off the hour, where they read one hour more. |
| `SettingsCache.StorageDelta` | js/utils/dateUtils.js:29-44 | What the storage listener does to the settings. It has no `ensures` of its own; `SettingsCache.OtherAreasIgnored`, `SettingsCache.StorageDeltaPerKey` and `SettingsCache.StorageDeltaIdempotent` state its properties. |
| `SettingsCache.EventDelta` | js/utils/dateUtils.js:47-59 | What the event listener does to the settings. It has no `ensures` of its own; `SettingsCache.EventDeltaPerKey` and `SettingsCache.EventDeltaIdempotent` state its properties. |
| `SettingsCache.OtherAreasIgnored` | js/utils/dateUtils.js:30 | A delta for any storage area but 'sync' changes nothing. |
| `SettingsCache.StorageDeltaPerKey` | js/utils/dateUtils.js:32-43 | A sync delta sets each setting it carries to its new value, whatever that value is, and keeps the others. |
| `SettingsCache.StorageDeltaIdempotent` | js/utils/dateUtils.js:29-44 | Applying a storage delta twice is applying it once. |
| `SettingsCache.EventDeltaPerKey` | js/utils/dateUtils.js:47-59 | An event sets the two formats only to truthy values, and `useUtcTime` to anything but undefined. A falsy detail, or one that is not an object, changes nothing. |
| `SettingsCache.EventDeltaIdempotent` | js/utils/dateUtils.js:47-59 | Applying an event twice is applying it once. |
| `SettingsCache.EmptyFormatOnlyFromStorage` | js/utils/dateUtils.js:34-56 | An empty date format is applied from storage but not from an event; `useUtcTime: false` is applied from both. |
| `SettingsCache.RemovedKeyBecomesUndefined` | js/utils/dateUtils.js:37-39 | A removed key leaves its setting undefined, not at its default. |
| `SettingsCache.SettingsObject.constructor` | js/utils/dateUtils.js:26 | The cached object holds the loaded settings. |
| `SettingsCache.SettingsObject.ApplyStorageChange` | js/utils/dateUtils.js:29-44 | The storage listener leaves the object at the storage delta of its old value. |
| `SettingsCache.SettingsObject.ApplySettingsEvent` | js/utils/dateUtils.js:47-59 | The event listener leaves the object at the event delta of its old value. |
| `SettingsCache.Cache.constructor` | js/utils/dateUtils.js:18 | The cache starts empty, with no listeners. |
| `SettingsCache.Cache.GetCachedSettings` | js/utils/dateUtils.js:24-63 | The first call loads the settings and registers one listener pair. Every later call returns the same object, with no new listeners. |
| `SettingsCache.Cache.OnStorageChanged` | js/utils/dateUtils.js:29-44 | Once loaded, a storage notification applies the storage delta to the cached object; before that, nothing hears it. |
| `SettingsCache.Cache.OnSettingsChanged` | js/utils/dateUtils.js:47-59 | Once loaded, an event applies the event delta to the cached object; before that, nothing hears it. |
| `SettingsCache.LoadUpdateReload` | js/utils/dateUtils.js:24-63 | Load, then an event, then a second call: the second call returns the first object with the event applied, and one listener pair exists. |
| `Flags.FlagUrl` | js/utils/flagUtils.js:1-5 | The image URL of a code. It has no `ensures` of its own; `Flags.FlagUrlReadsBack` and `Flags.FlagUrlCaseInsensitive` state its properties. |
| `Flags.FlagImg` | js/utils/flagUtils.js:7-13 | The `<img>` markup of a code. It has no `ensures` of its own; `Flags.FlagImgAltText`, `Flags.FlagImgOpensTag` and `Flags.FlagImgInjective` state its properties. |
| `Flags.Countries` | js/utils/flagUtils.js:16-19 | The ten codes with a flag, as a constant; `Flags.HasFlagIsTwoLetters` and `Flags.HasFlagExamples` state what it holds. |
| `Flags.HasFlag` | js/utils/flagUtils.js:21-23 | Whether a code has a flag. It has no `ensures` of its own; `Flags.HasFlagCaseInsensitive`, `Flags.HasFlagIsTwoLetters` and `Flags.HasFlagExamples` state its properties. |
| `Flags.FlagUrlReadsBack` | js/utils/flagUtils.js:3-5 | The flag URL reads back as the upper-cased code. |
| `Flags.FlagUrlCaseInsensitive` | js/utils/flagUtils.js:3-5 | Two codes share a URL if and only if their upper-case forms agree. |
| `Flags.FlagImgAltText` | js/utils/flagUtils.js:7-13 | The alt text of the markup is the code exactly as given, at a fixed offset. |
| `Flags.FlagImgOpensTag` | js/utils/flagUtils.js:7-13 | The markup always opens an `<img` element. |
| `Flags.FlagImgInjective` | js/utils/flagUtils.js:7-13 | Different codes give different markup. |
| `Flags.UpperCasedCodeAlike` | js/utils/flagUtils.js:3-23 | Upper-casing a code first changes neither its image URL nor whether it has a flag. |
| `Flags.LowerCaseSharesImage` | js/utils/flagUtils.js:3-13 | "gb" and "GB" share the image URL but not the markup. |
| `Flags.HasFlagCaseInsensitive` | js/utils/flagUtils.js:21-23 | Codes with the same upper-case form agree on `hasFlag`. |
| `Flags.HasFlagIsTwoLetters` | js/utils/flagUtils.js:16-23 | Only two-letter codes have a flag. |
| `Flags.HasFlagExamples` | js/utils/flagUtils.js:16-23 | "in" and "Gb" have a flag; "CA" and "USA" do not. |
| `LocaleFlag.TimezoneEntries` | js/utils/timezoneUtils.js:3-68 | The entries of `getTimezoneMap()`, in source order, as a constant; `LocaleFlag.TableHoldsCountryCodes` and `LocaleFlag.TableKeysDistinct` state what it holds. |
| `LocaleFlag.GetLocaleFlag` | js/utils/timezoneUtils.js:70-88 | The result of `getLocaleFlag()`. It has no `ensures` of its own; `LocaleFlag.ZoneInTableDecides`, `LocaleFlag.PlaceholderIffZoneUnreadable`, `LocaleFlag.UnknownZoneUsesLanguage` and `LocaleFlag.UnknownZoneDefaultsToUs` state its properties. |
| `LocaleFlag.RegionOf` | js/utils/timezoneUtils.js:80 | The second piece of a hyphenated tag. It has no `ensures` of its own; `LocaleFlag.RegionOfPieces` states it. |
| `LocaleFlag.LookupZone` | js/utils/timezoneUtils.js:75 | A zone is found if and only if some entry has it as key, and the value found is that of an entry with the key. |
| `LocaleFlag.LanguageList` | js/utils/timezoneUtils.js:78 | The languages list if set; else the one language if set and non-empty; else "en-US". |
| `LocaleFlag.FirstWithHyphen` | js/utils/timezoneUtils.js:79 | Nothing is found if and only if no tag has a hyphen; a found tag is one of the list and has a hyphen. |
| `LocaleFlag.LookupAppend` | js/utils/timezoneUtils.js:4-67 | In a concatenated table the later entries win. |
| `LocaleFlag.KeysDifferNotFound` | js/utils/timezoneUtils.js:75 | A zone that differs from every key in length or at one position is not found. |
| `LocaleFlag.LongRegionsHoldCodes` | js/utils/timezoneUtils.js:14-66 | The Americas and Europe groups hold only two-letter upper-case codes. |
| `LocaleFlag.TableHoldsCountryCodes` | js/utils/timezoneUtils.js:4-67 | Every value of the table is two upper-case ASCII letters. |
| `LocaleFlag.TableKeysDistinct` | js/utils/timezoneUtils.js:4-67 | No zone is listed twice, so no entry of the object literal overrides another. |
| `LocaleFlag.ZoneInTableDecides` | js/utils/timezoneUtils.js:75-83 | A zone in the table decides the flag, whatever the languages. |
| `LocaleFlag.KolkataInAsia` | js/utils/timezoneUtils.js:31-43 | The Asian group maps "Asia/Kolkata" to "IN". |
| `LocaleFlag.KolkataInTable` | js/utils/timezoneUtils.js:4-67 | The whole table maps "Asia/Kolkata" to "IN". |
| `LocaleFlag.KolkataExample` | js/utils/timezoneUtils.js:70-83 | India's zone shows the Indian flag whatever the languages. |
| `LocaleFlag.RegionOfPieces` | js/utils/timezoneUtils.js:80 | The region of a tag is the piece between its first and second hyphens. |
| `LocaleFlag.RegionOfExamples` | js/utils/timezoneUtils.js:80 | "pt-BR" gives "BR", "de-DE" gives "DE", "zh-Hant-TW" gives "Hant" and "en-" gives "". |
| `LocaleFlag.DefaultLocaleIsUs` | js/utils/timezoneUtils.js:79-80 | The fallback tag gives "US". |
| `LocaleFlag.PlaceholderIffZoneUnreadable` | js/utils/timezoneUtils.js:70-87 | The white flag comes out if and only if the time zone cannot be read; every other result is an `<img>` element. |
| `LocaleFlag.UnknownZoneUsesLanguage` | js/utils/timezoneUtils.js:77-83 | A zone outside the table gives the flag of the region of the first tag with a hyphen. |
| `LocaleFlag.UnknownZoneDefaultsToUs` | js/utils/timezoneUtils.js:77-83 | A zone outside the table with no hyphenated tag gives the United States flag. |
| `LocaleFlag.UtcNotInTable` | js/utils/timezoneUtils.js:4-67 | "UTC" is not a key of the table. |
| `LocaleFlag.UtcUsesLanguageExample` | js/utils/timezoneUtils.js:70-83 | With zone "UTC" and languages ["fr", "pt-BR"], the flag is Brazil's. |
| `LocaleFlag.SingleLanguageExample` | js/utils/timezoneUtils.js:78-83 | With no languages list and language "de-DE", the flag is Germany's. |
| `LocaleFlag.SingleLanguageDefaultExamples` | js/utils/timezoneUtils.js:78-83 | An empty language, or one without a region, gives the United States flag. |

## Left out

- Browser wiring is not modelled: the `MutationObserver`, the 50ms `debounce`, the style sheet injection and the DOM itself. The observer runs a scan after the page inserts or removes nodes. `TableScanner.RepeatedScansAreOneScan` covers scans with no edit between them. `TableScanner.ScanKeepsOneListenerPair` and `TableScanner.PageLifetime` cover scans with edits between them, where an edit removes cells or inserts unmarked cells without listeners.
- The wording of dates is not modelled. `toLocaleString`, `toISOString` and the `Intl` time-zone lookup depend on the host, so `convertTimestampToDate` is the `convert` parameter of the scanner.
- The `short`, `long` and default layouts of `formatDateTime` are not modelled, for the same reason. Neither are `getCurrentDateTime`, `convertDateTime` and `getDateSettings`, whose outcome is the `loaded` parameter.
- The popup, the settings manager, the converter components and the build configuration are not part of this model.
- content.js:1-101 repeats `getFlagUrl`, `getFlagImg`, `getTimezoneMap` and `getLocaleFlag` word for word; one copy is modelled.
- Asynchrony and concurrency are not modelled. `getCachedSettings` awaits the storage read, so two calls made before it completes could both load and register listeners; the model runs each call to completion.
- Host errors have no model beyond the white flag. A thrown time-zone lookup is `timeZone == None`, and the `console.error` side effect is dropped.
- An undefined `timeZone` and lookups of inherited keys of the object literal (such as `"constructor"`) are not modelled: the table is exactly its entries.
- `NaN`, infinities and fractional timestamps are not modelled: `formatTimeDifference` takes an integer timestamp and clock reading.
- `JsText.ToUpper`: upper-cases ASCII letters only, not the full Unicode mapping of `toUpperCase`.
- `TimezoneLabel.OffsetSuffixDenotes`: stated for offsets from -5940 to 5999 minutes only, where the hours fit in two digits; real offsets are within a day.
- `TimezoneLabel.OffsetSuffixIntendedRoundTrip`: stated for offsets under 100 hours only, for the same reason.
- The UTC branch of the `iso` layout (`toISOString`) is not modelled; only the local branch is.
- The tooltip's measured size (`getBoundingClientRect` of the tooltip) is a parameter of `Show`; the element's layout, the CSS and the pixel strings are not modelled.

## Findings

| source | as written | input that shows it | evidently intended | confidence | as-written member | corrected member |
|---|---|---|---|---|---|---|
| js/utils/dateUtils.js:154-155 | `Math.abs(Math.floor(offset / 60))` floors toward minus infinity, so a negative offset off the hour gets one hour too many | `getTimezoneOffset()` = -330 (India) gives "GMT+6:30" | "GMT+5:30": hours and minutes of the magnitude of the offset | not executed | `TimezoneLabel.TimezoneNameDenotes`, `TimezoneLabel.IndiaOverstated` | `TimezoneLabel.TimezoneNameIntendedRoundTrip`, `TimezoneLabel.IndiaIntended` |
| js/utils/dateUtils.js:98-99 | the same split in the local `iso` offset suffix | `getTimezoneOffset()` = -330 ends the string in "+06:30" | "+05:30" | not executed | `TimezoneLabel.OffsetSuffixDenotes`, `TimezoneLabel.IndiaSuffix` | `TimezoneLabel.OffsetSuffixIntendedRoundTrip`, `TimezoneLabel.IndiaSuffix` |
