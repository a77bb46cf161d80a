# Slum news mapper: text-to-event core

This project models the part of `gdelt_version_v21.py` (class `RefinedSlumMapper`) that turns
news articles found on GDELT into events on a map of informal settlements in the Global South:

- **the gazetteer**: an insertion-ordered dictionary from place names to records
  (`kind` settlement / city / country, the record's city and country, coordinates). The
  alias loop of `load_extended_database` adds a title-cased variant of every name and a few
  accent variants, collects them in `additional_entries`, then merges them with `update`.
- **the resolver** (`extract_location_from_text`): three passes over the gazetteer, for
  settlements, then cities, then countries. Each pass looks for the lower-cased name as a
  `\b`-delimited whole word of the lower-cased text, and the first hit in table order wins.
- **the classifier** (`extract_event_type`): eight ordered keyword lists tried as plain
  substrings. The first list with a hit names the event; otherwise the event is `other`.
- **the count extractor** (`extract_affected_count`): seven regular expressions tried in
  order with `re.search`. Each one has its own leftmost-match matcher written by hand.
- **the legend** (`calculate_legend_intervals`): the Python legend tiers. The page's
  JavaScript colour rule `getIntensityColor` is modelled beside them.
- **the date parser** (`parse_gdelt_date`): GDELT's compact `YYYYMMDDHHMMSS` stamp becomes
  an RFC 3339 `date-time` (section 5.6 of RFC 3339) ending in `Z`, or the clock's reading
  when parsing fails.
- **the batch helpers**: the `process_articles` loop that builds events, the de-duplication
  of articles by URL or title hash at the end of `search_gdelt_only`, and
  `get_all_search_queries`.

Modules, one per file: `Text` (text.dfy: ASCII case mapping, substring tests, decimal
digits), `Gazetteer`, `Resolver`, `Classifier`, `Counts`, `Legend`, `SeenDate`, `Pipeline`,
`Search`, and `Scenarios` (concrete reports taken through every stage of the model, over
sample rows of the gazetteer).

The resolver, classifier, count extractor, legend and date parser are pure early-return
searches and branch expressions. They are modelled as functions. The alias loop,
`process_articles`, the de-duplication loop and `get_all_search_queries` update
collections step by step. They are modelled as methods with loops, each proved equal to a
specification function whose properties are proved as lemmas.

Behaviour of the source that the proofs make explicit:

- Pattern 1 of the count extractor comes before the range pattern, so `10 to 20 people`
  counts 20, the upper bound (`TenToTwentyPeople`, `RangeCountsUpperBound`).
- `\d+,?\d*` admits one comma only, so `12,345,678 people` counts 345678: the match
  starts at the second digit group (`SeparatedThousands`, `TwoCommasDropLeadingGroup`).
- Patterns 4, 5 and 6 never decide the count, because every text they match also
  matches pattern 1 (`DecidingPatterns`).
- The fall-through at `isdigit()` is never taken: every capture has a value
  (`GroupAlwaysValued`).
- `eviction` is listed under both `eviction` and `land_rights`. The earlier list wins, so
  text mentioning it is never `land_rights` (`EvictionShadowsLandRights`).
- Country hits carry the record's city, so the bare-country address branch is never
  taken (`CountryAddressUnreachable`).

## Model

| member | source | states |
|---|---|---|
| Text.Lower | gdelt_version_v21.py:542 | `str.lower()` keeps the length, maps each character through the ASCII lowering, and leaves no upper-case letter |
| Text.Title | gdelt_version_v21.py:329 | `str.title()` upper-cases every letter that does not follow a letter, lower-cases every letter that does, and leaves other characters alone; lowering the result gives back the lowered input |
| Text.TitleHasUpper | gdelt_version_v21.py:329 | the title-cased form of a name with a letter has an upper-case letter, so it differs from every lower-case key |
| Text.RemoveCommas | gdelt_version_v21.py:653-654 | `replace(',', '')` leaves no comma and never lengthens the string |
| Text.RemoveCommasAppend | gdelt_version_v21.py:653-654 | removing the commas of a concatenation removes those of each part, in order |
| Text.RemoveCommasChar | gdelt_version_v21.py:653-654 | a single comma is removed and any other single character kept, so with the append law every non-comma character stays, in order |
| Text.RemoveCommasKeeps | gdelt_version_v21.py:653-654 | exactly the characters of the input other than the comma remain |
| Text.RemoveCommasOfDigits | gdelt_version_v21.py:653-654 | a string of digits has no comma to remove |
| Text.NatToStringRoundTrip | gdelt_version_v21.py:654 | `int(str(n)) == n`, and `str(n)` has no leading zero |
| Text.PaddedDecimalValue | gdelt_version_v21.py:514-527 | writing the value of a digit field back in as many digits gives the field back |
| Text.DecimalValuePadded | gdelt_version_v21.py:514-527 | reading back `w` zero-padded digits of a value below 10^w gives the value |
| Gazetteer.Lookup | gdelt_version_v21.py:545-564 | a dictionary read is `None` exactly when the key is absent, else the record of the key's entry |
| Gazetteer.Put | gdelt_version_v21.py:329 | a dictionary assignment keeps keys distinct, replaces an existing key's record in place, or appends a new key at the end |
| Gazetteer.LookupPut | gdelt_version_v21.py:329 | after assigning `k`, reading `k` gives the new record and every other key reads as before |
| Gazetteer.Update | gdelt_version_v21.py:349 | `update` keeps the keys distinct |
| Gazetteer.UpdateFresh | gdelt_version_v21.py:349 | updating with entries whose keys are all new appends them after the originals, in order |
| Gazetteer.AccentAliases | gdelt_version_v21.py:331-347 | the accent tests for one name keep the added keys distinct |
| Gazetteer.AddAccentVariants | gdelt_version_v21.py:331-347 | the loop over the accent tests produces exactly the entries of `AccentAliases` |
| Gazetteer.AliasPass | gdelt_version_v21.py:326-347 | one pass of the alias loop body produces exactly `AliasStep` |
| Gazetteer.Merge | gdelt_version_v21.py:349 | assigning the additional entries one by one is exactly `Update` |
| Gazetteer.LoadAliases | gdelt_version_v21.py:325-349 | the whole alias loop followed by `update` gives `Update(db, Aliases(pairs, db))` |
| Gazetteer.AliasesSourced | gdelt_version_v21.py:325-347 | every added entry is a variant of an original key and maps to that key's very record |
| Gazetteer.AliasKeysAreNew | gdelt_version_v21.py:325-347 | for a table of lower-case keys that are not accent targets, no added key equals an original key |
| Gazetteer.LoadedTableExtends | gdelt_version_v21.py:349 | so the update overwrites no original and appends the variants after the originals |
| Gazetteer.AccentAliasesKeepUpper | gdelt_version_v21.py:331-347 | the accent tests never touch a key with an upper-case letter |
| Gazetteer.PlainKeyNotAliased | gdelt_version_v21.py:325-347 | a lower-case key that is not an accent target is never among the added keys |
| Gazetteer.EveryKeyGetsTitleVariant | gdelt_version_v21.py:328-329 | every original key's title-cased variant is added and maps to the key's own record |
| Gazetteer.AccentPairsAreLower | gdelt_version_v21.py:331-347 | the eight accent targets are all lower case |
| Gazetteer.RowsDistinct | gdelt_version_v21.py:33-322 | the sample rows have distinct keys |
| Gazetteer.RowsPlain | gdelt_version_v21.py:33-322 | the sample rows' keys are lower case, have a letter and are no accent target |
| Gazetteer.RowsLoad | gdelt_version_v21.py:325-349 | loading the sample rows appends their variants after them |
| Gazetteer.RowsKiberaVariant | gdelt_version_v21.py:328-329 | loading gives `Kibera` the record of `kibera` |
| Resolver.SearchWord | gdelt_version_v21.py:548-549 | `re.search(r'\b' + re.escape(k) + r'\b', t)` returns the leftmost whole-word occurrence, or none when there is none |
| Resolver.KeyHitsIff | gdelt_version_v21.py:548-549 | a key hits exactly when its lowered form occurs somewhere as a whole word (both directions) |
| Resolver.NothingHitsEmpty | gdelt_version_v21.py:539-540 | no key hits the empty text in any of the three passes |
| Resolver.FirstOfKind | gdelt_version_v21.py:545-550 | one pass returns the first entry of the kind that hits, and none exactly when no entry of the kind hits |
| Resolver.ExtractLocation | gdelt_version_v21.py:537-566 | empty text gives no location. The first settlement hit gives `(key, city, country, rec)`. With no settlement hit, the first city hit gives `(None, key, country, rec)`. With neither, the first country hit gives `(None, city, key, rec)`. With no hit at all the result is four `None`s |
| Resolver.RecordFromGazetteer | gdelt_version_v21.py:537-566 | a returned record belongs to an entry whose key occurs in the text as a whole word |
| Resolver.SettlementWins | gdelt_version_v21.py:545-550 | a settlement anywhere in the text beats every city and country, and the winner is the first such settlement |
| Resolver.ResultShape | gdelt_version_v21.py:537-566 | the result's shape tells which pass matched, and there is no record exactly when no pass hit |
| Resolver.ExtraEntriesInvisible | gdelt_version_v21.py:545-564 | entries appended after the originals change no result when they are shadowed or do not hit |
| Resolver.VariantsInvisible | gdelt_version_v21.py:349 | on texts without an accent target, the variants the alias loop adds never change the resolver's answer |
| Resolver.NotInsideLongerWord | gdelt_version_v21.py:548 | a key followed by another word character is no whole-word match there |
| Classifier.MatchesCategory | gdelt_version_v21.py:628-630 | the inner keyword loop succeeds exactly when some keyword of the list is a substring |
| Classifier.FirstCategory | gdelt_version_v21.py:627-630 | the outer loop returns the first category with a keyword in the text, and none when there is none |
| Classifier.ExtractEventType | gdelt_version_v21.py:568-632 | empty text is `other`. Otherwise the result is the name of the first category in declaration order with a keyword in the lowered text, or `other` when there is none |
| Classifier.ResultIsTag | gdelt_version_v21.py:568-632 | the result is always one of the nine tags |
| Classifier.EvictionShadowsLandRights | gdelt_version_v21.py:576-612 | text containing `eviction` is classified `eviction`, although `land_rights` lists the word too |
| Classifier.LandRightsExcludesEarlier | gdelt_version_v21.py:576-612 | a `land_rights` result means no keyword of the five earlier categories occurs, `eviction` included |
| Classifier.NamedResultExcludesEarlier | gdelt_version_v21.py:627-630 | a result naming category `k` means no earlier category has a keyword in the text |
| Counts.AnyWordAt | gdelt_version_v21.py:640-646 | an alternation matches at `i` exactly when one of its words occurs there |
| Counts.Leftmost | gdelt_version_v21.py:650 | the least start that satisfies the matcher, and none when no start does |
| Counts.SearchSpec | gdelt_version_v21.py:650 | `re.search` returns the leftmost start where the pattern matches, and none when it matches nowhere |
| Counts.SearchFindsAt | gdelt_version_v21.py:650 | a match with none before it is what `re.search` returns |
| Counts.Group | gdelt_version_v21.py:652 | group 1 of every pattern but the second is a `\d+,?\d*` number, and that of the second is `hundreds`, `thousands` or `millions` |
| Counts.PatternValue | gdelt_version_v21.py:651-661 | a pattern yields a value exactly when it matches somewhere |
| Counts.ExtractAffectedCount | gdelt_version_v21.py:634-662 | empty text gives `None`. Otherwise the first pattern in list order that matches anywhere decides the value of its group, and the result is `None` exactly when no pattern matches |
| Counts.FromPatternSpec | gdelt_version_v21.py:649-662 | the loop over the patterns returns the value of the first that matches, and `None` exactly when none matches |
| Counts.GroupAlwaysValued | gdelt_version_v21.py:653-660 | every capture has a value, so the loop never moves past a matching pattern |
| Counts.NumberHasValue | gdelt_version_v21.py:653-654 | a number's value is the decimal value of its digits with the comma removed |
| Counts.DecidingPatterns | gdelt_version_v21.py:639-647 | the deciding pattern is always the first, second, third or seventh |
| Counts.LaterNumberPatternsShadowed | gdelt_version_v21.py:643-645 | any text that `over …`, `more than …` or the range pattern matches also matches pattern 1 |
| Counts.NumberPatternStartsWithDigit | gdelt_version_v21.py:640-646 | the patterns that begin with a number match only where a digit stands |
| Counts.LeadingNumberOfPeople | gdelt_version_v21.py:640 | the first digit run followed by a space and a group noun gives its decimal value |
| Counts.RangeCountsUpperBound | gdelt_version_v21.py:640-645 | `a to b people` counts `b`, because pattern 1 matches `b people` first |
| Counts.TwoCommasDropLeadingGroup | gdelt_version_v21.py:640 | for `a,b,c people` the count is the digits of `b` followed by those of `c`, and `a` is dropped |
| Counts.TenToTwentyPeople | gdelt_version_v21.py:640-645 | `10 to 20 people` counts 20 |
| Counts.SeparatedThousands | gdelt_version_v21.py:640 | `12,345,678 people` counts 345678 |
| Counts.MultitudeCount | gdelt_version_v21.py:655-660 | a text without digits opening with `hundreds`/`thousands`/`millions` `of` and a group noun counts 300, 2000 or 100000 respectively |
| Counts.MultitudeValue | gdelt_version_v21.py:655-660 | `hundreds`, `thousands` and `millions` are worth 300, 2000 and 100000 |
| Counts.ThousandsOfResidents | gdelt_version_v21.py:641 | `thousands of residents` counts 2000 |
| Counts.KiberaCount | gdelt_version_v21.py:640 | `residents of kibera protest eviction of 300 families` counts 300 |
| Legend.Max | gdelt_version_v21.py:777 | `max(event_counts)` is an element no smaller than any other |
| Legend.LegendIntervals | gdelt_version_v21.py:767-811 | the tiers start at 1, none is empty, each starts right after the previous one, and they take blue, orange, red (and dark red) in order. No counts gives the four fixed tiers ending at 2, 5, 10 and 1000. Otherwise the three tiers end at 1/3/5, 3/7/15, 5/15/30 or 10/25/50 for a maximum up to 5, 15, 30 or 50, and at `m // 3`, `m // 3 * 2` and `m` above 50 |
| Legend.IntensityColor | gdelt_version_v21.py:1141-1164 | the page's colour is always blue, orange or red |
| Legend.Covered | gdelt_version_v21.py:767-811 | every count from 1 to the last tier's maximum lies in some tier |
| Legend.Disjoint | gdelt_version_v21.py:767-811 | no count lies in two tiers |
| Legend.EveryCountInOneTier | gdelt_version_v21.py:777-811 | every count from 1 to the maximum lies in exactly one of the three tiers |
| Legend.ColourAgreesFor | gdelt_version_v21.py:1141-1164 | for the same maximum, the page's colour of a count is the colour of the Python tier holding it |
| Legend.ColourAgrees | gdelt_version_v21.py:1141-1164 | the page's colours agree with the legend computed from the counts |
| Legend.HundredTwenty | gdelt_version_v21.py:805-811 | the single count 120 gives tiers 1-40, 41-80 and 81-120, the last captioned `High (81+)` |
| SeenDate.FieldAt | gdelt_version_v21.py:516-518 | `int(s[i:j])` succeeds exactly when the slice is all digits, and then is the slice's decimal value (below 10^(j-i)) |
| SeenDate.Fields | gdelt_version_v21.py:514-531 | parsing succeeds exactly when `[0:4]`, `[4:6]`, `[6:8]` and the clock pairs the stamp is long enough to hold are digits and form a valid date-time; the result is then year, month, day from those slices and hour, minute, second from `[8:10]`, `[10:12]`, `[12:14]` or 0 |
| SeenDate.IsoFormat | gdelt_version_v21.py:531-532 | `isoformat() + "Z"` is 20 characters `YYYY-MM-DDTHH:MM:SSZ` whose six digit fields read back the year, month, day, hour, minute and second |
| SeenDate.ParseSeenDate | gdelt_version_v21.py:509-535 | a stamp shorter than 8 characters, or one whose fields fail, gives the clock's reading plus `Z`. Otherwise the result is the RFC 3339 rendering of the parsed date-time |
| SeenDate.DigitsInPlace | gdelt_version_v21.py:511-532 | every digit lands in its place: `YYYYMMDDHHMMSS` is written `YYYY-MM-DDTHH:MM:SSZ`, with `00` for each clock pair a short stamp lacks |
| SeenDate.Compact | gdelt_version_v21.py:515-529 | GDELT's compact stamp of a date-time is 14 digits |
| SeenDate.CompactRoundTrip | gdelt_version_v21.py:509-535 | parsing a date-time's compact stamp gives the date-time back, rendered in the RFC 3339 form |
| SeenDate.FieldsRoundTrip | gdelt_version_v21.py:516-531 | a 14-character stamp that parses is the compact stamp of what it parses to |
| SeenDate.ShortStampsAreZeroFilled | gdelt_version_v21.py:520-529 | hours, minutes or seconds that the stamp is too short to hold are 0 |
| SeenDate.IsoFormatInjective | gdelt_version_v21.py:531-532 | two date-times with the same rendering are equal |
| SeenDate.NoThirtiethOfFebruary | gdelt_version_v21.py:530-535 | `20230230` is no date and falls back to the clock |
| SeenDate.FullStamp | gdelt_version_v21.py:509-535 | `20240315123045` becomes `2024-03-15T12:30:45Z` |
| Pipeline.Take | gdelt_version_v21.py:713-714 | `s[:n]` is a prefix of at most `n` characters, the whole string when it is short |
| Pipeline.EventDate | gdelt_version_v21.py:693-701 | the date is a prefix without `T`: everything before the first `T`, or the first 10 characters when there is none |
| Pipeline.EventOf | gdelt_version_v21.py:682-734 | an article yields an event exactly when its text resolves to a record |
| Pipeline.EventFields | gdelt_version_v21.py:712-734 | coordinates, location type, the three names and the address are those of the resolver's result. The title is `title[:150]`, the description `description[:200]` or `''`, the date `EventDate(publishedAt)`. Event type and count are the classifier's and the extractor's on the article's text. URL, source, text and query are copied |
| Pipeline.SettlementEvent | gdelt_version_v21.py:703-705 | a settlement hit gives the address `Title(key), city, country` and the settlement's coordinates |
| Pipeline.CityEvent | gdelt_version_v21.py:703-707 | a city hit gives the address `Title(key), country`, no settlement, and the city's coordinates |
| Pipeline.ProcessArticles | gdelt_version_v21.py:664-734 | the loop returns the events of the resolving articles, in input order, and counts them |
| Pipeline.ProcessOne | gdelt_version_v21.py:673-734 | one iteration extends the events of the articles before it by that article's event, if any |
| Pipeline.EventsOfStep | gdelt_version_v21.py:682-734 | one more article appends its event exactly when it resolves |
| Pipeline.EventsOfAppend | gdelt_version_v21.py:673-734 | the events of two batches are the events of the first followed by those of the second |
| Pipeline.EventsOfOne | gdelt_version_v21.py:682-734 | a single article yields its event when it resolves and nothing otherwise |
| Pipeline.EventsFromArticles | gdelt_version_v21.py:673-734 | every event is the event of some input article |
| Pipeline.ResultOfEntry | gdelt_version_v21.py:537-566 | a result with a record is the settlement, city or country result of an entry of the table |
| Pipeline.CountryAddressUnreachable | gdelt_version_v21.py:703-709 | when every record has a city, every event has a city and its address is never the bare country |
| Search.AllSearchQueries | gdelt_version_v21.py:387-408 | the queries are exactly the settlement keys of the table and the keywords of the four languages |
| Search.DedupArticles | gdelt_version_v21.py:479-492 | the loop keeps exactly the articles at the kept indices, in order |
| Search.DedupStep | gdelt_version_v21.py:484-492 | an article is kept exactly when its key (its URL, or its title's hash when it has none) is not yet seen, and the key is then marked seen |
| Search.KeptAscending | gdelt_version_v21.py:479-492 | the kept articles keep their input order |
| Search.KeptFirst | gdelt_version_v21.py:479-492 | each kept article is the first with its key |
| Search.KeptCovers | gdelt_version_v21.py:479-492 | every key of the input is the key of a kept article |
| Search.KeysDistinct | gdelt_version_v21.py:479-492 | the kept articles have pairwise distinct keys |
| Search.DedupIdempotent | gdelt_version_v21.py:479-492 | de-duplicating the result again changes nothing |
| Search.NoDuplicatesKeepsAll | gdelt_version_v21.py:479-492 | a list whose keys are already distinct is kept whole |
| Scenarios.KiberaReport | gdelt_version_v21.py:537-566 | over the sample rows, `residents of kibera protest eviction of 300 families` resolves to `('kibera', 'Nairobi', 'Kenya', rec)` |
| Scenarios.KiberaIsEviction | gdelt_version_v21.py:568-632 | that report is classified `eviction` |
| Scenarios.TitleLowerWord | gdelt_version_v21.py:705-707 | `.title()` of a lower-case key such as `kibera` or `lagos` raises its first letter and leaves the rest as it is |
| Scenarios.KiberaAddress | gdelt_version_v21.py:705 | Kibera's address line is `Kibera, Nairobi, Kenya` |
| Scenarios.KiberaEvent | gdelt_version_v21.py:682-734 | the article carrying that report yields an `eviction` event at Kibera's coordinates with address `Kibera, Nairobi, Kenya` and count 300 |
| Scenarios.EthiopiaReport | gdelt_version_v21.py:560-564 | `floods in ethiopia` names no settlement or city and resolves to the country, with the record's city `Addis Ababa` |
| Scenarios.LagosReport | gdelt_version_v21.py:553-557 | `floods reported in lagos` names no settlement and resolves through the city pass to `(None, 'lagos', 'Nigeria', rec)` |
| Scenarios.LagosEvent | gdelt_version_v21.py:703-707 | the article carrying that report yields an event at Lagos's coordinates addressed `Lagos, Nigeria` |
| Scenarios.EthiopiaFirst | gdelt_version_v21.py:560-564 | the country pass picks the first country key that hits |
| Scenarios.NoWholeWord | gdelt_version_v21.py:548 | `protest in mbarexyz` resolves to nothing: `mbare` occurs only inside a longer word |
| Scenarios.NoSettlement | gdelt_version_v21.py:545-550 | with no settlement key hitting, the settlement pass finds nothing |
| Scenarios.NoCity | gdelt_version_v21.py:553-557 | with no city key hitting, the city pass finds nothing |
| Scenarios.NoCountry | gdelt_version_v21.py:560-564 | with no country key hitting, the country pass finds nothing |
| Scenarios.Missing | gdelt_version_v21.py:548-549 | a key with a character the text lacks does not hit |
| Scenarios.Present | gdelt_version_v21.py:548-549 | a lower-case key standing as a whole word in the text hits |

## Left out

- Network I/O: the GDELT request loop of `search_gdelt_only`, JSON decoding and `time.sleep`. The de-duplication loop receives the collected articles as its input.
- The MD5 title hash is a foreign library call. It is the parameter `hash` of the de-duplication functions.
- `datetime.now()` reads a non-deterministic clock. It is the parameter `now` of `ParseSeenDate`, and the fallback in `process_articles` cannot fire (see below).
- `print` output and the `Counter` statistics are console reporting only.
- HTML, CSS and JavaScript generation, file writes and `main` are rendering and I/O. The only exception is the colour rule of `getIntensityColor`. The JavaScript `maxCount` over the grouped markers is taken as the legend's maximum.
- Floating point: coordinates are exact `Coord` values in ten-thousandths of a degree and are only copied. Map centre, marker sizes and chart percentages are rendering.
- Python `int()` leniency (signs, white space, underscores, non-ASCII digits) and the Unicode meaning of `\d`: fields and numbers are ASCII digits. `\s` follows Python's `str.isspace` everywhere; `\w` and `\b` follow Python up to U+00FF, and above that characters count as non-word.
- `str.lower()` and `str.title()` map ASCII letters only. The non-ASCII characters of the table's keys are mojibake and are treated as uncased.
- SeenDate.IsoFormat: `isoformat()` of a clock reading with microseconds is not modelled; every parsed date-time has none.
- The gazetteer is modelled generically over any table of entries. Twelve rows of the source's table (`Rows`) serve as the concrete instance; the other rows are not restated.
- The accent tests are the parameter `pairs` of the alias functions, and `AccentPairs` holds the source's eight. The keyword lists of `load_multilingual_keywords` are the parameter `keywords` of `AllSearchQueries`.
- Search.AllSearchQueries: returns a set. The source's list order comes from iterating a `set`, which is unspecified, so order is not modelled.
- `source.name` is modelled as a plain string. `geocode_confidence` is a constant. `url`, `full_text` and `found_by_query` are copied.
- `processed_count` is only printed. The model keeps `geocoded_count`, which always equals it.
- The `try`/`except` around the published-date split: slicing and `split` cannot raise on a string, so the clock fallback is never used.
- The unused `location_cache` and the commented-out CSV export do nothing.
