# Language-Map core, modelled in Dafny

Language-Map shows which languages are spoken in which countries of the world. This
project models its data core and proves properties of it:

- **Aggregation.** The server loader (`CountryDataLoader`) and the preprocessing script
  (`scripts/PreprocessCountryData.ts`) turn the records of `countryData.json` into two
  maps. One goes from common name to `Country`. The other goes from lowercased language
  name to `Language`, with its `Statistics` and its countries sorted by name.
- **Value types.** `Statistics`, `Country` and `Language`, with their constructors and
  helpers.
- **Map colouring.** `ColoringHelper` gives each selected language a palette colour and
  each reached country the colour of the first language reaching it. `MapHelper` gives
  the fill colour of a country and drops Antarctica from the map.
- **Summary.** `CountryDataHelper.getLanguageSummary` builds the "Totals" language.
- **Languages endpoint.** POST picks the requested languages and builds the analytics
  log counts; GET lists the keys.
- **Country lookup and slugs.** `CountryLookupHelper` keeps a cached index from id to
  country. `CountrySlugService` keeps a cached table from slug to name.
  `CountrySlugHelper` makes and normalises slugs.
- **Small helpers.** `StringHelper`, `FormatHelper` and `SetHelper`.
- **Python data scripts.** `language_converter.py` turns each country's languages dict
  into a list of records. `merge_flags_and_codes.py` copies `cca2` codes and flag emoji
  from a second file, matched by common name.

**How the model is built**

- **Objects.** Objects whose fields the source changes are Dafny classes with
  `modifies` clauses: the loader, the colouring stores, the two caches. The lists the
  Python scripts change in place are arrays. `Country` is a class with constant fields,
  because identity matters to `getLanguageSummary`. `Statistics` and `Language` are
  datatypes.
- **Maps.** A JavaScript `Map` is an `OrderedMap`: a finite map plus its keys in
  insertion order. A Python dict is the same, inside a `Json` value.
- **Loops.** Every loop statement of the source (`for`, `forEach`, `for…of`) is a
  `method` with a `while` loop. Each is proved equal to a function on the old state:
  `CountryIndex`, `LanguageIndex`, `CountryColorTable`, `Selection`, `SlugTable`,
  `RawIndex`, `ConvertCountry`, `MergeItem`. The properties the source promises are
  lemmas about those functions. Comprehensions and `.map`/`.some`/`.filter` calls are
  expressions, so they are functions: the dict comprehension of
  merge_flags_and_codes.py is `IndexByName`, the list comprehension of
  language_converter.py is part of `ConvertCountry`, and the `.map` of the languages
  endpoint is part of `MakeLogEntry`.
- **Things given as parameters.** Reading files, fetching and parsing become arguments:
  `Option` values, `None` when the operation fails. Unicode decomposition is the
  parameter `nfd`, and `localeCompare` is the parameter `leq`, assumed only to be a total
  preorder.

## Model

| member | source | states |
|---|---|---|
| StatisticsModel.FromObject | src/lib/model/statistics.ts:10-33 | each supplied key overrides its zero default; an empty object gives the all-zero statistics |
| StatisticsModel.FromPositional | src/lib/model/statistics.ts:34-39 | each field holds its own positional argument, in the order `totalUNSpeakers`, `numberOfUNCountries`, `totalSpeakers`, `numberOfCountries`; an omitted trailing argument leaves its field undefined, so the result is then never the zero statistics |
| StatisticsModel.PositionalAgreesWithObject | src/lib/model/statistics.ts:10-39 | with all four arguments the positional form equals the object form with the same keys; with the last two omitted it differs, because the object form defaults them to 0 |
| StatisticsModel.SelectorsPickView | src/lib/model/statistics.ts:64-76 | `getSpeakers`/`getCountries` pick the UN view for true and the full view for false; on consistent statistics the UN value is at most the full value |
| StatisticsModel.GetSpeakers | src/lib/model/statistics.ts:64-66 | the UN-member speakers for true, all speakers for false; on consistent statistics a defined value between 0 and all speakers |
| StatisticsModel.GetCountries | src/lib/model/statistics.ts:74-76 | the UN-member count for true, the full count for false; on consistent statistics a defined value between 0 and the full count |
| StatisticsModel.WorldPercentageScalesSpeakers | src/lib/model/statistics.ts:53-56 | the percentage times 8085627000 equals the selected speakers times 100; it is defined exactly when the speakers are; zero speakers give 0 |
| StatisticsModel.GetWorldPercentage | src/lib/model/statistics.ts:53-56 | defined exactly when the selected speakers are; then it times 8085627000 equals the speakers times 100 |
| StatisticsModel.HasNonUNCountriesIff | src/lib/model/statistics.ts:83-85 | true exactly when the full country count exceeds the UN count; false on zero statistics |
| StatisticsModel.HasNonUNCountries | src/lib/model/statistics.ts:83-85 | true exactly when both counts are defined and the full count exceeds the UN count; false on zero statistics |
| CountryModel.Country.FromObject | src/lib/model/country.ts:45-47 | supplied keys are copied; missing ones take the defaults: '' for the name, 0 for the population, [] for the languages, undefined otherwise |
| CountryModel.Country.WithMembership | src/lib/model/country.ts:48-51 | only the id and the UN flag are set; every other field keeps its default |
| CountryModel.Country.constructor | src/lib/model/country.ts:52-63 | every field comes from its positional argument |
| CountryModel.FirstMatch | src/lib/model/country.ts:74-77 | the index of the first entry whose language equals the name ignoring case; none when no entry does |
| CountryModel.Country.GetSpeakers | src/lib/model/country.ts:72-81 | the loop returns the first matching entry's percentage times the population, or 0 |
| CountryModel.SpeakersOfCases | src/lib/model/country.ts:72-81 | with no match the count is 0; otherwise it is the first match's percentage times the population |
| CountryModel.SpeakersOf | src/lib/model/country.ts:72-81 | 0 when no entry matches; otherwise the first match's percentage times the population; never negative for non-negative inputs |
| CountryModel.FirstMatchIgnoresCase | src/lib/model/country.ts:75 | queries that agree after lower-casing give the same match and the same count |
| CountryModel.SpeakersNonNegative | src/lib/model/country.ts:76 | the count is non-negative when the population and the percentages are |
| LanguageModel.NewLanguage | src/lib/model/language.ts:16-31 | name and statistics are kept; each country is re-created as a fresh object with the same nine fields, so no two copies are the same object |
| LanguageModel.HasIdIn | src/lib/model/language.ts:43-45 | true exactly when some country carries the id |
| LanguageModel.HasCountryByIdIff | src/lib/model/language.ts:43-45 | `hasCountryById` holds exactly when a listed country has the id; it never holds on an empty list |
| LanguageModel.HasCountryById | src/lib/model/language.ts:43-45 | true exactly when some listed country has that id; false on an empty list |
| LanguageModel.HasNonUNCountries | src/lib/model/language.ts:52-54 | the statistics' own test, whatever the country list holds |
| LanguageModel.HasNonUNCountriesUsesStatistics | src/lib/model/language.ts:52-54 | agrees with the statistics' own test and ignores the country list |
| CountrySorting.SortByNameSpec | src/lib/server/helpers/CountryDataLoader.ts:110 | the sort orders by common name, keeps every country with its multiplicity, and keeps countries whose names rank equal in their original order (stability) |
| CountrySorting.SortSortedIsIdentity | src/lib/server/helpers/CountryDataLoader.ts:110 | sorting a sorted list changes nothing |
| Aggregation.CountryIndexSpec | src/lib/server/helpers/CountryDataLoader.ts:58-73 | one entry per distinct common name, in order of first appearance; each name maps to the Country of the last record carrying it |
| Aggregation.CountryIndexFrom | src/lib/server/helpers/CountryDataLoader.ts:41-73 | every name already in the map stays; every record's common name gets an entry |
| Aggregation.LanguageIndexKeys | src/lib/server/helpers/CountryDataLoader.ts:82-90 | the language keys are the lowercased names in order of first appearance, each once |
| Aggregation.LanguageIndexFrom | src/lib/server/helpers/CountryDataLoader.ts:41-103 | every key already in the map stays; every key the pass adds is lowercase |
| Aggregation.LanguageIndexSpec | src/lib/server/helpers/CountryDataLoader.ts:80-103 | a key exists exactly when some record names it in any case; each key is lowercase; each entry has the summed counters; its list has one country per occurrence; the UN count is within the total |
| Aggregation.OccurrencesPositive | src/lib/server/helpers/CountryDataLoader.ts:82-90 | a language is counted exactly when some record lists it |
| Aggregation.AllLoweredNamesAreLowerCase | src/lib/server/helpers/CountryDataLoader.ts:84 | every key the pass creates is lowercase |
| Aggregation.OccurringCountriesLength | src/lib/server/helpers/CountryDataLoader.ts:100-101 | a language's country list has one element per counted occurrence |
| Aggregation.OccurringCountriesMembers | src/lib/server/helpers/CountryDataLoader.ts:101 | a country is listed under a language exactly when its own record names that language |
| Aggregation.UNWithinTotal | src/lib/server/helpers/CountryDataLoader.ts:92-100 | the UN count never exceeds the total; for non-negative data, UN speakers lie between 0 and total speakers |
| Aggregation.SortLanguagesSpec | src/lib/server/helpers/CountryDataLoader.ts:108-111 | sorting keeps keys, names and counters; each list becomes a stable, sorted permutation of itself |
| Aggregation.SortLanguages | src/lib/server/helpers/CountryDataLoader.ts:108-111 | the keys and their order are kept; each language keeps its name and counters, and its countries are sorted by name |
| Aggregation.ReplacedCountryStaysListed | src/lib/server/helpers/CountryDataLoader.ts:41-49 | a record replaced in the country map by a later record of the same name is still listed under the languages it names |
| Aggregation.AggregateSpec | src/lib/server/helpers/CountryDataLoader.ts:41-52 | after a pass, each language named anywhere has one entry, keyed and named in lowercase, in first-appearance order; its counters are the sums over its records; its countries are those records, one per occurrence, sorted by name |
| CountryDataLoaderModel.CountryDataLoader.constructor | src/lib/server/helpers/CountryDataLoader.ts:16-20 | both maps start empty |
| CountryDataLoaderModel.CountryDataLoader.LoadAndParse | src/lib/server/helpers/CountryDataLoader.ts:26-35 | a failed read or parse leaves both maps unchanged; otherwise the maps become the closed-form indexes of the records |
| CountryDataLoaderModel.CountryDataLoader.PopulateMaps | src/lib/server/helpers/CountryDataLoader.ts:41-52 | the country map becomes `CountryIndexFrom`; the language map becomes the sorted `LanguageIndexFrom`; one fresh, distinct Country per record |
| CountryDataLoaderModel.CountryDataLoader.PopulateRecords | src/lib/server/helpers/CountryDataLoader.ts:42-49 | after the loop over the records, the country map is `CountryIndexFrom` and the language map is the unsorted `LanguageIndexFrom`; each record gets its own fresh Country, all distinct |
| CountryDataLoaderModel.CountryDataLoader.PopulateRecord | src/lib/server/helpers/CountryDataLoader.ts:42-48 | the record's Country is set under its common name and is always found again, so its languages are always added with that Country |
| CountryDataLoaderModel.CountryDataLoader.PopulateCountryMap | src/lib/server/helpers/CountryDataLoader.ts:58-73 | a fresh Country built from the record is set under its common name; the language map is unchanged |
| CountryDataLoaderModel.CountryDataLoader.PopulateLanguageMap | src/lib/server/helpers/CountryDataLoader.ts:80-103 | the record's language entries are applied in order; the country map is unchanged |
| CountryDataLoaderModel.CountryDataLoader.PopulateLanguageEntry | src/lib/server/helpers/CountryDataLoader.ts:84-101 | a language is created with zero counters on first sight; the UN pair is bumped only for members, the full pair always; the country is appended |
| CountryDataLoaderModel.CountryDataLoader.SortLanguageCountries | src/lib/server/helpers/CountryDataLoader.ts:108-112 | every language's countries are sorted by name; nothing else changes |
| PreprocessCountryData.Run | scripts/PreprocessCountryData.ts:11-51 | nothing is written when the fetch fails; otherwise the two files hold the entries of the country index and of the sorted language index, in map order |
| PreprocessCountryData.ProcessData | scripts/PreprocessCountryData.ts:23-36 | the maps start empty and end as the closed-form country index and the sorted language index of the records |
| PreprocessCountryData.PopulateCountryMap | scripts/PreprocessCountryData.ts:53-68 | the returned map is the given one with a fresh Country set under the common name |
| PreprocessCountryData.PopulateLanguageMap | scripts/PreprocessCountryData.ts:70-92 | the returned map applies the record's language entries in order |
| PreprocessCountryData.PopulateLanguageEntry | scripts/PreprocessCountryData.ts:72-90 | the returned map applies one occurrence: create on first sight, bump counters, append the country |
| PreprocessCountryData.SortLanguageCountries | scripts/PreprocessCountryData.ts:94-98 | the returned map has every language's countries sorted by name |
| ColoringHelperModel.LanguageColorByIndex | src/lib/helpers/ColoringHelper.ts:78-80 | always a palette colour; the colour at that position for indexes below 16 |
| ColoringHelperModel.PaletteWraps | src/lib/helpers/ColoringHelper.ts:78-80 | the colours repeat every sixteen indexes |
| ColoringHelperModel.PaletteIsHex | src/lib/helpers/ColoringHelper.ts:5-22 | every palette entry is a `#rrggbb` string, so it is neither empty nor "none" |
| ColoringHelperModel.Lookup | src/lib/helpers/ColoringHelper.ts:56-59 | the stored colour when it is non-empty; "none" for a missing key or an empty colour |
| ColoringHelperModel.ColoringState.AssignColors | src/lib/helpers/ColoringHelper.ts:30-48 | both stores are replaced by the tables the nested loops build: `LanguageColorTable` and `CountryColorTable` |
| ColoringHelperModel.ColoringState.ColorByLanguageName | src/lib/helpers/ColoringHelper.ts:56-59 | the stored colour of that exact name; "none" when it is not stored |
| ColoringHelperModel.ColoringState.ColorByCountryId | src/lib/helpers/ColoringHelper.ts:67-70 | the stored colour of that exact id; "none" when it is not stored |
| ColoringHelperModel.AddCountryColorsSpec | src/lib/helpers/ColoringHelper.ts:39-43 | an id enters only when non-empty and absent; an id already present keeps its colour |
| ColoringHelperModel.LanguageColorTable | src/lib/helpers/ColoringHelper.ts:34-37 | every selected name gets a colour, and every colour is from the palette |
| ColoringHelperModel.AddCountryColors | src/lib/helpers/ColoringHelper.ts:39-43 | existing entries are kept; every added id is non-empty and gets the language's colour |
| ColoringHelperModel.CountryColorTable | src/lib/helpers/ColoringHelper.ts:34-44 | every id is non-empty and every colour is from the palette |
| ColoringHelperModel.CountryColorTableSpec | src/lib/helpers/ColoringHelper.ts:34-44 | the country table holds exactly the non-empty ids some language reaches, each with the colour of the first language reaching it |
| ColoringHelperModel.LanguageColorTableKeys | src/lib/helpers/ColoringHelper.ts:34-37 | the language table holds exactly the selected names |
| ColoringHelperModel.LanguageColorTableLast | src/lib/helpers/ColoringHelper.ts:34-37 | a repeated name gets the colour of its last position |
| ColoringHelperModel.TablesUsePalette | src/lib/helpers/ColoringHelper.ts:34-44 | every colour in either table comes from the palette |
| ColoringHelperModel.LookupAfterAssign | src/lib/helpers/ColoringHelper.ts:56-70 | after assignColors, a listed key yields its assigned colour, never "none"; any other key yields "none" |
| MapHelperModel.AnyHasCountry | src/lib/helpers/MapHelper.ts:84-86 | true exactly when some selected language reaches the id |
| MapHelperModel.GetCountryFillColorAsWritten | src/lib/helpers/MapHelper.ts:78-91 | as written: it succeeds exactly when some language reaches the id, and then gives the country's stored colour; every default branch throws |
| MapHelperModel.FillColorAsWrittenThrows | src/lib/helpers/MapHelper.ts:80-90 | with no languages, or none reaching the id, the code as written throws; where it returns, it agrees with the corrected function |
| MapHelperModel.GetCountryFillColor | src/lib/helpers/MapHelper.ts:78-91 | corrected: the country's stored colour when a selected language reaches it, "none" otherwise |
| MapHelperModel.FillColorAfterAssign | src/lib/helpers/MapHelper.ts:84-90 | with the table assignColors built, a reached country gets the colour of the first language reaching it, which is a palette colour; any other country gets "none" |
| MapHelperModel.ProcessCountries | src/lib/helpers/MapHelper.ts:34-37 | outside condensed mode the list is unchanged; in condensed mode a feature stays exactly when its id is not '010' |
| MapHelperModel.ProcessBorders | src/lib/helpers/MapHelper.ts:50-54 | outside condensed mode every geometry stays; in condensed mode a geometry stays exactly when its id is not '010' |
| MapHelperModel.Filter | src/lib/helpers/MapHelper.ts:36 | an element stays exactly when the predicate accepts it; the result is never longer |
| MapHelperModel.FilterAppend | src/lib/helpers/MapHelper.ts:36 | filtering a concatenation is the concatenation of the filtered parts, so the order is kept |
| MapHelperModel.ProcessKeepsOrder | src/lib/helpers/MapHelper.ts:34-54 | both filters distribute over concatenation, so kept entries keep their order; one feature stays exactly when it is not Antarctica in condensed mode |
| MapHelperModel.FiltersAgree | src/lib/helpers/MapHelper.ts:34-54 | the border filter and the country filter keep the same entries in the same order; outside condensed mode they keep everything |
| MapHelperModel.ProcessCountriesIdempotent | src/lib/helpers/MapHelper.ts:34-37 | filtering twice is filtering once |
| CountryDataHelperModel.GetLanguageSummary | src/lib/helpers/CountryDataHelper.ts:17-37 | the result is named "Totals" and has the statistics as written; it holds fresh copies of the distinct input countries in first-occurrence order |
| CountryDataHelperModel.AddEach | src/lib/helpers/CountryDataHelper.ts:25 | adding a list to the Set gives the distinct elements of everything added so far, in first-occurrence order |
| CountryDataHelperModel.SummaryCountriesSpec | src/lib/helpers/CountryDataHelper.ts:20-31 | every input country appears exactly once; the count is at most the total; with no shared objects the list is the plain concatenation |
| CountryDataHelperModel.AllCountriesMembers | src/lib/helpers/CountryDataHelper.ts:23-25 | a country is gathered exactly when some selected language lists it |
| CountryDataHelperModel.SummaryStatisticsAsWritten | src/lib/helpers/CountryDataHelper.ts:33 | as written: the full-view fields are left undefined |
| CountryDataHelperModel.SummaryAsWrittenMisplacesTotals | src/lib/helpers/CountryDataHelper.ts:33 | as written, the total speakers and the country count land in the UN fields; the result differs from the intended statistics even for an empty selection |
| CountryDataHelperModel.SpeakerSumBounds | src/lib/helpers/CountryDataHelper.ts:21-28 | summing consistent statistics gives defined sums with the UN sum between 0 and the full sum |
| CountryDataHelperModel.SummaryStatisticsConsistent | src/lib/helpers/CountryDataHelper.ts:33 | corrected: the summary statistics are consistent; the country count is the number of distinct countries; total speakers is the sum |
| LanguagesApi.LowerAll | src/routes/api/languages/+server.ts:59 | each requested name is lowercased, position by position |
| LanguagesApi.Selection | src/routes/api/languages/+server.ts:58-71 | never more answers than requested names |
| LanguagesApi.SelectLanguages | src/routes/api/languages/+server.ts:55-71 | the loop's answer equals `Selection`: the stored language of each lowercased name, looked up once, in order of first request |
| LanguagesApi.StoredIsKnown | src/routes/api/languages/+server.ts:64-69 | each answered language is the map's entry for a known key; unknown keys are dropped |
| LanguagesApi.SelectionSpec | src/routes/api/languages/+server.ts:58-71 | no more answers than names; no key is answered twice; each answer comes from a requested name; every known requested name is answered |
| LanguagesApi.SelectionIgnoresCase | src/routes/api/languages/+server.ts:59 | requests that agree after lower-casing get the same answer |
| LanguagesApi.RepeatIgnored | src/routes/api/languages/+server.ts:61-63 | repeating a name, in any casing, adds nothing |
| LanguagesApi.MakeLogEntry | src/routes/api/languages/+server.ts:74-81 | the log counts equal the lengths of the lists they describe; the valid names are the answers' names lowercased |
| LanguagesApi.LanguageKeys | src/routes/api/languages/+server.ts:21 | GET lists the map's keys as stored, in insertion order: each stored key exactly once and nothing else |
| LanguagesApi.LanguageKeysOfIndex | src/routes/api/languages/+server.ts:21 | on the map the loader builds, GET lists the lowercased language names of the records, each once, in order of first appearance |
| CountryLookupHelperModel.IdOf | src/lib/helpers/CountryLookupHelper.ts:64 | an entry is indexed only under its own non-empty id |
| CountryLookupHelperModel.RawIndex | src/lib/helpers/CountryLookupHelper.ts:61-67 | every indexed id is non-empty and holds an entry carrying that id |
| CountryLookupHelperModel.BuildIndex | src/lib/helpers/CountryLookupHelper.ts:61-67 | the built map has the ids of `RawIndex`, each holding a fresh Country made from that id's data |
| CountryLookupHelperModel.CountryLookupHelper.constructor | src/lib/helpers/CountryLookupHelper.ts:22 | the cache starts empty |
| CountryLookupHelperModel.CountryLookupHelper.ClearCache | src/lib/helpers/CountryLookupHelper.ts:28-31 | the cache is dropped |
| CountryLookupHelperModel.CountryLookupHelper.LoadCountryMap | src/lib/helpers/CountryLookupHelper.ts:47-80 | a cached index is returned unchanged; otherwise the built index is cached and returned, or an empty one when the download fails |
| CountryLookupHelperModel.CountryLookupHelper.GetCountryById | src/lib/helpers/CountryLookupHelper.ts:38-45 | nothing for a missing or empty id, without loading; otherwise the indexed country, or nothing |
| CountryLookupHelperModel.RawIndexKeys | src/lib/helpers/CountryLookupHelper.ts:63-67 | an id is indexed exactly when some entry carries it, and it is never empty |
| CountryLookupHelperModel.RawIndexLast | src/lib/helpers/CountryLookupHelper.ts:66 | a later entry with the same id overwrites an earlier one |
| CountryLookupHelperModel.SkippedEntries | src/lib/helpers/CountryLookupHelper.ts:64 | an entry without a usable id leaves the index unchanged |
| CountrySlugServiceModel.SlugOf | src/lib/server/helpers/CountrySlugService.ts:53-58 | an entry is stored only when its name is non-empty and its slug is non-empty, under that slug |
| CountrySlugServiceModel.SlugTable | src/lib/server/helpers/CountrySlugService.ts:50-61 | every stored slug is non-empty and maps to a non-empty name |
| CountrySlugServiceModel.CountrySlugService.constructor | src/lib/server/helpers/CountrySlugService.ts:8-9 | both caches start empty |
| CountrySlugServiceModel.CountrySlugService.ClearCache | src/lib/server/helpers/CountrySlugService.ts:12-16 | both caches are dropped |
| CountrySlugServiceModel.CountrySlugService.GetAllCountrySlugs | src/lib/server/helpers/CountrySlugService.ts:18-21 | with both caches loaded they stay as they are and their slug list is returned; otherwise after loading, the table's keys, or [] when reading fails |
| CountrySlugServiceModel.CountrySlugService.GetCountryNameBySlug | src/lib/server/helpers/CountrySlugService.ts:23-30 | nothing for an empty slug, without loading; with both caches loaded they stay as they are and the stored name is returned; otherwise after loading, the table's name for the slug, or nothing |
| CountrySlugServiceModel.CountrySlugService.EnsureLoaded | src/lib/server/helpers/CountrySlugService.ts:32-42 | loads only when a cache is missing; loaded caches are unchanged |
| CountrySlugServiceModel.CountrySlugService.LoadCountryEntries | src/lib/server/helpers/CountrySlugService.ts:44-72 | the loop builds `SlugTable` and its key list; empty caches when reading or parsing fails |
| CountrySlugServiceModel.SlugTableSpec | src/lib/server/helpers/CountrySlugService.ts:50-61 | the table is a well-formed map; no key is empty; each stored name slugs to its key |
| CountrySlugServiceModel.SlugTableKeys | src/lib/server/helpers/CountrySlugService.ts:52-61 | a slug is stored exactly when some entry produces it |
| CountrySlugServiceModel.SlugTableLast | src/lib/server/helpers/CountrySlugService.ts:59 | when names share a slug, the later name wins |
| CountrySlugServiceModel.SlugListOrder | src/lib/server/helpers/CountrySlugService.ts:64 | the slug list is the stored slugs in order of first insertion, without repeats |
| CountrySlugHelper.StripMarks | src/lib/helpers/CountrySlugHelper.ts:6 | no combining mark U+0300-U+036F remains; text without marks is unchanged; a single character is kept exactly when it is not a mark |
| CountrySlugHelper.StripMarksAppend | src/lib/helpers/CountrySlugHelper.ts:6 | the removal works character by character: stripping a concatenation is the concatenation of the stripped parts |
| CountrySlugHelper.BlankDisallowed | src/lib/helpers/CountrySlugHelper.ts:22 | same length; each character in `[a-zA-Z0-9\s-]` stays in place and every other character becomes a space |
| CountrySlugHelper.DeleteDisallowed | src/lib/helpers/CountrySlugHelper.ts:40 | only `[a-zA-Z0-9-]` remains; text made of those is unchanged; text with none of them becomes ''; a single character is kept exactly when it is allowed |
| CountrySlugHelper.DeleteDisallowedAppend | src/lib/helpers/CountrySlugHelper.ts:40 | the deletion works character by character: it distributes over concatenation, so the kept characters keep their order |
| CountrySlugHelper.Trim | src/lib/helpers/CountrySlugHelper.ts:23 | the result is the slice of the input between its leading and its trailing white space: everything cut is white space and the result neither starts nor ends with white space |
| CountrySlugHelper.CollapseDashesLast | src/lib/helpers/CountrySlugHelper.ts:25 | collapsing dashes leaves no two dashes in a row and keeps whether the text ends in a dash |
| CountrySlugHelper.CollapseRuns | src/lib/helpers/CountrySlugHelper.ts:24-25 | never longer than the input, and empty exactly when the input is |
| CountrySlugHelper.CollapseRunsPlain | src/lib/helpers/CountrySlugHelper.ts:24-25 | characters outside the run class are appended unchanged |
| CountrySlugHelper.CollapseRunsRun | src/lib/helpers/CountrySlugHelper.ts:24-25 | a whole run after a character outside the class becomes one replacement character |
| CountrySlugHelper.CollapseRunsChars | src/lib/helpers/CountrySlugHelper.ts:24-25 | every character after collapsing is the replacement or an input character outside the run class |
| CountrySlugHelper.ToCountrySlug | src/lib/helpers/CountrySlugHelper.ts:16-29 | '' for a missing or empty name; otherwise only `[a-z0-9-]` with no two dashes in a row |
| CountrySlugHelper.NormalizeCountrySlug | src/lib/helpers/CountrySlugHelper.ts:34-44 | '' for a missing or empty slug; otherwise the same canonical format |
| CountrySlugHelper.SlugOfTwoWords | src/lib/helpers/CountrySlugHelper.ts:16-29 | two alphanumeric ASCII words separated by a run of spaces become the lowercased words joined by one dash |
| CountrySlugHelper.NormalizeOfTwoWords | src/lib/helpers/CountrySlugHelper.ts:34-44 | the same input given as a slug loses its spaces: the lowercased words are joined with nothing between them |
| CountrySlugHelper.StepsFixSlug | src/lib/helpers/CountrySlugHelper.ts:21-43 | every step of either function leaves a canonical slug unchanged |
| CountrySlugHelper.ToCountrySlugIdempotent | src/lib/helpers/CountrySlugHelper.ts:16-29 | slugging a slug gives the same slug |
| CountrySlugHelper.SlugIsNormalized | src/lib/helpers/CountrySlugHelper.ts:16-44 | normalising a generated slug gives it back unchanged |
| StringHelperModel.CharAt | src/lib/helpers/StringHelper.ts:49 | the one-character string at the index, or '' past the end |
| StringHelperModel.Slice | src/lib/helpers/StringHelper.ts:49 | the rest of the text from the index, or '' past the end |
| StringHelperModel.Capitalize | src/lib/helpers/StringHelper.ts:48-50 | same length; the first character is upper-cased; the rest is unchanged |
| StringHelperModel.CapitalizeIdempotent | src/lib/helpers/StringHelper.ts:48-50 | capitalising twice is capitalising once |
| StringHelperModel.LastIndexFrom | src/lib/helpers/StringHelper.ts:61 | the last occurrence at or before the start position, or -1 when there is none |
| StringHelperModel.LastIndexOf | src/lib/helpers/StringHelper.ts:61 | -1 exactly when there is no occurrence; otherwise an occurrence with none after it; an empty pattern gives the length |
| StringHelperModel.ReplaceSubString | src/lib/helpers/StringHelper.ts:60-71 | the text is unchanged when there is no case-insensitive occurrence |
| StringHelperModel.ReplaceSubStringHit | src/lib/helpers/StringHelper.ts:63-68 | on a hit, the last case-insensitive occurrence is replaced; the text around it keeps its casing; the length changes by the difference |
| StringHelperModel.ReplaceEmptyAppends | src/lib/helpers/StringHelper.ts:61-68 | replacing the empty string appends the new value |
| StringHelperModel.ReplaceIgnoresCase | src/lib/helpers/StringHelper.ts:61 | search strings that agree ignoring case give the same result |
| FormatHelperModel.Capitalize | src/lib/helpers/FormatHelper.ts:23-25 | same length; empty text stays empty |
| FormatHelperModel.CapitalizeAgrees | src/lib/helpers/FormatHelper.ts:23-25 | agrees with StringHelper's capitalize on every input, and is idempotent |
| SetHelperModel.AreSetsEqual | src/lib/helpers/SetHelper.ts:13-17 | true exactly when the two sets are equal |
| SetHelperModel.SubsetOfSameSize | src/lib/helpers/SetHelper.ts:14-16 | same size plus every element of A in B means the sets are equal, which justifies the early exit |
| SetHelperModel.Difference | src/lib/helpers/SetHelper.ts:25-31 | the result is A minus B |
| SetHelperModel.SetFacts | src/lib/helpers/SetHelper.ts:13-31 | sets of different sizes are unequal; the difference is empty exactly when A is within B |
| LanguageConverter.LanguageRecord | Python_Helpers/1.convert_languages/language_converter.py:21 | a dict with keys language, percentage, notes, in that order; the value under language; None under the others |
| LanguageConverter.ConvertLanguages | Python_Helpers/1.convert_languages/language_converter.py:19-22 | on success each entry becomes its `ConvertCountry` value; on an exception at one entry, earlier entries are converted and the rest are untouched |
| LanguageConverter.ConvertCountrySpec | Python_Helpers/1.convert_languages/language_converter.py:20-22 | a dict without languages is unchanged; otherwise languages becomes one record per value, in dict order; the key keeps its place; every other key and value is kept |
| LanguageConverter.ConvertCountry | Python_Helpers/1.convert_languages/language_converter.py:20-22 | a dict without languages comes back unchanged; any other value that succeeds is unchanged; a converted dict keeps its keys in order |
| LanguageConverter.SecondRunFails | Python_Helpers/1.convert_languages/language_converter.py:21 | a converted country makes a second run raise, because its languages is now a list |
| MergeFlagsAndCodes.IsValidFlagEmoji | Python_Helpers/2.flag_and_codes/merge_flags_and_codes.py:4-6 | true exactly when the first two characters are regional indicators U+1F1E6-U+1F1FF |
| MergeFlagsAndCodes.FlagIgnoresTail | Python_Helpers/2.flag_and_codes/merge_flags_and_codes.py:6 | the match is anchored at the start only: characters after the first two do not matter |
| MergeFlagsAndCodes.PlaceholderFlagInvalid | Python_Helpers/2.flag_and_codes/merge_flags_and_codes.py:26-29 | the "N/A" placeholder always fails the flag check |
| MergeFlagsAndCodes.DictKey | Python_Helpers/2.flag_and_codes/merge_flags_and_codes.py:16 | a boolean name is looked up as the equal number (True as 1, False as 0); any other hashable name as itself |
| MergeFlagsAndCodes.CommonName | Python_Helpers/2.flag_and_codes/merge_flags_and_codes.py:19 | succeeds exactly when the item is a dict whose name is a dict with a common key |
| MergeFlagsAndCodes.IndexByName | Python_Helpers/2.flag_and_codes/merge_flags_and_codes.py:16 | every indexed item is a dict with a name, so a match is never falsy |
| MergeFlagsAndCodes.IndexKeys | Python_Helpers/2.flag_and_codes/merge_flags_and_codes.py:16 | a name is indexed exactly when some item of the second file carries it |
| MergeFlagsAndCodes.IndexLastWins | Python_Helpers/2.flag_and_codes/merge_flags_and_codes.py:16 | when items share a name, the last one is found |
| MergeFlagsAndCodes.IndexFails | Python_Helpers/2.flag_and_codes/merge_flags_and_codes.py:16 | building the index raises exactly when some item has no usable common name |
| MergeFlagsAndCodes.MergeJsonFiles | Python_Helpers/2.flag_and_codes/merge_flags_and_codes.py:8-42 | if the index raises, the list is untouched; otherwise each item becomes its merged form; on an exception, earlier items are merged, the failing one holds what was assigned before the raise, and later items are untouched |
| MergeFlagsAndCodes.MergeItemSpec | Python_Helpers/2.flag_and_codes/merge_flags_and_codes.py:18-34 | an unmatched item is unchanged; a matched one gets the match's cca2 and flag, or "N/A" for a missing key; every other key and value is kept; new keys go after the old ones, cca2 first |
| MergeFlagsAndCodes.MergeItem | Python_Helpers/2.flag_and_codes/merge_flags_and_codes.py:19-34 | an item without a usable common name is unchanged and raises; a changed item is a dict whose keys are the old ones plus cca2 and flag |
| MergeFlagsAndCodes.MergeItemErrors | Python_Helpers/2.flag_and_codes/merge_flags_and_codes.py:19-29 | an item raises exactly when its name is missing or unhashable, or its match has a flag that is not a string |

## Left out

- File reads and writes, HTTP fetches and JSON parsing are not modelled. Their outcome
  is a parameter (`None` when they fail). Response bodies, HTTP status codes and
  `loadLanguageMap` are not modelled either.
- The loading promises of CountryLookupHelper and CountrySlugService only merge
  concurrent loads. The model is sequential and has no promises.
- Logging and printing are not modelled: `console.log`/`console.error`, Python
  `logging` and `print`. This includes the session id and timestamp of the analytics
  log entry, and the two checks in merge_flags_and_codes.py that only print.
- Numbers are exact reals, not IEEE doubles. `undefined`, and NaN computed from it, is
  `None`.
- `localeCompare` is a parameter assumed to be a total preorder. `Array.prototype.sort`
  is a stable insertion sort, since the specification of `sort` promises stability.
- `toLowerCase`/`toUpperCase` are ASCII-only. This affects Capitalize, ReplaceSubString,
  the language keys and the slugs.
- `normalize('NFD')` is the parameter `nfd`. The idempotence lemmas assume only that it
  leaves ASCII text unchanged.
- Svelte stores are the two fields of `ColoringState`; `get(store)` reads them.
- `MapHelper.fetchMapData` is I/O and is not modelled.
- MapHelperModel.GetCountryFillColorAsWritten and MapHelperModel.GetCountryFillColor
  take `languages` as a sequence, so a `null` or `undefined` list cannot be passed. In
  the source it takes the same branch as the empty list.
- `MapHelper.updateCountries` is not modelled. It assigns its result to a local
  variable, so it has no effect.
- The topojson `feature`/`mesh` calls are not modelled; only the id filters before them
  are.
- The Python scripts' top-level `data` is modelled as a list. A top-level dict, which
  would iterate over its keys, is not modelled.
- Number keys in merge_flags_and_codes.py are not modelled beyond one rule: a boolean
  is found under the equal number. Any other equal numbers of different Python types
  are one real here.
- `json.dump` formatting is not modelled.
- StatisticsModel.FromObject treats a key whose value is `undefined` as absent. The
  only caller passing such a key is the Language constructor. It is modelled by
  NewLanguage, which copies the statistics as they are.
- CountryDataLoaderModel.CountryDataLoader.PopulateLanguageEntry replaces the map entry
  with an updated Language value instead of mutating the stored object. No other
  reference to that object exists during the pass, so the outcome is the same.
- CountryDataLoaderModel.CountryDataLoader.LoadAndParse assumes every record has the
  shape countryData.ts declares: a `name` with `common`, a `languages` list, and a
  `language` and numeric `percentage` in each entry. A malformed record would make
  populateMaps throw part-way through the loop; the maps would then keep the records
  before it, and the language lists would stay unsorted. A `null` percentage, which
  language_converter.py writes, counts as 0 in JavaScript arithmetic; the model has no
  null percentage.
- LanguageConverter.ConvertLanguages requires every dict to list each of its keys once,
  which is what `json.load` produces.

## Findings

| source | as written | input that shows it | evidently intended | confidence | as-written member | corrected member |
|---|---|---|---|---|---|---|
| src/lib/helpers/CountryDataHelper.ts:33 | `new Statistics(totalSpeakers, countries.length)` fills the first two positional slots (`totalUNSpeakers`, `numberOfUNCountries`) and leaves `totalSpeakers` and `numberOfCountries` undefined | an empty selection `[]`: the result has `totalUNSpeakers = 0`, `numberOfUNCountries = 0`, and both full-view fields undefined, which differs from the zero statistics | the full-view fields hold the summed speakers and the distinct-country count; the UN view holds the UN sums | not executed | CountryDataHelperModel.SummaryAsWrittenMisplacesTotals | CountryDataHelperModel.SummaryStatisticsConsistent |
| src/lib/helpers/MapHelper.ts:81 | both default branches call `ColoringHelper.getDefaultColor()`, which ColoringHelper does not declare, so they throw a TypeError | `getCountryFillColor("010", [])`, or any id that no selected language reaches | return the default colour "none" that the colour lookups already use | not executed | MapHelperModel.FillColorAsWrittenThrows | MapHelperModel.FillColorAfterAssign |
