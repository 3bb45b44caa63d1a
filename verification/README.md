# City catalogue tools, modelled in Dafny

The Unitana app ships a JSON list of cities. Three offline Python tools deal with it:

- `generate_cities_v1.py` builds the list from GeoNames dumps. It reads `countryInfo.txt`, `admin1CodesASCII.txt`, `cities15000` and `cities1000`. Next to ten curated records, it emits one `gn_<geonameid>` record per populated place of `cities15000`. It also adds every capital that only `cities1000` has, after finding it by a normalised-name match.
- `validate_cities_v1.py` checks such a list against the field contract. Each record needs nine keys, non-blank strings, ISO code shapes, a known IANA time zone, a unit-system enum, a boolean clock flag and coordinates in range.
- `build_cities_dataset.py` is an older builder of the same list. It makes slug ids such as `denver_co_us`, sets defaults for the United States only, and sorts the rows by a lower-cased `"City, CC"` key.

The model is functional. Rows, countries, records, JSON values and run outcomes are immutable datatypes. Every step is a pure function over sequences and maps, with the validator's time-zone memo threaded through as a map. Files are given as sequences of lines, and JSON as an already-parsed value.

Modules:

- `Optional` (options.dfy) holds the option type.
- `PyText` (py_text.dfy) holds the Python `str` operations the tools use: `isspace`, `lower`, `upper`, `strip`, `split`, `replace`, and `int()`/`str()` on integers.
- `Tables` (tables.dfy) models dictionaries filled by repeated assignment.
- `Normalize` (norm.dfy) covers `_norm` and `_capital_variants`.
- `GeoNames` (geonames.dfy) holds the generator's line readers.
- `CapitalMatch` (capital_match.dfy) covers `_best_capital_match`.
- `GenerateCities` (generate.dfy) covers the defaults, the curated records and the merge and emission of `build_asset`.
- `ValidateCities` (validate.dfy) covers the validator.
- `Consistency` (consistency.dfy) shows how the generator's output fares against the validator.
- `CitiesDataset` (dataset.dfy) covers `build_cities_dataset.py`.

Where the code has inputs the model cannot see, they become parameters:

- The IANA database is the set `zones` of keys `ZoneInfo` accepts.
- The order in which Python iterates over the set of capital variants is a sequence parameter. The matcher's properties hold for every order.

## Model

| member | source | states |
|---|---|---|
| Normalize.Norm | app/unitana/tools/generate_cities_v1.py:45-51 | the key is canonical: only `a-z`, `0-9` and single interior spaces, no space at either end |
| Normalize.BlankPunctuation | app/unitana/tools/generate_cities_v1.py:49 | every character other than `a-z`, `0-9` and whitespace becomes a space, and the length is kept |
| Normalize.CollapseSpaces | app/unitana/tools/generate_cities_v1.py:50 | runs of whitespace become one space, so no two spaces are adjacent; the result is empty iff the input is |
| Normalize.StripDiacriticsKeys | app/unitana/tools/generate_cities_v1.py:39-42 | dropping combining marks leaves a text of key characters unchanged |
| Normalize.ReplaceAmpersandKeys | app/unitana/tools/generate_cities_v1.py:48 | replacing `&` leaves a text of key characters unchanged |
| Normalize.CanonicalIsFixed | app/unitana/tools/generate_cities_v1.py:45-51 | a canonical key normalises to itself |
| Normalize.NormFixedIffCanonical | app/unitana/tools/generate_cities_v1.py:45-51 | a text is its own key iff it is canonical |
| Normalize.NormIdempotent | app/unitana/tools/generate_cities_v1.py:45-51 | normalising twice gives the same key as normalising once |
| Normalize.RedundantVariants | app/unitana/tools/generate_cities_v1.py:59-65 | on a canonical base, the `"st"+base[2:]` variant and the hyphen-to-space variant both equal the base |
| Normalize.CapitalVariantsSpec | app/unitana/tools/generate_cities_v1.py:54-71 | variants are empty iff the key is empty; otherwise they hold the key; they hold `saint ...` for an `st ...` key and `macau` for `macao`; no variant is empty; exactly these aliases are present |
| Normalize.SaintSpellingCanonical | app/unitana/tools/generate_cities_v1.py:59-60 | the `saint ` spelling of a canonical `st ` key is canonical |
| Normalize.VariantsAreKeys | app/unitana/tools/generate_cities_v1.py:54-71 | every variant is its own normal form, so it can equal a normalised name |
| Normalize.VariantOrder | app/unitana/tools/generate_cities_v1.py:200 | a listing of the variant set has exactly the set's members, each once |
| CapitalMatch.MostPopulous | app/unitana/tools/generate_cities_v1.py:201-209 | no result iff no row matches; otherwise the first row of maximal population among the matches, because the comparison is a strict `>` |
| CapitalMatch.FirstMaxUnique | app/unitana/tools/generate_cities_v1.py:206 | the first row of maximal population is unique, so ties go to the earliest row |
| CapitalMatch.FirstAlternates | app/unitana/tools/generate_cities_v1.py:217 | the names looked at are exactly the first 80 alternate names of the row, or all of them when it has fewer |
| CapitalMatch.TryVariants | app/unitana/tools/generate_cities_v1.py:198-220 | if some variant matches a name or ASCII name exactly, the result is the most populous row for the first such variant; otherwise it is the result of the alternate-name scan |
| CapitalMatch.BestCapitalMatch | app/unitana/tools/generate_cities_v1.py:198-220 | with the normalising key: a result is a row of the country. An exact match on the first variant that has one wins, the most populous such row. Otherwise the result is the most populous alternate-name match. None iff neither phase finds a row |
| CapitalMatch.MatchWith | app/unitana/tools/generate_cities_v1.py:198-220 | a result is a row of the country. An exact match wins when there is one. Otherwise the result is the most populous alternate-name match, if any. None iff neither phase finds a row |
| GeoNames.ParseCountryLine | app/unitana/tools/generate_cities_v1.py:100-112 | a line is kept iff it is not blank or a comment, has at least 11 fields and a non-empty code; code, iso3, name, capital, continent and currency are the stripped fields 0, 1, 4, 5, 8 and 10 |
| GeoNames.ReadCountryInfo | app/unitana/tools/generate_cities_v1.py:96-121 | a code is present iff some kept line carries it, and it maps to the last such line's country; codes are listed once each |
| GeoNames.ReadCountryInfoOrder | app/unitana/tools/generate_cities_v1.py:96-121 | `countries.items()` lists the codes in the order of the first line that carries each, as a dictionary keeps first-insertion order |
| Tables.KeyOrderFirst | app/unitana/tools/generate_cities_v1.py:113-120 | a dictionary filled by repeated assignment lists its keys by the position of the first assignment to each |
| GeoNames.Items | app/unitana/tools/generate_cities_v1.py:249 | `countries.items()` lists each code once with its own country |
| GeoNames.ParseAdmin1Line | app/unitana/tools/generate_cities_v1.py:129-134 | a line gives an entry iff it is not blank or a comment and has two fields; the entry is the stripped field 0 as key and the stripped field 1 as name |
| GeoNames.ReadAdmin1 | app/unitana/tools/generate_cities_v1.py:124-135 | a code is present iff some line gives it, and the last such line's name wins |
| GeoNames.NonEmpty | app/unitana/tools/generate_cities_v1.py:170 | the kept alternate names are exactly the non-empty ones, never more than the pieces; a single piece is kept iff it is non-empty |
| GeoNames.NonEmptyConcat | app/unitana/tools/generate_cities_v1.py:170 | filtering a concatenation filters each part, so the kept names keep the order and the repeats of the pieces |
| GeoNames.ParseCityLine | app/unitana/tools/generate_cities_v1.py:147-195 | a row needs 19 fields, an integer id, feature class `P` and a non-empty name, country and zone, and every such line yields a row; name, ASCII name, country, admin1 code and zone are the stripped fields 1, 2, 8, 10 and 17; the alternates are the non-empty comma pieces of field 3; an unparsable population is 0 |
| GeoNames.ParseCities | app/unitana/tools/generate_cities_v1.py:138-195 | the rows are exactly those the accepted lines yield; a single line gives its row or nothing |
| GeoNames.ParseCitiesConcat | app/unitana/tools/generate_cities_v1.py:138-195 | reading a concatenation of lines reads each part in turn, so the rows keep the file order and every repeat, which the capital tie-break relies on |
| GenerateCities.DefaultUse24h | app/unitana/tools/generate_cities_v1.py:230-234 | the 12-hour clock is only ever chosen for a two-letter code, and it is chosen for US and CA in any letter case |
| GenerateCities.DefaultUnitSystem | app/unitana/tools/generate_cities_v1.py:223-227 | the unit default is `metric` or `imperial` |
| GenerateCities.DefaultsIgnoreCase | app/unitana/tools/generate_cities_v1.py:223-234 | both defaults are the same for a code in any letter case |
| GenerateCities.ImperialIff | app/unitana/tools/generate_cities_v1.py:223-227 | imperial iff the code's letters, upper-cased, spell US, LR or MM |
| GenerateCities.TwelveHourIff | app/unitana/tools/generate_cities_v1.py:230-234 | the 12-hour clock iff the code's letters, upper-cased, spell US or CA |
| GenerateCities.CuratedCountryDefaults | app/unitana/tools/generate_cities_v1.py:223-234 | the defaults for US, CA, GB, PT and JP, the countries of the curated records |
| GenerateCities.Curated | app/unitana/tools/generate_cities_v1.py:262-397 | there are ten curated records |
| GenerateCities.CuratedConsistent | app/unitana/tools/generate_cities_v1.py:262-397 | each curated record agrees with the computed defaults of its country, writes no optional key empty and has no `gn_` id |
| GenerateCities.GnId | app/unitana/tools/generate_cities_v1.py:416 | a GeoNames id starts with `gn_` |
| GenerateCities.GnIdRoundTrip | app/unitana/tools/generate_cities_v1.py:416 | a `gn_` id reads back as its geonameid |
| GenerateCities.GeoRecord | app/unitana/tools/generate_cities_v1.py:403-429 | the record's id, name, country and zone are those of the row, and its defaults are the country's. The currency is the country's when it has a non-empty one, else USD. `countryName`, `iso3` and `continent` are present iff the row's country has a non-empty value, and then carry it. `admin1Code` is the row's code iff non-empty. `admin1Name` is present iff the table has a non-empty name under the row's admin1 key, and then carries it |
| GenerateCities.GeoRecordLocal | app/unitana/tools/generate_cities_v1.py:403-426 | a record reads the country table only under the row's country code and the admin1 table only under the row's admin1 key: tables that agree there give the same record |
| GenerateCities.EmptyAdminKey | app/unitana/tools/generate_cities_v1.py:411-426 | a row without admin1 code gets no `admin1Code`, yet gets an `admin1Name` iff the admin1 table has a non-empty name under the key `""` |
| GenerateCities.InitialMerge | app/unitana/tools/generate_cities_v1.py:245 | `by_id` holds exactly the geonameids of cities15000. Each id maps to the last row of that dump with that id: no later row shares it |
| GenerateCities.CapitalIn | app/unitana/tools/generate_cities_v1.py:252-254 | a found capital is a row of the searched dump and of the country |
| GenerateCities.CapitalStep | app/unitana/tools/generate_cities_v1.py:249-259 | one turn keeps every entry, adds only a capital pulled from cities1000, makes sure a found capital is present, and records the capital as missing iff neither dump has it |
| GenerateCities.EnsureCapitals | app/unitana/tools/generate_cities_v1.py:249-259 | after the capital loop the insertion order and `by_id` still hold the same keys, and every key maps to a row with that geonameid; what the loop keeps, adds and records as missing is in the four lemmas below |
| GenerateCities.EnsureCapitalsKeeps | app/unitana/tools/generate_cities_v1.py:256 | `setdefault` never replaces an entry of `by_id` |
| GenerateCities.EnsureCapitalsAdds | app/unitana/tools/generate_cities_v1.py:253-256 | every new entry is a capital that only cities1000 has |
| GenerateCities.EnsureCapitalsFinds | app/unitana/tools/generate_cities_v1.py:252-256 | every found capital ends up in `by_id` |
| GenerateCities.EnsureCapitalsMissing | app/unitana/tools/generate_cities_v1.py:257-259 | the missing list grows at the end, with exactly the countries whose non-empty capital neither dump has |
| GenerateCities.MissingAppended | app/unitana/tools/generate_cities_v1.py:257-259 | the missing list becomes the old one followed by the unresolved capitals, in lookup order |
| GenerateCities.UnresolvedOf | app/unitana/tools/generate_cities_v1.py:257-259 | a (country, capital) pair is listed exactly when its capital is non-empty and neither dump has a match for it |
| GenerateCities.GeoIds | app/unitana/tools/generate_cities_v1.py:403 | the sorted keys are strictly ascending and are exactly the keys of `by_id` |
| GenerateCities.EmitGeo | app/unitana/tools/generate_cities_v1.py:403-429 | one record per sorted key, carrying that key's `gn_` id |
| GenerateCities.AssetOf | app/unitana/tools/generate_cities_v1.py:399-429 | the output is the ten curated records and then the GeoNames records |
| GenerateCities.AssetOfRecords | app/unitana/tools/generate_cities_v1.py:403-429 | the record after the curated ones at position i is built from the row under the i-th sorted key |
| GenerateCities.AssetOfOrdered | app/unitana/tools/generate_cities_v1.py:403-416 | the GeoNames records carry `gn_` ids of keys of `by_id` in strictly ascending order |
| GenerateCities.AssetOfIdsDistinct | app/unitana/tools/generate_cities_v1.py:399-416 | no GeoNames id repeats or equals a curated id |
| GenerateCities.AssetOfCovers | app/unitana/tools/generate_cities_v1.py:403-416 | every key of `by_id` has its record |
| GenerateCities.BuildAsset | app/unitana/tools/generate_cities_v1.py:237-429 | a run starts with the ten curated records |
| GenerateCities.BuildAssetIds | app/unitana/tools/generate_cities_v1.py:399-416 | in a run, ids after the curated ones are ascending `gn_` ids and all ids are distinct |
| GenerateCities.AssetOfDefaults | app/unitana/tools/generate_cities_v1.py:262-422 | every record, curated or not, has its country's computed defaults |
| GenerateCities.BuildAssetDefaults | app/unitana/tools/generate_cities_v1.py:421-422 | the same for the records of a run |
| GenerateCities.MergedCovers | app/unitana/tools/generate_cities_v1.py:245 | every cities15000 row's id is in the merged `by_id` |
| GenerateCities.MergedCapitals | app/unitana/tools/generate_cities_v1.py:249-256 | every capital found in either dump is in the merged `by_id` |
| GenerateCities.MergedSources | app/unitana/tools/generate_cities_v1.py:245-256 | every merged row comes from cities15000 or is a capital pulled from cities1000 |
| GenerateCities.BuildAssetCoversCities15000 | app/unitana/tools/generate_cities_v1.py:241-245 | every accepted cities15000 row has a record in the output |
| GenerateCities.BuildAssetCapitals | app/unitana/tools/generate_cities_v1.py:249-256 | every found capital has a record in the output |
| GenerateCities.BuildAssetMissing | app/unitana/tools/generate_cities_v1.py:248-259 | the reported missing capitals are exactly the non-empty capitals neither dump has |
| GenerateCities.BuildAssetSources | app/unitana/tools/generate_cities_v1.py:403-429 | every GeoNames record is built from a cities15000 row or a pulled capital |
| ValidateCities.IsKnownTimezone | app/unitana/tools/validate_cities_v1.py:30-42 | false for `""`. With a sound memo, the answer is the oracle's and the memo stays sound. Entries are only added, for the looked-up key, and old ones are kept |
| ValidateCities.IsKnownTimezoneStable | app/unitana/tools/validate_cities_v1.py:33-35 | asking again with the updated memo gives the same answer and changes nothing |
| ValidateCities.ZoneCheck | app/unitana/tools/validate_cities_v1.py:64-66 | the zone check through the memo agrees with the oracle on `str(value).strip()` and keeps the memo sound |
| ValidateCities.MissingOf | app/unitana/tools/validate_cities_v1.py:48-50 | a `missing` failure is listed exactly for each required field absent from the row |
| ValidateCities.InvalidOf | app/unitana/tools/validate_cities_v1.py:52-55 | an `invalid` failure is listed exactly for each text field that is not a string with non-whitespace content |
| ValidateCities.ShapeFailures | app/unitana/tools/validate_cities_v1.py:57-62 | the alpha-2 and alpha-3 failures are listed exactly when the stripped, upper-cased text is not 2 or 3 capital letters |
| ValidateCities.ValueFailures | app/unitana/tools/validate_cities_v1.py:64-80 | the zone, unit-system, clock and coordinate failures are listed exactly when their checks fail |
| ValidateCities.Failures | app/unitana/tools/validate_cities_v1.py:45-81 | every check runs, with no early exit: a failure is listed iff its check fails |
| ValidateCities.RowFailuresEmpty | app/unitana/tools/validate_cities_v1.py:45-84 | a record has no failure iff it meets the whole contract |
| ValidateCities.ValidateRow | app/unitana/tools/validate_cities_v1.py:45-84 | at most one message, none iff the record meets the contract; otherwise the message carries the index, the id and every failure; the memo only grows and stays sound |
| ValidateCities.MissingCoordinateFails | app/unitana/tools/validate_cities_v1.py:14-24 | a record without `lat` or `lon` fails, with the `missing` failure for that key |
| ValidateCities.CodeShapeNeedsText | app/unitana/tools/validate_cities_v1.py:57-62 | only a string can pass a code-shape check; `str()` of None, a bool or an int never spells 2 or 3 capital letters |
| ValidateCities.CountryCodeShapeExamples | app/unitana/tools/validate_cities_v1.py:57-59 | `"us"` passes the alpha-2 check and `"USA"` fails it |
| ValidateCities.ItemProblem | app/unitana/tools/validate_cities_v1.py:102-106 | a reported problem carries the item's index |
| ValidateCities.Collect | app/unitana/tools/validate_cities_v1.py:101-106 | the problems are listed in index order, each for an item that has it, and none is left out |
| ValidateCities.ProblemsEmpty | app/unitana/tools/validate_cities_v1.py:101-108 | there is no problem iff every item is an object that meets the contract |
| ValidateCities.FirstShown | app/unitana/tools/validate_cities_v1.py:101-111 | when the first item has a problem the run fails and its report opens with that problem |
| ValidateCities.ObjectProblem | app/unitana/tools/validate_cities_v1.py:103-106 | a record with failures contributes one row error carrying its index, its `id` and all of its failures |
| ValidateCities.StepMatchesOracle | app/unitana/tools/validate_cities_v1.py:102-106 | one turn of the loop with a sound memo reports what the oracle-only judgement reports |
| ValidateCities.LoopMatchesOracle | app/unitana/tools/validate_cities_v1.py:101-106 | the memo-threaded loop reports the same problems as the oracle-only judgement |
| ValidateCities.ExpectedIsCollect | app/unitana/tools/validate_cities_v1.py:101-106 | the loop's expected report is the ordered problem list |
| ValidateCities.Validate | app/unitana/tools/validate_cities_v1.py:97-114 | a non-list is refused; a pass reports `len(raw)` records; a failure shows between 1 and 50 problems |
| ValidateCities.ValidateSpec | app/unitana/tools/validate_cities_v1.py:101-114 | a list passes iff every item is an object that meets the contract; a failure shows the first 50 problems in order |
| ValidateCities.UnitSystemAsWritten | app/unitana/tools/validate_cities_v1.py:68-70 | the membership test raises exactly for a list or dictionary value |
| ValidateCities.InRangeAsWritten | app/unitana/tools/validate_cities_v1.py:75-80 | `float()` raises exactly for an integer of magnitude at least 2^1024 - 2^970 |
| ValidateCities.FailuresAsWritten | app/unitana/tools/validate_cities_v1.py:45-80 | the checks as written raise iff `defaultUnitSystem` is a list or a dictionary, or `lat` or `lon` is an integer `float()` cannot convert; otherwise the missing-field failures come first |
| ValidateCities.FailuresAsWrittenAgree | app/unitana/tools/validate_cities_v1.py:68-80 | when the code as written does not raise, it lists the same failures as the corrected checks |
| ValidateCities.UnitSystemListRaises | app/unitana/tools/validate_cities_v1.py:68-70 | a list `defaultUnitSystem` makes the code as written raise, where an `invalid defaultUnitSystem` failure is due |
| ValidateCities.HugeLatitudeRaises | app/unitana/tools/validate_cities_v1.py:75-78 | `lat = 2**1024` makes the code as written raise, where an `invalid latitude` failure is due |
| Consistency.RecordJson | app/unitana/tools/generate_cities_v1.py:414-428 | a written record has no `lat` or `lon`, and carries its unit system as a string and its clock flag as a bool |
| Consistency.RequiredKeysRead | app/unitana/tools/generate_cities_v1.py:416-422 | the seven always-written keys read back as the record's values |
| Consistency.OptionalKeysRead | app/unitana/tools/generate_cities_v1.py:423-427 | each optional key reads back as present with its value, or as absent |
| Consistency.RecordJsonRoundTrip | app/unitana/tools/generate_cities_v1.py:414-428 | reading a written record gives the record back |
| Consistency.RecordFailsContract | app/unitana/tools/validate_cities_v1.py:14-24 | every generated record fails the contract, with `missing lat` and `missing lon` among its failures |
| Consistency.DefaultsPassContract | app/unitana/tools/validate_cities_v1.py:68-73 | a record with the generator's defaults passes the unit-system and clock checks |
| Consistency.AssetJson | app/unitana/tools/generate_cities_v1.py:432 | the written list holds one object per record, in order |
| Consistency.AssetFailsContract | app/unitana/tools/validate_cities_v1.py:101-112 | any non-empty generated list fails validation; the first problem is row 0, missing `lat` and `lon` |
| Consistency.BuildAssetFailsContract | app/unitana/tools/generate_cities_v1.py:399-432 | the list a generator run writes always fails validation |
| Consistency.BuildAssetDefaultsPass | app/unitana/tools/generate_cities_v1.py:421-422 | no record of a generator run fails the unit-system or clock check |
| CitiesDataset.ParseCountryInfoLine | app/unitana/tools/build_cities_dataset.py:39-50 | a line is kept iff it is not empty, does not start with `#`, has 11 fields and a non-blank ISO code; name and currency are the stripped fields 4 and 10 |
| CitiesDataset.ParseCountryInfo | app/unitana/tools/build_cities_dataset.py:31-51 | a code is present iff some kept line carries it, and the last such line wins |
| CitiesDataset.CountryReadersAgree | app/unitana/tools/build_cities_dataset.py:39-50 | on a line without a line break this reader and the generator's keep the same lines and read the same code, name and currency |
| CitiesDataset.SplitAtDot | app/unitana/tools/build_cities_dataset.py:71 | a code splits iff it holds a dot, into a dot-free head and the rest, which join back with the dot |
| CitiesDataset.SplitAtDotRoundTrip | app/unitana/tools/build_cities_dataset.py:71 | joining a dot-free head and a rest with a dot and splitting again gives them back |
| CitiesDataset.ParseAdmin1InfoLine | app/unitana/tools/build_cities_dataset.py:62-73 | a line is kept iff it is not skipped, has two fields, a non-blank name and a code whose first dot splits it into two non-empty halves; the key is that pair |
| CitiesDataset.Admin1LineRoundTrip | app/unitana/tools/build_cities_dataset.py:62-73 | a tab-joined line `CC.A1<TAB>name...` reads back as `((CC, A1), name)` |
| CitiesDataset.ParseAdmin1Info | app/unitana/tools/build_cities_dataset.py:54-74 | a pair is present iff some kept line gives it, and the last such line's name wins |
| CitiesDataset.Admin1ReadersAgree | app/unitana/tools/build_cities_dataset.py:62-73 | every pair this reader keeps is a `CC.A1` entry of the generator's admin1 reader, under the same name |
| CitiesDataset.InferDefaults | app/unitana/tools/build_cities_dataset.py:77-85 | imperial and 12-hour iff the upper-cased code is `US`, else metric and 24-hour |
| CitiesDataset.InferDefaultsIff | app/unitana/tools/build_cities_dataset.py:82-84 | the US defaults iff the code has two characters that upper-case to `U` and `S` |
| CitiesDataset.InferDefaultsVersusGenerator | app/unitana/tools/build_cities_dataset.py:77-85 | away from LR, MM and CA both builders pick the same defaults |
| CitiesDataset.InferDefaultsDisagreements | app/unitana/tools/build_cities_dataset.py:77-85 | for CA the clocks differ, and for LR and MM the unit systems differ |
| CitiesDataset.Slug | app/unitana/tools/build_cities_dataset.py:89 | the name part of an id is the lower-cased stripped name with each space turned into `_`, so it has no space and the stripped length |
| CitiesDataset.CityId | app/unitana/tools/build_cities_dataset.py:88-94 | an id is at least as long as the slug, one `_` and the stripped country code together |
| CitiesDataset.CityIdShape | app/unitana/tools/build_cities_dataset.py:88-94 | an id starts with the slug and `_`, and ends with `_` and the lower-cased country code; there is an admin1 part iff the admin1 code is non-blank, and that part is the lower-cased stripped admin1 code |
| CitiesDataset.CityIdCollision | app/unitana/tools/build_cities_dataset.py:88-94 | ids are not unique: `("a b", "x", None)` and `("a", "x", "b")` both give `a_b_x` |
| CitiesDataset.ParseCityRow | app/unitana/tools/build_cities_dataset.py:127-165 | a line gives a row iff it has 18 fields and a non-blank name, country code and zone. `admin1Code` is None iff field 10 is blank. `admin1Name` is set iff the pair lookup finds a non-empty name. Country name and currency come from the table or are empty. The id and defaults follow from the row |
| CitiesDataset.CityRows | app/unitana/tools/build_cities_dataset.py:125-165 | every accepted line's row is collected, and every collected row comes from an accepted line |
| CitiesDataset.CityRowsConcat | app/unitana/tools/build_cities_dataset.py:125-165 | the rows of a concatenation of lines are the rows of each part in turn, so rows keep the line order and every repeat |
| CitiesDataset.CityRowsOne | app/unitana/tools/build_cities_dataset.py:127-165 | a single line gives its row, or nothing when it is rejected |
| CitiesDataset.CityRowsSound | app/unitana/tools/build_cities_dataset.py:125-165 | every collected row is well formed: admin1 name only with an admin1 code, id and defaults derived from the row |
| CitiesDataset.LexLeIff | app/unitana/tools/build_cities_dataset.py:167 | the string order compares code points: a prefix comes first, else the first differing code point decides |
| CitiesDataset.LexLeTotal | app/unitana/tools/build_cities_dataset.py:167 | any two keys are comparable |
| CitiesDataset.LexLeTrans | app/unitana/tools/build_cities_dataset.py:167 | the order is transitive |
| CitiesDataset.LexLeAntisymmetric | app/unitana/tools/build_cities_dataset.py:167 | keys ordered both ways are equal |
| CitiesDataset.Insert | app/unitana/tools/build_cities_dataset.py:167 | inserting into sorted rows keeps them sorted and adds exactly the one row |
| CitiesDataset.InsertStable | app/unitana/tools/build_cities_dataset.py:167 | the inserted row goes before the rows with its own key and after smaller ones, and the other key groups are unchanged |
| CitiesDataset.SortRows | app/unitana/tools/build_cities_dataset.py:167 | the sorted rows are a permutation of the input, non-decreasing by `lower(cityName + ", " + countryCode)` |
| CitiesDataset.SortRowsStable | app/unitana/tools/build_cities_dataset.py:167 | for every key, the rows with that key keep their input order |
| CitiesDataset.SortedPairwise | app/unitana/tools/build_cities_dataset.py:167 | in sorted rows every earlier key is at most every later one |
| CitiesDataset.BuildDataset | app/unitana/tools/build_cities_dataset.py:125-167 | the written rows are sorted and are a permutation of the collected rows |
| CitiesDataset.BuildDatasetComplete | app/unitana/tools/build_cities_dataset.py:125-165 | every accepted city line's row is written |
| CitiesDataset.BuildDatasetSound | app/unitana/tools/build_cities_dataset.py:125-165 | every written row is well formed and comes from an accepted line |
| CitiesDataset.BuildDatasetStable | app/unitana/tools/build_cities_dataset.py:167 | rows sharing a sort key are written in the order of their lines |

## Left out

- File, zip and network input is not modelled: `path.open`, `zipfile`, `fetch_text`, `fetch_zip`, the byte decoding with `errors="ignore"`/`"replace"`, and `splitlines`. Every reader takes a sequence of lines. Lines of the generator's readers may end in `\n`; lines of `build_cities_dataset.py` carry no line break.
- `argparse`, path handling, `mkdir`, printing and `SystemExit` are not modelled. JSON parsing and serialisation are out as well: bytes, key order, indentation and `ensure_ascii`. The validator takes a parsed JSON value, and a run ends in a `NotAList`, `Failed` or `Passed` outcome.
- The wording of the validator's messages is not modelled. A row error is kept as the index, the `id` value and the list of failed checks, in check order, instead of the joined f-string.
- The generator's diagnostics printout is not modelled. The missing-capital list itself is modelled.
- Unicode is covered only in part. `lower`/`upper` are exact on ASCII and Latin-1, plus the few other code points whose upper case is an ASCII letter. Other code points keep their case. `upper` does not expand `ß` or ligatures, so a currency code like `"uß"` passes the alpha-3 check in Python but not in the model.
- `unicodedata.normalize("NFD")` is modelled for Latin-1 letters and the combining marks U+0300..U+036F only.
- Python's set iteration order is hash dependent. `Normalize.VariantOrder` fixes one order (base, saint spelling, `macau`). The matcher's lemmas hold for any order.
- The IANA database is an oracle set. `ZoneInfo`'s `ValueError` on malformed keys, such as absolute paths, is not modelled. Neither is any change of the database while a run lasts.
- ValidateCities.ZoneCheck: for a float, list or dictionary `timeZoneId` the check fails without a lookup, so the memo gets no entry for the value's text, where Python would memoise that text. Only the memo's contents differ; the verdict is the same.
- ValidateCities.ScalarText: `str()` of floats, lists and dictionaries is not modelled. The checks that use it cannot pass for such values: their text always holds a digit or a bracket.
- PyText.ParseInt: only ASCII digits are read. Python's `int()` also reads every other Unicode decimal digit, so `int("１２")` is 12 while the model finds no number. The model also has no limit, where Python 3.11 and later raise `ValueError` for more than 4300 digits. Both differences reach the population and geonameid of `GeoNames.ParseCityLine`. A population written in non-ASCII digits reads as 0 in the model, which can change which capital wins.
- Floats are finite reals. NaN and infinities are not modelled, and neither is the rounding of `float(int)` below the overflow bound. That rounding cannot move an integer across the bounds 90 or 180.
- CitiesDataset.ParseCityRow: a city line's fields are its tab-separated pieces. `csv.reader`'s handling of double quotes is not modelled, so a line whose field begins with `"` may be split differently in Python.
- Sort stability is stated per key (`CitiesDataset.SortRowsStable`). That these facts, together with sortedness and permutation, determine the output uniquely is not proved.

## Findings

| source | as written | input that shows it | evidently intended | confidence | as-written member | corrected member |
|---|---|---|---|---|---|---|
| app/unitana/tools/validate_cities_v1.py:68-70 | `unit_system not in {"metric", "imperial"}` hashes the value, which raises `TypeError` for a list or a dictionary, so the whole run stops | a record with `"defaultUnitSystem": []` | report `invalid defaultUnitSystem` for that record and go on | high; not executed | ValidateCities.UnitSystemListRaises | ValidateCities.Failures |
| app/unitana/tools/validate_cities_v1.py:77-78 | `float(lat)` raises `OverflowError` for an integer beyond the float range, so the whole run stops | a record with `"lat": 2**1024` (a JSON integer of 309 digits) | report `invalid latitude` for that record and go on | high; not executed | ValidateCities.HugeLatitudeRaises | ValidateCities.Failures |

In both cases `ValidateCities.FailuresAsWritten` models the checks as the code has them: it returns None where the code raises. `ValidateCities.FailuresAsWrittenAgree` proves that it lists the same failures as the corrected `ValidateCities.Failures` whenever it does not raise. The corrected checks, which the rest of the model uses, list a failure iff its check fails (`ValidateCities.Failures`), including for the inputs above.
