# Countries refresh — a Dafny model

This project models the core of a NestJS countries service: the
`refreshCountries` operation of `CountriesService` and the small query
helpers around it. A refresh:

1. fetches the country list and the exchange-rate table;
2. turns each country into a store entry: currency code, exchange rate and
   an estimated GDP computed as `population * multiplier / rate`;
3. upserts the entries by name in transactions of 25;
4. stamps the metadata row;
5. tries to render a summary image, and ignores any failure there.

The queries build the list filter and sort clauses, look up and delete one
country by its trimmed, lower-cased name, and report the status summary.

Everything is pure functions over immutable values. The outside world enters
as parameters:

- the two HTTP responses are `Option`s, where `None` means the request failed
  or timed out;
- the random multiplier generator is a function `draws: nat -> real`, indexed
  by how many values were drawn before;
- the store operation that throws is a `StoreFault`, either chunk `k` or the
  metadata upsert;
- whether image rendering succeeds is a `bool`;
- the timestamp written by `new Date()` is an `int`.

The country table is a map from the unique `name` column to a row. The
metadata row is an `Option<int>`.

JavaScript truthiness is modelled explicitly. The following are all falsy:

- the empty string, so `capital || null` gives null for `""`;
- a population of `0` or an absent population;
- a rate of `0`.

An empty `currencies` array is truthy, so `currencies[0].code` then throws a
TypeError, and so does indexing a missing `rates` object. Both end in
ServiceUnavailable.

The estimated GDP of an entry has three states: a number, null, or never
assigned. It is never assigned when the rate is truthy but the population is
not. An upsert leaves an unassigned field as it was, so such a country keeps
the GDP an earlier refresh stored (`Store.StaleGdpSurvives`).

Modules:

- `Wrappers`: Option and Result.
- `Text`: ASCII trim, lower-casing and `split`.
- `Countries`: the upstream shape and the transform.
- `Store`: rows and upsert by name.
- `Chunking`: cutting the entry list into chunks of 25.
- `Refresh`: the whole refresh.
- `Queries`: filters, sort, lookup, delete and status.

Facts about the code that the model makes explicit:

- The multiplier generator is called at line 145, once for each country that
  reaches the GDP computation, so every such country gets its own value.
  Country `i` gets the generator's next value after the draws of the
  countries before it (`Countries.MultiplierFor`,
  `Countries.DrawsMatchGdpEntries`).
- GDP is computed when the population is truthy (line 143), which includes a
  negative population; that yields a negative GDP.
- A rate of `0` is falsy at line 135 and is treated like a missing rate. The
  currency code is stored, the rate and GDP are null, and no division happens.
- Lookup and delete compare the normalized name for equality with the stored
  name (lines 33-40 and 227-235), and the stored name keeps the case it has
  upstream (line 152). A lookup of `TESTLAND` finds a row stored as
  `Testland` only under a case-insensitive database collation, which the
  model does not assume: a row whose key has an upper-case letter is never
  found (`Queries.LookupMissesUpperCaseKeys`).
- The sort parameter is split on every `_` and only the first two segments
  are read (line 71). `exchange_rate_desc` therefore orders by `exchange` in
  direction `rate` (`Queries.SortExchangeRateMisread`).

## Model

| member | source | states |
|---|---|---|
| Countries.ConvertCountry | src/countries/countries.service.ts:131-158 | one loop iteration succeeds iff `currencies` is absent, or non-empty with a rates object present. Name is copied. Capital, region and flag are null when falsy. Population defaults to 0. The code comes from the first currency only. The rate is set iff that code has a truthy rate. GDP is null iff the rate is null, is computed iff a multiplier is drawn, and is left unassigned iff the rate is set but the population is falsy. A computed GDP satisfies `gdp * rate == population * multiplier` |
| Countries.Transform | src/countries/countries.service.ts:127-161 | the loop succeeds iff every country converts. It then yields one entry per country, in order, each the conversion of that country with its own multiplier draw |
| Countries.TransformKeepsNames | src/countries/countries.service.ts:150-152 | entry `j` carries the name of upstream country `j` |
| Countries.GdpPresentIff | src/countries/countries.service.ts:135-147 | an entry has a GDP iff it has a currency code whose rate is truthy and a non-zero population, so no division by zero happens |
| Countries.EntryDrawsIff | src/countries/countries.service.ts:143-147 | an entry has a GDP exactly when its country called the multiplier generator |
| Countries.DrawsMatchGdpEntries | src/countries/countries.service.ts:143-146 | in every prefix, the number of generator calls equals the number of entries with a GDP: each drawn value is used by exactly one entry |
| Countries.TestlandScenario | src/countries/countries.service.ts:139-147 | Testland with population 1000, currency TST at rate 2 and multiplier 1 yields code TST, rate 2 and GDP 500 |
| Store.MergeAgain | src/countries/countries.service.ts:183-187 | upserting an entry into the row its own upsert produced gives that row again, whether the first upsert created the row or updated it, and whatever GDP it kept |
| Store.MergeIgnoresExisting | src/countries/countries.service.ts:183-187 | an entry that assigns its GDP, to a number or to null, determines the whole row: update and create store the same row, so nothing of the old row survives |
| Store.Upsert | src/countries/countries.service.ts:183-187 | upsert by name adds exactly the entry's name as a key, changes no other row, and stores the merged row under the name |
| Store.UpsertAllFrame | src/countries/countries.service.ts:182-191 | upserting a list adds exactly the entries' names to the table and leaves every row with another name unchanged |
| Store.UpsertAllWellKeyed | src/countries/countries.service.ts:183-184 | if every row is stored under its own name before the upserts, the same holds after them |
| Store.UpsertAllAppend | src/countries/countries.service.ts:176-192 | upserting two lists one after the other equals upserting their concatenation, so consecutive chunks compose into the whole list |
| Store.UpsertAllIdempotent | src/countries/countries.service.ts:182-188 | upserting the same entries a second time leaves the table as the first pass left it, including GDPs kept from before |
| Store.StaleGdpSurvives | src/countries/countries.service.ts:143-147 | an existing country whose entry leaves GDP unassigned keeps its previously stored GDP |
| Chunking.ChunksFrom | src/countries/countries.service.ts:176-177 | the chunks from offset `from` concatenate back to the suffix at `from`, and there are none once `from` reaches the end |
| Chunking.ChunksFromCount | src/countries/countries.service.ts:176-179 | the loop makes `ceil((length - from) / 25)` chunks |
| Chunking.ChunksFromSizes | src/countries/countries.service.ts:174-177 | every chunk holds 1 to 25 entries, and every chunk but the last holds exactly 25 |
| Chunking.Chunks | src/countries/countries.service.ts:174-177 | the chunks of the whole list concatenate back to it, number `ceil(length / 25)`, and all but the last hold exactly 25 entries |
| Chunking.ChunkPrefix | src/countries/countries.service.ts:176-177 | the first `k` chunks hold exactly the first `min(25 k, length)` entries, in order |
| Refresh.CommitChunks | src/countries/countries.service.ts:176-192 | chunks run in order, each one as a transaction. The loop stops at the failing chunk, which commits nothing, and keeps every earlier chunk. The rows are the upserts of the committed chunks |
| Refresh.Persist | src/countries/countries.service.ts:171-211 | the persistence phase succeeds iff no chunk and no metadata fault strikes. On success it upserts all entries and stamps the metadata with `now`. On failure the metadata is unchanged and only the entries before the failing chunk are written |
| Refresh.RefreshCountries | src/countries/countries.service.ts:110-224 | ServiceUnavailable iff a fetch fails or a country cannot be converted, and then nothing is written. Otherwise the result is "Countries refreshed successfully" iff no store fault strikes, with all entries upserted and the timestamp set. A store fault gives "Database update failed", keeps the old timestamp and the committed prefix. No row is ever deleted |
| Refresh.ImageFailureSwallowed | src/countries/countries.service.ts:213-223 | the image outcome changes neither the result nor the store. The refresh succeeds iff the external phase succeeds and no store fault strikes |
| Refresh.RefreshIdempotent | src/countries/countries.service.ts:110-224 | a second refresh with the same responses, draws and faults, at any later timestamp, stores the same rows and gives the same outcome. The timestamp moves to the second run's time only when that run succeeds |
| Refresh.ChunkFailureKeepsEarlierChunks | src/countries/countries.service.ts:176-211 | a failing chunk `k` gives "Database update failed", writes exactly the first `25 k` entries and leaves the timestamp untouched |
| Queries.BuildWhere | src/countries/countries.service.ts:59-67 | a region or currency condition is added iff that parameter is present and non-empty, with the parameter's value |
| Queries.FindMany | src/countries/countries.service.ts:85-88 | the listed rows are exactly the stored rows that meet every condition of the clause, unchanged |
| Queries.FiltersCombine | src/countries/countries.service.ts:57-67 | absent or empty filters list the whole table, and the two filters act as a conjunction |
| Queries.MapField | src/countries/countries.service.ts:73-80 | `gdp` maps to `estimated_gdp`; every other field name is used as given, apart from inherited object members (see Left out) |
| Queries.ParseSort | src/countries/countries.service.ts:69-83 | an absent or empty sort gives no order. A non-empty sort without `_` throws. Otherwise the direction is lower-case and contains no `_` |
| Queries.ParseSortReadsTwoSegments | src/countries/countries.service.ts:70-82 | for `_`-free segments joined by `_`, the order uses the mapped first segment and the lower-cased second, ignoring all later segments |
| Queries.SortByGdp | src/countries/countries.service.ts:71-82 | `gdp_desc` orders by `estimated_gdp`, descending |
| Queries.SortDirectionLowered | src/countries/countries.service.ts:82 | `population_ASC` orders by `population`, direction `asc` |
| Queries.SortExchangeRateMisread | src/countries/countries.service.ts:71-80 | `exchange_rate_desc` orders by field `exchange` with direction `rate` |
| Queries.SortWithoutSeparatorThrows | src/countries/countries.service.ts:71-82 | a sort string without `_` (for example `name`) has no direction and fails |
| Queries.NormalizeIdempotent | src/countries/countries.service.ts:33 | trim-then-lower-case is idempotent, and its result has no upper-case letter and no surrounding whitespace |
| Queries.GetCountryByName | src/countries/countries.service.ts:32-50 | when every row is stored under its own name, a row is found exactly when some row's `name` column equals the trimmed, lower-cased request, and the row found is a stored row with that name. Otherwise the lookup fails with NotFound, whose details quote the name as given |
| Queries.DeleteCountryByName | src/countries/countries.service.ts:226-250 | with no row under the normalized name: NotFound and the table is untouched. Otherwise exactly that row is removed and the count 1 is returned |
| Queries.DeleteThenLookup | src/countries/countries.service.ts:226-249 | after a delete the same name is no longer found, and a name with a different normalized form finds what it found before |
| Queries.LookupIgnoresCaseAndPadding | src/countries/countries.service.ts:32-40 | surrounding whitespace and lower-casing of the requested name do not change its normalized form, so they do not change the row found |
| Queries.LookupMissesUpperCaseKeys | src/countries/countries.service.ts:33-40 | a stored name containing an upper-case letter never equals a normalized name, so exact matching never finds it |
| Queries.StatusAfterRefresh | src/countries/countries.service.ts:97-108 | after a successful refresh the status shows that refresh's timestamp and counts a row for every refreshed country. After a failure it shows the timestamp from before, which is null if no refresh ever succeeded. The count never decreases |
| Text.ToLowerIdempotent | src/countries/countries.service.ts:33 | lower-casing leaves no upper-case letter, keeps every other character, and is idempotent |
| Text.Trim | src/countries/countries.service.ts:33 | the trimmed string has no leading or trailing whitespace, is empty iff the input is all whitespace, and is a slice of the input with only whitespace cut off on each side |
| Text.TrimIdempotent | src/countries/countries.service.ts:227 | a string without surrounding whitespace is its own trim, and trimming twice equals trimming once |
| Text.TrimIgnoresPadding | src/countries/countries.service.ts:227 | whitespace added on either side does not change the trim |
| Text.TrimLowerCommute | src/countries/countries.service.ts:227 | trimming and lower-casing commute |
| Text.Split | src/countries/countries.service.ts:71 | `split('_')` gives at least one part, no part contains the separator, and joining the parts with the separator restores the input |
| Text.SplitJoin | src/countries/countries.service.ts:71 | splitting a join of separator-free parts gives back those parts |

## Left out

- The HTTP requests (axios, the 30-second timeouts, status codes) are not modelled. Each response is a parameter, and any failure is `None`.
- The multiplier generator is not modelled. `src/utils/index.ts` is not part of this model, so its range is not modelled either, and the draws are an arbitrary function.
- The constructor's check that both API URLs are configured (lines 19-30) is left out; it is configuration, not refresh logic.
- `getCountries` (lines 93-95) is left out: it is an unfiltered `findMany`, which is `Queries.FindMany` with an empty clause.
- The image service is left out: it only reads the store and writes a file, so the model keeps just whether it throws. The controller and module wiring are left out as well.
- Logging and the timing with `Date.now` are left out. Refresh failures keep the exception's `error` text and drop its `details`. For the queries, `NotFound` keeps the `details` text and drops the fixed `error: 'Country not found'` (lines 43-46). A sort without `_` is a plain `SortWithoutDirection` error with no message, because the source fails there with a TypeError of its own.
- Country names are compared exactly. Database collation is not modelled (see above), and neither is the validation of `orderBy` fields by the database client: an unknown sort field or direction is passed through as parsed.
- Numbers are mathematical reals, so floating-point rounding, `NaN` and `Infinity` are not modelled. A non-numeric population or rate is outside the model.
- Trim and lower-case work on ASCII: whitespace is space and the control characters 9-13, and only `A`-`Z` are lower-cased. Unicode whitespace and case mapping are not modelled.
- The database schema is not part of this model. A created row whose GDP the entry leaves unassigned is assumed to get null.
- Rate-table keys such as `constructor`, which JavaScript would find on the object's prototype, are not modelled. Neither is an upstream country without a `name`.
- Concurrency between requests is not modelled: each operation runs alone on the state it is given.
- Queries.DeleteCountryByName: returns a count of 1, because names are unique keys. It does not model a case-insensitive collation matching several rows.
- Queries.FindMany: the ordering is not modelled. The source passes `orderBy` to the query (line 87) and gets a sorted array, while the model returns the matching rows as an unordered map. `Queries.ParseSort` computes the clause, but nothing applies it.
- Queries.MapField: inherited object members are not modelled. `fieldMapping` is a plain object (line 73), so for a field such as `constructor` or `toString`, `fieldMapping[field] || field` (line 80) gives the inherited function and not the field name. The model's contract, that every field other than `gdp` is used as given, holds only for fields that are not such members.
