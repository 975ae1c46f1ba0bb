/** The read side of the service: filter and sort clauses, lookup and delete
    by normalized name, and the status summary. */
module Queries {
  import opened Wrappers
  import opened Text
  import opened Countries
  import opened Store
  import opened Refresh

  datatype QueryError =
    | NotFound(details: string)
    | SortWithoutDirection   // `direction` is undefined, so `direction.toLowerCase()` throws

  // ---------------------------------------------------------------- filters

  /** The `where` clause of the list query: `None` means no condition. */
  datatype Where = Where(region: Option<string>, currencyCode: Option<string>)

  /** A condition is added only for a truthy (present, non-empty) parameter. */
  function BuildWhere(region: Option<string>, currency: Option<string>): (w: Where)
    ensures w.region.Some? <==> region.Some? && region.value != ""
    ensures w.currencyCode.Some? <==> currency.Some? && currency.value != ""
    ensures w.region.Some? ==> w.region == region
    ensures w.currencyCode.Some? ==> w.currencyCode == currency
  {
    Where(OrNull(region), OrNull(currency))
  }

  predicate Matches(row: CountryRow, w: Where) {
    && (w.region.None? || row.region == w.region)
    && (w.currencyCode.None? || row.currencyCode == w.currencyCode)
  }

  /** `findMany({where})`: exactly the rows meeting every condition. */
  function FindMany(rows: Rows, w: Where): (r: Rows)
    ensures r.Keys <= rows.Keys
    ensures forall n :: n in rows ==> (n in r <==> Matches(rows[n], w))
    ensures forall n :: n in r ==> r[n] == rows[n]
  {
    map n | n in rows && Matches(rows[n], w) :: rows[n]
  }

  /** Absent or empty filter parameters select the whole table, and the two
      filters combine as a conjunction. */
  lemma FiltersCombine(rows: Rows, region: Option<string>, currency: Option<string>)
    ensures (region.None? || region.value == "") && (currency.None? || currency.value == "") ==>
              FindMany(rows, BuildWhere(region, currency)) == rows
    ensures FindMany(rows, BuildWhere(region, currency)).Keys
         == FindMany(rows, BuildWhere(region, None)).Keys * FindMany(rows, BuildWhere(None, currency)).Keys
  {
  }

  // ------------------------------------------------------------------- sort

  /** The `orderBy` clause: empty, or one field with a direction. */
  datatype OrderBy = NoOrder | OrderBy(field: string, direction: string)

  const FieldMapping: map<string, string> := map[
    "gdp" := "estimated_gdp",
    "name" := "name",
    "population" := "population",
    "exchange_rate" := "exchange_rate"]

  /** `fieldMapping[field] || field`. */
  function MapField(f: string): (g: string)
    ensures f == "gdp" ==> g == "estimated_gdp"
    ensures f != "gdp" ==> g == f
  {
    if f in FieldMapping && FieldMapping[f] != "" then FieldMapping[f] else f
  }

  /** The sort parameter `<field>_<direction>`: only the first two
      `_`-separated segments are read. */
  function ParseSort(sort: Option<string>): (r: Result<OrderBy, QueryError>)
    ensures (sort.None? || sort.value == "") ==> r == Success(NoOrder)
    ensures r.Failure? <==> sort.Some? && sort.value != "" && '_' !in sort.value
    ensures r.Success? && r.value.OrderBy? ==>
              '_' !in r.value.direction && forall i :: 0 <= i < |r.value.direction| ==> !IsUpper(r.value.direction[i])
  {
    if sort.None? || sort.value == "" then Success(NoOrder)
    else
      var parts := Split(sort.value, '_');
      if |parts| < 2 then
        assert '_' !in sort.value by {
          assert Join(parts, '_') == parts[0];
        }
        Failure(SortWithoutDirection)
      else
        assert '_' in sort.value by {
          assert Join(parts, '_') == parts[0] + ['_'] + Join(parts[1..], '_');
          assert Join(parts, '_')[|parts[0]|] == '_';
        }
        var direction := ToLower(parts[1]);
        assert '_' !in direction by {
          forall i | 0 <= i < |direction| ensures direction[i] != '_' {
            assert parts[1][i] in parts[1];
          }
        }
        Success(OrderBy(MapField(parts[0]), direction))
  }

  /** A sort string `field_direction`, optionally followed by more
      `_`-separated segments, orders by the mapped first segment in the
      lower-cased second segment; the later segments are ignored. */
  lemma ParseSortReadsTwoSegments(parts: seq<string>)
    requires |parts| >= 2
    requires forall k :: 0 <= k < |parts| ==> '_' !in parts[k]
    ensures ParseSort(Some(Join(parts, '_'))) == Success(OrderBy(MapField(parts[0]), ToLower(parts[1])))
  {
    SplitJoin(parts, '_');
    var s := Join(parts, '_');
    assert s == parts[0] + ['_'] + Join(parts[1..], '_');
    assert s[|parts[0]|] == '_';
  }

  // The example strings below are passed as parameters fixed by `requires`:
  // given as literals, they make the verifier expand Split and Join on them
  // character by character, which costs far more than the proofs themselves.

  /** `gdp_desc` sorts by `estimated_gdp`, descending. */
  lemma SortByGdp(field: string, dir: string)
    requires field == "gdp" && dir == "desc"
    ensures ParseSort(Some(field + "_" + dir)) == Success(OrderBy("estimated_gdp", "desc"))
  {
    var parts := [field, dir];
    assert '_' !in field && '_' !in dir;
    ParseSortReadsTwoSegments(parts);
    assert Join(parts, '_') == field + "_" + dir;
    assert ToLower(dir) == dir;
  }

  /** The direction is lower-cased: `population_ASC` sorts ascending. */
  lemma SortDirectionLowered(field: string, dir: string)
    requires field == "population" && dir == "ASC"
    ensures ParseSort(Some(field + "_" + dir)) == Success(OrderBy("population", "asc"))
  {
    var parts := [field, dir];
    assert '_' !in field && '_' !in dir;
    ParseSortReadsTwoSegments(parts);
    assert Join(parts, '_') == field + "_" + dir;
    assert ToLower(dir) == "asc";
  }

  /** `exchange_rate_desc` is read as field `exchange` with direction `rate`,
      because the field name itself contains the separator. */
  lemma SortExchangeRateMisread(first: string, second: string, third: string)
    requires first == "exchange" && second == "rate" && third == "desc"
    ensures ParseSort(Some(first + "_" + second + "_" + third)) == Success(OrderBy("exchange", "rate"))
  {
    var parts := [first, second, third];
    assert '_' !in first && '_' !in second && '_' !in third;
    ParseSortReadsTwoSegments(parts);
    assert parts[1..] == [second, third];
    assert parts[1..][1..] == [third];
    assert Join(parts[1..], '_') == second + "_" + third;
    assert Join(parts, '_') == first + "_" + (second + "_" + third);
    assert first + "_" + second + "_" + third == first + "_" + (second + "_" + third);
    assert ToLower(second) == second;
  }

  /** A sort string without `_` has no direction and throws. */
  lemma SortWithoutSeparatorThrows()
    ensures ParseSort(Some("name")) == Failure(SortWithoutDirection)
  {
    assert '_' !in "name";
  }

  // ----------------------------------------------------- lookup and delete

  /** `name.trim().toLowerCase()`. */
  function Normalize(name: string): string {
    ToLower(Trim(name))
  }

  /** Normalizing twice is normalizing once, and a normalized name has no
      upper-case letter and no surrounding whitespace. */
  lemma NormalizeIdempotent(name: string)
    ensures Normalize(Normalize(name)) == Normalize(name)
    ensures var n := Normalize(name);
      && (forall i :: 0 <= i < |n| ==> !IsUpper(n[i]))
      && (n == [] || (!IsSpace(n[0]) && !IsSpace(n[|n| - 1])))
  {
    var t := Trim(name);
    var n := ToLower(t);
    ToLowerIdempotent(t);
    assert n == [] || (!IsSpace(n[0]) && !IsSpace(n[|n| - 1]));
    TrimIdempotent(n);
  }

  function NotFoundDetails(name: string): string {
    "No country found with name: " + name
  }

  /** `getCountryByName`: the row stored under the normalized name. */
  function GetCountryByName(rows: Rows, name: string): (r: Result<CountryRow, QueryError>)
    ensures r.Success? <==> Normalize(name) in rows
    ensures r.Success? ==> r.value == rows[Normalize(name)]
    ensures r.Failure? ==> r.error == NotFound(NotFoundDetails(name))
    // with every row stored under its own name: a row is found exactly when
    // some row's `name` column equals the normalized name, and it is that row
    ensures WellKeyed(rows) ==> (r.Success? <==> exists n :: n in rows && rows[n].name == Normalize(name))
    ensures WellKeyed(rows) && r.Success? ==> r.value.name == Normalize(name) && r.value in rows.Values
  {
    var key := Normalize(name);
    if key in rows then Success(rows[key]) else Failure(NotFound(NotFoundDetails(name)))
  }

  datatype DeleteResult = DeleteResult(rows: Rows, result: Result<nat, QueryError>)

  /** `deleteCountryByName`: NotFound, with the table untouched, when no row
      has the normalized name; otherwise that row is deleted and the count of
      deleted rows is returned. */
  function DeleteCountryByName(rows: Rows, name: string): (r: DeleteResult)
    ensures r.result.Failure? <==> Normalize(name) !in rows
    ensures r.result.Failure? ==> r.rows == rows && r.result.error == NotFound(NotFoundDetails(name))
    ensures r.result.Success? ==> r.result.value == 1
    ensures r.rows.Keys == rows.Keys - {Normalize(name)}
    ensures forall n :: n in r.rows ==> r.rows[n] == rows[n]
  {
    var key := Normalize(name);
    if key !in rows then DeleteResult(rows, Failure(NotFound(NotFoundDetails(name))))
    else DeleteResult(rows - {key}, Success(1))
  }

  /** After a delete, the same name is no longer found, whatever its case or
      padding, and every other row is still found. */
  lemma DeleteThenLookup(rows: Rows, name: string, other: string)
    requires Normalize(other) != Normalize(name)
    ensures GetCountryByName(DeleteCountryByName(rows, name).rows, name).Failure?
    ensures GetCountryByName(DeleteCountryByName(rows, name).rows, other) == GetCountryByName(rows, other)
  {
  }

  /** Lookup ignores the case of the requested name and whitespace around
      it: padded or lower-cased, a name finds the same row. */
  lemma LookupIgnoresCaseAndPadding(rows: Rows, name: string, p: string, q: string)
    requires AllSpace(p) && AllSpace(q)
    ensures Normalize(p + name + q) == Normalize(name)
    ensures Normalize(ToLower(name)) == Normalize(name)
    ensures GetCountryByName(rows, p + name + q).Success? ==>
              GetCountryByName(rows, p + name + q) == GetCountryByName(rows, name)
    ensures GetCountryByName(rows, ToLower(name)).Success? ==>
              GetCountryByName(rows, ToLower(name)) == GetCountryByName(rows, name)
  {
    TrimIgnoresPadding(p, name, q);
    TrimLowerCommute(name);
    ToLowerIdempotent(Trim(name));
  }

  /** Lookup compares the normalized name for equality with the stored name,
      so a row stored with an upper-case letter is never found. */
  lemma LookupMissesUpperCaseKeys(rows: Rows, name: string, key: string, i: nat)
    requires key in rows && i < |key| && IsUpper(key[i])
    ensures Normalize(name) != key
  {
    NormalizeIdempotent(name);
  }

  // ---------------------------------------------------------------- status

  datatype Summary = Summary(totalCountries: nat, lastRefreshedAt: Option<int>)

  /** `getStatusSummary`: the row count and the metadata timestamp, null
      while the metadata row does not exist. */
  function StatusSummary(s: State): (r: Summary)
    ensures r.totalCountries == |s.rows|
    ensures r.lastRefreshedAt == s.lastRefreshedAt
  {
    Summary(|s.rows|, s.lastRefreshedAt)
  }

  /** After a successful refresh the status reports its timestamp and a row
      for every refreshed country; after any failure the timestamp is the
      one before the refresh. */
  lemma StatusAfterRefresh(
    s: State, countries: Option<seq<UpstreamCountry>>, ratesResponse: Option<RatesResponse>,
    draws: nat -> real, fault: Option<StoreFault>, imageRenders: bool, now: int)
    ensures var r := RefreshCountries(s, countries, ratesResponse, draws, fault, imageRenders, now);
      && (r.outcome.Refreshed? ==> StatusSummary(r.state).lastRefreshedAt == Some(now))
      && (r.outcome.Refreshed? ==>
            forall j :: 0 <= j < |countries.value| ==> countries.value[j].name in r.state.rows)
      && (!r.outcome.Refreshed? ==> StatusSummary(r.state).lastRefreshedAt == s.lastRefreshedAt)
      && StatusSummary(r.state).totalCountries >= |s.rows|
  {
    var r := RefreshCountries(s, countries, ratesResponse, draws, fault, imageRenders, now);
    if r.outcome.Refreshed? {
      var cs := countries.value;
      var entries := Transform(cs, ratesResponse.value.rates, draws).value;
      TransformKeepsNames(cs, ratesResponse.value.rates, draws);
      UpsertAllFrame(s.rows, entries);
      forall j | 0 <= j < |cs| ensures cs[j].name in r.state.rows {
        assert entries[j].name == cs[j].name;
        assert cs[j].name in Names(entries);
      }
    }
    assert s.rows.Keys <= r.state.rows.Keys;
    assert |s.rows.Keys| <= |r.state.rows.Keys| by {
      SubsetCardinality(s.rows.Keys, r.state.rows.Keys);
    }
  }

  lemma {:induction false} SubsetCardinality(a: set<string>, b: set<string>)
    requires a <= b
    ensures |a| <= |b|
    decreases |a|
  {
    if a != {} {
      var x :| x in a;
      SubsetCardinality(a - {x}, b - {x});
    }
  }
}
