/** The transform phase of a refresh: each country of the upstream countries
    API becomes one store entry, joined with the exchange-rate table. */
module Countries {
  import opened Wrappers

  datatype Currency = Currency(code: string, name: string, symbol: string)

  /** One element of the countries API response. The fields the transform
      tests for truthiness may be absent. */
  datatype UpstreamCountry = UpstreamCountry(
    name: string,
    capital: Option<string>,
    region: Option<string>,
    population: Option<int>,
    currencies: Option<seq<Currency>>,
    flag: Option<string>,
    independent: bool)

  /** The `rates` object of the exchange-rate API: currency code to rate. */
  type Rates = map<string, real>

  /** The estimated GDP of an entry: assigned a number, assigned null, or
      never assigned (the key is absent from the object sent to the store). */
  datatype Gdp = Set(value: real) | SetNull | Unset

  /** The record the transform builds for one country. */
  datatype CountryEntry = CountryEntry(
    name: string,
    capital: Option<string>,
    region: Option<string>,
    population: int,
    currencyCode: Option<string>,
    exchangeRate: Option<real>,
    estimatedGdp: Gdp,
    flagUrl: Option<string>)

  /** The JavaScript TypeErrors the transform can raise. */
  datatype TransformError =
    | NoFirstCurrency   // `currencies` is an empty array: `currencies[0].code` throws
    | NoRatesObject     // the rates response has no `rates` object to index

  /** `x || null` on an optional string: the empty string is falsy. */
  function OrNull(s: Option<string>): (r: Option<string>)
    ensures r.Some? <==> s.Some? && s.value != ""
    ensures r.Some? ==> r == s
  {
    if s.Some? && s.value != "" then s else None
  }

  predicate PopulationTruthy(p: Option<int>) {
    p.Some? && p.value != 0
  }

  /** `exchangeRatesData[code]` is truthy: present and not zero. */
  predicate RateTruthy(rates: Rates, code: string) {
    code in rates && rates[code] != 0.0
  }

  predicate HasFirstCurrency(c: UpstreamCountry) {
    c.currencies.Some? && |c.currencies.value| > 0
  }

  /** The transform of `c` does not throw. */
  predicate Convertible(c: UpstreamCountry, rates: Option<Rates>) {
    c.currencies.None? || (|c.currencies.value| > 0 && rates.Some?)
  }

  /** The transform of `c` reaches the GDP computation and so draws one
      multiplier. */
  predicate DrawsMultiplier(c: UpstreamCountry, rates: Option<Rates>) {
    && HasFirstCurrency(c)
    && rates.Some?
    && RateTruthy(rates.value, c.currencies.value[0].code)
    && PopulationTruthy(c.population)
  }

  /** The defaults applied after the currency branch. */
  function WithDefaults(c: UpstreamCountry, rate: Option<real>, gdp: Gdp): CountryEntry
    requires c.currencies.None? || |c.currencies.value| > 0
  {
    CountryEntry(
      name := c.name,
      capital := OrNull(c.capital),
      region := OrNull(c.region),
      population := if PopulationTruthy(c.population) then c.population.value else 0,
      currencyCode := if c.currencies.Some? then Some(c.currencies.value[0].code) else None,
      exchangeRate := rate,
      estimatedGdp := gdp,
      flagUrl := OrNull(c.flag))
  }

  /** One iteration of the transform loop; `m` is the value the multiplier
      generator returns if it is called for this country. */
  function ConvertCountry(c: UpstreamCountry, rates: Option<Rates>, m: real): (r: Result<CountryEntry, TransformError>)
    ensures r.Success? <==> Convertible(c, rates)
    ensures r.Success? ==> r.value.name == c.name
    ensures r.Success? ==> r.value.capital == OrNull(c.capital) && r.value.region == OrNull(c.region)
    ensures r.Success? ==> r.value.flagUrl == OrNull(c.flag)
    ensures r.Success? ==> r.value.population == c.population.GetOr(0)
    // only the first currency is ever consulted
    ensures r.Success? ==> r.value.currencyCode == (if c.currencies.Some? then Some(c.currencies.value[0].code) else None)
    ensures r.Success? && c.currencies.None? ==> r.value.exchangeRate.None? && r.value.estimatedGdp == SetNull
    ensures r.Success? ==> (r.value.exchangeRate.Some? <==> HasFirstCurrency(c) && RateTruthy(rates.value, c.currencies.value[0].code))
    ensures r.Success? && r.value.exchangeRate.Some? ==>
              r.value.exchangeRate.value == rates.value[c.currencies.value[0].code] != 0.0
    ensures r.Success? ==> (r.value.estimatedGdp.SetNull? <==> r.value.exchangeRate.None?)
    ensures r.Success? ==> (r.value.estimatedGdp.Set? <==> DrawsMultiplier(c, rates))
    ensures r.Success? ==> (r.value.estimatedGdp.Unset? <==> r.value.exchangeRate.Some? && !PopulationTruthy(c.population))
    ensures r.Success? && r.value.estimatedGdp.Set? ==>
              r.value.estimatedGdp.value * r.value.exchangeRate.value == r.value.population as real * m
  {
    if c.currencies.None? then
      Success(WithDefaults(c, None, SetNull))
    else if |c.currencies.value| == 0 then
      Failure(NoFirstCurrency)
    else if rates.None? then
      Failure(NoRatesObject)
    else
      var code := c.currencies.value[0].code;
      if !RateTruthy(rates.value, code) then
        Success(WithDefaults(c, None, SetNull))
      else
        var rate := rates.value[code];
        if PopulationTruthy(c.population) && rate != 0.0 then
          Success(WithDefaults(c, Some(rate), Set(c.population.value as real * m / rate)))
        else
          Success(WithDefaults(c, Some(rate), Unset))
  }

  /** How many of `cs` call the multiplier generator. */
  function MultiplierDraws(cs: seq<UpstreamCountry>, rates: Option<Rates>): (n: nat)
    ensures n <= |cs|
  {
    if |cs| == 0 then 0
    else MultiplierDraws(cs[..|cs| - 1], rates) + (if DrawsMultiplier(cs[|cs| - 1], rates) then 1 else 0)
  }

  /** The multiplier country `i` receives: the generator's next value after
      the draws of the countries before it. */
  function MultiplierFor(cs: seq<UpstreamCountry>, rates: Option<Rates>, draws: nat -> real, i: nat): real
    requires i <= |cs|
  {
    draws(MultiplierDraws(cs[..i], rates))
  }

  /** The transform loop from index `i` on; the first TypeError aborts it. */
  function TransformFrom(cs: seq<UpstreamCountry>, rates: Option<Rates>, draws: nat -> real, i: nat)
    : (r: Result<seq<CountryEntry>, TransformError>)
    requires i <= |cs|
    ensures r.Success? <==> forall j :: i <= j < |cs| ==> Convertible(cs[j], rates)
    ensures r.Success? ==> |r.value| == |cs| - i
    ensures r.Success? ==> forall j :: i <= j < |cs| ==>
              Success(r.value[j - i]) == ConvertCountry(cs[j], rates, MultiplierFor(cs, rates, draws, j))
    decreases |cs| - i
  {
    if i == |cs| then Success([])
    else
      match ConvertCountry(cs[i], rates, MultiplierFor(cs, rates, draws, i))
      case Failure(e) => Failure(e)
      case Success(entry) =>
        match TransformFrom(cs, rates, draws, i + 1)
        case Failure(e) => Failure(e)
        case Success(rest) => Success([entry] + rest)
  }

  /** The whole transform phase: one entry per upstream country, in order,
      or the first error. */
  function Transform(cs: seq<UpstreamCountry>, rates: Option<Rates>, draws: nat -> real)
    : (r: Result<seq<CountryEntry>, TransformError>)
    ensures r.Success? <==> forall j :: 0 <= j < |cs| ==> Convertible(cs[j], rates)
    ensures r.Success? ==> |r.value| == |cs|
    ensures r.Success? ==> forall j :: 0 <= j < |cs| ==>
              Success(r.value[j]) == ConvertCountry(cs[j], rates, MultiplierFor(cs, rates, draws, j))
  {
    TransformFrom(cs, rates, draws, 0)
  }

  /** The names of the entries are the names of the upstream countries. */
  lemma TransformKeepsNames(cs: seq<UpstreamCountry>, rates: Option<Rates>, draws: nat -> real)
    requires Transform(cs, rates, draws).Success?
    ensures forall j :: 0 <= j < |cs| ==> Transform(cs, rates, draws).value[j].name == cs[j].name
  {
    var es := Transform(cs, rates, draws).value;
    forall j | 0 <= j < |cs|
      ensures es[j].name == cs[j].name
    {
      assert Success(es[j]) == ConvertCountry(cs[j], rates, MultiplierFor(cs, rates, draws, j));
    }
  }

  /** An estimated GDP is present exactly when the country has a currency
      whose rate is truthy and a truthy population; absent rate or a zero
      rate leave it null, so no division by zero occurs. */
  lemma GdpPresentIff(cs: seq<UpstreamCountry>, rates: Option<Rates>, draws: nat -> real, j: nat)
    requires Transform(cs, rates, draws).Success?
    requires j < |cs|
    ensures var e := Transform(cs, rates, draws).value[j];
      e.estimatedGdp.Set? <==>
        && e.currencyCode.Some?
        && rates.Some? && RateTruthy(rates.value, e.currencyCode.value)
        && e.population != 0
  {
    var e := Transform(cs, rates, draws).value[j];
    assert Success(e) == ConvertCountry(cs[j], rates, MultiplierFor(cs, rates, draws, j));
  }

  /** How many entries carry an estimated GDP. */
  function GdpCount(es: seq<CountryEntry>): (n: nat)
    ensures n <= |es|
  {
    if |es| == 0 then 0
    else GdpCount(es[..|es| - 1]) + (if es[|es| - 1].estimatedGdp.Set? then 1 else 0)
  }

  /** An entry carries a GDP exactly when its country drew a multiplier. */
  lemma EntryDrawsIff(cs: seq<UpstreamCountry>, rates: Option<Rates>, draws: nat -> real, j: nat)
    requires Transform(cs, rates, draws).Success?
    requires j < |cs|
    ensures Transform(cs, rates, draws).value[j].estimatedGdp.Set? <==> DrawsMultiplier(cs[j], rates)
  {
    var e := Transform(cs, rates, draws).value[j];
    assert Success(e) == ConvertCountry(cs[j], rates, MultiplierFor(cs, rates, draws, j));
  }

  lemma DrawsPrefixStep(cs: seq<UpstreamCountry>, rates: Option<Rates>, n: nat)
    requires 0 < n <= |cs|
    ensures MultiplierDraws(cs[..n], rates)
         == MultiplierDraws(cs[..n - 1], rates) + (if DrawsMultiplier(cs[n - 1], rates) then 1 else 0)
  {
    assert cs[..n][..n - 1] == cs[..n - 1];
  }

  lemma GdpCountPrefixStep(es: seq<CountryEntry>, n: nat)
    requires 0 < n <= |es|
    ensures GdpCount(es[..n]) == GdpCount(es[..n - 1]) + (if es[n - 1].estimatedGdp.Set? then 1 else 0)
  {
    assert es[..n][..n - 1] == es[..n - 1];
  }

  /** Every multiplier drawn is used by exactly one entry: up to any index,
      the entries carrying a GDP are as many as the generator calls. */
  lemma {:induction false} DrawsMatchGdpEntries(cs: seq<UpstreamCountry>, rates: Option<Rates>, draws: nat -> real, n: nat)
    requires Transform(cs, rates, draws).Success?
    requires n <= |cs|
    ensures MultiplierDraws(cs[..n], rates) == GdpCount(Transform(cs, rates, draws).value[..n])
  {
    var es := Transform(cs, rates, draws).value;
    if n > 0 {
      DrawsMatchGdpEntries(cs, rates, draws, n - 1);
      EntryDrawsIff(cs, rates, draws, n - 1);
      DrawsPrefixStep(cs, rates, n);
      GdpCountPrefixStep(es, n);
    }
  }

  /** Population 1000, currency TST at rate 2 and a multiplier of 1 give an
      estimated GDP of 500. */
  lemma TestlandScenario()
    ensures var testland := UpstreamCountry("Testland", None, None, Some(1000),
                                           Some([Currency("TST", "Test dollar", "T")]), None, false);
            Transform([testland], Some(map["TST" := 2.0]), _ => 1.0)
              == Success([CountryEntry("Testland", None, None, 1000, Some("TST"), Some(2.0), Set(500.0), None)])
  {
    var testland := UpstreamCountry("Testland", None, None, Some(1000),
                                    Some([Currency("TST", "Test dollar", "T")]), None, false);
    var draws: nat -> real := _ => 1.0;
    var rates := Some(map["TST" := 2.0]);
    var expected := CountryEntry("Testland", None, None, 1000, Some("TST"), Some(2.0), Set(500.0), None);
    assert ConvertCountry(testland, rates, 1.0) == Success(expected);
    assert MultiplierFor([testland], rates, draws, 0) == 1.0 by {
      assert [testland][..0] == [];
    }
    var r := Transform([testland], rates, draws);
    assert r.Success?;
    assert r.value[0] == expected;
    assert r.value == [expected];
  }
}
