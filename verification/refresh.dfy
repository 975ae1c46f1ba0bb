/** `refreshCountries`: fetch, transform, chunked persistence, metadata
    update and summary image, with failures injected as inputs. */
module Refresh {
  import opened Wrappers
  import opened Countries
  import opened Store
  import opened Chunking

  /** A store operation that throws: the transaction of one chunk, or the
      metadata upsert that follows the chunks. */
  datatype StoreFault = ChunkFault(index: nat) | MetadataFault

  /** The body of the exchange-rate response; `rates` may be missing. */
  datatype RatesResponse = RatesResponse(rates: Option<Rates>)

  datatype ImageResult = Rendered | RenderFailed

  datatype Outcome =
    | Refreshed(message: string)
    | ServiceUnavailable(error: string)
    | InternalServerError(error: string)

  datatype RefreshResult = RefreshResult(state: State, outcome: Outcome)

  const RefreshedMessage := "Countries refreshed successfully"
  const ExternalUnavailable := "External data source unavailable"
  const DatabaseUpdateFailed := "Database update failed"

  /** How far the chunk loop got: the rows after it, how many chunks it
      committed, and whether it stopped on a failing transaction. */
  datatype ChunkRun = ChunkRun(rows: Rows, committed: nat, failed: bool)

  /** The chunk loop from chunk `next` on. Each chunk is one transaction:
      it applies all of its upserts, in order, or none of them. */
  function CommitChunks(rows: Rows, chunks: seq<seq<CountryEntry>>, next: nat, fault: Option<StoreFault>)
    : (r: ChunkRun)
    requires next <= |chunks|
    ensures next <= r.committed <= |chunks|
    ensures r.failed <==> fault.Some? && fault.value.ChunkFault? && next <= fault.value.index < |chunks|
    ensures r.failed ==> r.committed == fault.value.index
    ensures !r.failed ==> r.committed == |chunks|
    ensures r.rows == UpsertAll(rows, Flatten(chunks[next..r.committed]))
    decreases |chunks| - next
  {
    if next == |chunks| then
      assert chunks[next..next] == [];
      ChunkRun(rows, next, false)
    else if fault == Some(ChunkFault(next)) then
      assert chunks[next..next] == [];
      ChunkRun(rows, next, true)
    else
      var r := CommitChunks(UpsertAll(rows, chunks[next]), chunks, next + 1, fault);
      var done := chunks[next..r.committed];
      assert done[0] == chunks[next] && done[1..] == chunks[next + 1..r.committed];
      assert Flatten(done) == chunks[next] + Flatten(chunks[next + 1..r.committed]);
      UpsertAllAppend(rows, chunks[next], Flatten(chunks[next + 1..r.committed]));
      r
  }

  /** The number of entries a store fault lets through before it strikes. */
  function CommittedEntries(fault: Option<StoreFault>, n: nat): nat {
    if fault.Some? && fault.value.ChunkFault? then Min(fault.value.index * ChunkSize, n) else n
  }

  /** A fault among the store writes of `n` entries actually happens. */
  predicate FaultStrikes(fault: Option<StoreFault>, n: nat) {
    fault.Some? && (fault.value.MetadataFault? || fault.value.index < (n + ChunkSize - 1) / ChunkSize)
  }

  /** The persistence phase: every chunk, then the metadata row with id 1.
      Any failure raises InternalServerError; chunks committed before it
      stay committed, and nothing after it is applied. */
  function Persist(s: State, entries: seq<CountryEntry>, fault: Option<StoreFault>, now: int): (r: (State, bool))
    ensures r.1 <==> !FaultStrikes(fault, |entries|)
    ensures r.1 ==> r.0 == State(UpsertAll(s.rows, entries), Some(now))
    ensures !r.1 ==> r.0.lastRefreshedAt == s.lastRefreshedAt
    ensures !r.1 ==> r.0.rows == UpsertAll(s.rows, entries[..CommittedEntries(fault, |entries|)])
  {
    var chunks := Chunks(entries);
    var run := CommitChunks(s.rows, chunks, 0, fault);
    assert chunks[0..run.committed] == chunks[..run.committed];
    ChunkPrefix(entries, run.committed);
    assert chunks[..|chunks|] == chunks;
    assert entries[..|entries|] == entries;
    if run.failed then
      (State(run.rows, s.lastRefreshedAt), false)
    else if fault == Some(MetadataFault) then
      (State(run.rows, s.lastRefreshedAt), false)
    else
      (State(run.rows, Some(now)), true)
  }

  /** The summary image generator: it only reads the store and writes a file,
      so the model keeps just whether it throws. */
  function RenderSummary(rows: Rows, renders: bool): ImageResult {
    if renders then Rendered else RenderFailed
  }

  /** The fetch and transform phases run without raising. */
  ghost predicate ExternalPhaseOk(countries: Option<seq<UpstreamCountry>>, ratesResponse: Option<RatesResponse>) {
    && countries.Some?
    && ratesResponse.Some?
    && forall j :: 0 <= j < |countries.value| ==> Convertible(countries.value[j], ratesResponse.value.rates)
  }

  /** `refreshCountries`. `countries` and `ratesResponse` are the two fetches
      (`None` when the request fails or times out), `draws` the values of the
      multiplier generator in call order, `fault` the store operation that
      throws, `imageRenders` whether the image generator succeeds, and `now`
      the timestamp written to the metadata row. */
  function RefreshCountries(
    s: State,
    countries: Option<seq<UpstreamCountry>>,
    ratesResponse: Option<RatesResponse>,
    draws: nat -> real,
    fault: Option<StoreFault>,
    imageRenders: bool,
    now: int): (r: RefreshResult)
    // fetch or transform failure: ServiceUnavailable and no store write at all
    ensures r.outcome.ServiceUnavailable? <==> !ExternalPhaseOk(countries, ratesResponse)
    ensures r.outcome.ServiceUnavailable? ==> r.state == s && r.outcome.error == ExternalUnavailable
    ensures ExternalPhaseOk(countries, ratesResponse) ==>
      var entries := Transform(countries.value, ratesResponse.value.rates, draws).value;
      && |entries| == |countries.value|
      && (r.outcome.Refreshed? <==> !FaultStrikes(fault, |entries|))
      && (r.outcome.Refreshed? ==>
            r.outcome.message == RefreshedMessage
            && r.state == State(UpsertAll(s.rows, entries), Some(now)))
      && (r.outcome.InternalServerError? ==>
            r.outcome.error == DatabaseUpdateFailed
            && r.state.lastRefreshedAt == s.lastRefreshedAt
            && r.state.rows == UpsertAll(s.rows, entries[..CommittedEntries(fault, |entries|)]))
    // refresh never deletes a row
    ensures s.rows.Keys <= r.state.rows.Keys
  {
    if countries.None? || ratesResponse.None? then
      RefreshResult(s, ServiceUnavailable(ExternalUnavailable))
    else
      match Transform(countries.value, ratesResponse.value.rates, draws)
      case Failure(_) => RefreshResult(s, ServiceUnavailable(ExternalUnavailable))
      case Success(entries) =>
        var (s', ok) := Persist(s, entries, fault, now);
        if !ok then
          RefreshResult(s', InternalServerError(DatabaseUpdateFailed))
        else
          // a failing image generator is logged and swallowed
          match RenderSummary(s'.rows, imageRenders)
          case Rendered => RefreshResult(s', Refreshed(RefreshedMessage))
          case RenderFailed => RefreshResult(s', Refreshed(RefreshedMessage))
  }

  /** Once the store writes succeed, the image generator's outcome changes
      neither the result nor the store. */
  lemma ImageFailureSwallowed(
    s: State, countries: Option<seq<UpstreamCountry>>, ratesResponse: Option<RatesResponse>,
    draws: nat -> real, fault: Option<StoreFault>, now: int)
    ensures RefreshCountries(s, countries, ratesResponse, draws, fault, false, now)
         == RefreshCountries(s, countries, ratesResponse, draws, fault, true, now)
    ensures RefreshCountries(s, countries, ratesResponse, draws, fault, false, now).outcome.Refreshed?
         <==> ExternalPhaseOk(countries, ratesResponse)
              && !FaultStrikes(fault, |countries.value|)
  {
  }

  /** Running a refresh again with the same fetch results, multipliers and
      faults, at any later time, stores the same rows and gives the same
      outcome: upserts are by name. Only the timestamp moves, and only when
      the second run succeeds. */
  lemma RefreshIdempotent(
    s: State, countries: Option<seq<UpstreamCountry>>, ratesResponse: Option<RatesResponse>,
    draws: nat -> real, fault: Option<StoreFault>, imageRenders: bool, now1: int, now2: int)
    ensures var first := RefreshCountries(s, countries, ratesResponse, draws, fault, imageRenders, now1);
            var second := RefreshCountries(first.state, countries, ratesResponse, draws, fault, imageRenders, now2);
            && second.state.rows == first.state.rows
            && second.outcome == first.outcome
            && second.state.lastRefreshedAt == (if second.outcome.Refreshed? then Some(now2) else first.state.lastRefreshedAt)
  {
    var first := RefreshCountries(s, countries, ratesResponse, draws, fault, imageRenders, now1);
    if ExternalPhaseOk(countries, ratesResponse) {
      var entries := Transform(countries.value, ratesResponse.value.rates, draws).value;
      var written := entries[..CommittedEntries(fault, |entries|)];
      if first.outcome.Refreshed? {
        UpsertAllIdempotent(s.rows, entries);
      } else {
        UpsertAllIdempotent(s.rows, written);
      }
    }
  }

  /** A failing chunk `k` leaves the first `25 k` entries written and the
      metadata untouched. */
  lemma ChunkFailureKeepsEarlierChunks(
    s: State, countries: seq<UpstreamCountry>, ratesResponse: RatesResponse,
    draws: nat -> real, k: nat, imageRenders: bool, now: int)
    requires ExternalPhaseOk(Some(countries), Some(ratesResponse))
    requires k * ChunkSize < |countries|
    ensures var r := RefreshCountries(s, Some(countries), Some(ratesResponse), draws, Some(ChunkFault(k)), imageRenders, now);
            var entries := Transform(countries, ratesResponse.rates, draws).value;
            && r.outcome == InternalServerError(DatabaseUpdateFailed)
            && r.state == State(UpsertAll(s.rows, entries[..k * ChunkSize]), s.lastRefreshedAt)
  {
    var entries := Transform(countries, ratesResponse.rates, draws).value;
    assert k < (|entries| + ChunkSize - 1) / ChunkSize;
  }
}
