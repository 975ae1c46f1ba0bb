/** The country table and the metadata row, and the upsert-by-name the
    refresh applies to them. */
module Store {
  import opened Wrappers
  import opened Countries

  /** A stored country row. */
  datatype CountryRow = CountryRow(
    name: string,
    capital: Option<string>,
    region: Option<string>,
    population: int,
    currencyCode: Option<string>,
    exchangeRate: Option<real>,
    estimatedGdp: Option<real>,
    flagUrl: Option<string>)

  /** The country table, keyed by the unique `name` column. */
  type Rows = map<string, CountryRow>

  /** The whole store: the table and `last_refreshed_at` of the metadata row
      with id 1 (`None` while that row does not exist). */
  datatype State = State(rows: Rows, lastRefreshedAt: Option<int>)

  function Lookup(rows: Rows, n: string): (r: Option<CountryRow>)
    ensures r.Some? <==> n in rows
  {
    if n in rows then Some(rows[n]) else None
  }

  /** Every row is stored under its own name. */
  ghost predicate WellKeyed(rows: Rows) {
    forall n :: n in rows ==> rows[n].name == n
  }

  function StoredGdp(existing: Option<CountryRow>): Option<real> {
    if existing.Some? then existing.value.estimatedGdp else None
  }

  /** The row an upsert of `e` leaves: every field of `e` is written; an
      unassigned GDP keeps the existing row's value on update and is null on
      create. */
  function Merge(existing: Option<CountryRow>, e: CountryEntry): (row: CountryRow)
    ensures row.name == e.name && row.capital == e.capital && row.region == e.region
    ensures row.population == e.population && row.flagUrl == e.flagUrl
    ensures row.currencyCode == e.currencyCode && row.exchangeRate == e.exchangeRate
    ensures e.estimatedGdp.Set? ==> row.estimatedGdp == Some(e.estimatedGdp.value)
    ensures e.estimatedGdp.SetNull? ==> row.estimatedGdp.None?
    ensures e.estimatedGdp.Unset? && existing.None? ==> row.estimatedGdp.None?
    ensures e.estimatedGdp.Unset? && existing.Some? ==> row.estimatedGdp == existing.value.estimatedGdp
  {
    CountryRow(e.name, e.capital, e.region, e.population, e.currencyCode, e.exchangeRate,
               match e.estimatedGdp
               case Set(v) => Some(v)
               case SetNull => None
               case Unset => StoredGdp(existing),
               e.flagUrl)
  }

  /** Merging the same entry into its own result changes nothing: the second
      upsert of an entry finds the row the first one left. */
  lemma MergeAgain(x: Option<CountryRow>, e: CountryEntry)
    ensures Merge(Some(Merge(x, e)), e) == Merge(x, e)
  {
  }

  /** An entry that assigns its GDP (a number or null) determines the whole
      row: update and create give the same row. */
  lemma MergeIgnoresExisting(x: Option<CountryRow>, e: CountryEntry)
    requires !e.estimatedGdp.Unset?
    ensures Merge(x, e) == Merge(None, e)
  {
  }

  /** `country.upsert({where: {name}, update: e, create: e})`. */
  function Upsert(rows: Rows, e: CountryEntry): (r: Rows)
    ensures r.Keys == rows.Keys + {e.name}
    ensures forall n :: n in rows && n != e.name ==> r[n] == rows[n]
    ensures r[e.name] == Merge(Lookup(rows, e.name), e)
  {
    rows[e.name := Merge(Lookup(rows, e.name), e)]
  }

  function Names(es: seq<CountryEntry>): set<string> {
    set i | 0 <= i < |es| :: es[i].name
  }

  /** The upserts of `es`, one after the other in order. */
  function UpsertAll(rows: Rows, es: seq<CountryEntry>): (r: Rows)
    ensures rows.Keys <= r.Keys
    decreases |es|
  {
    if |es| == 0 then rows
    else Upsert(UpsertAll(rows, es[..|es| - 1]), es[|es| - 1])
  }

  /** The upserts add exactly the entries' names to the table and leave
      every row of another name as it was. */
  lemma {:induction false} UpsertAllFrame(rows: Rows, es: seq<CountryEntry>)
    ensures UpsertAll(rows, es).Keys == rows.Keys + Names(es)
    ensures forall n :: n in rows && n !in Names(es) ==> UpsertAll(rows, es)[n] == rows[n]
    decreases |es|
  {
    if |es| > 0 {
      var init := es[..|es| - 1];
      var e := es[|es| - 1];
      var before := UpsertAll(rows, init);
      UpsertAllFrame(rows, init);
      assert UpsertAll(rows, es) == Upsert(before, e);
      assert Names(es) == Names(init) + {e.name} by {
        assert forall i :: 0 <= i < |es| - 1 ==> init[i] == es[i];
      }
      forall n | n in rows && n !in Names(es) ensures UpsertAll(rows, es)[n] == rows[n] {
        assert n != e.name && n in before && before[n] == rows[n];
      }
    }
  }

  /** Upserting keeps every row under its own name. */
  lemma {:induction false} UpsertAllWellKeyed(rows: Rows, es: seq<CountryEntry>)
    requires WellKeyed(rows)
    ensures WellKeyed(UpsertAll(rows, es))
    decreases |es|
  {
    if |es| > 0 {
      UpsertAllWellKeyed(rows, es[..|es| - 1]);
    }
  }

  lemma UpsertAllSnoc(rows: Rows, es: seq<CountryEntry>, e: CountryEntry)
    ensures UpsertAll(rows, es + [e]) == Upsert(UpsertAll(rows, es), e)
  {
    assert (es + [e])[..|es|] == es;
  }

  /** Applying two lists in turn is applying their concatenation: this is how
      consecutive chunks add up to the whole list. */
  lemma {:induction false} UpsertAllAppend(rows: Rows, a: seq<CountryEntry>, b: seq<CountryEntry>)
    ensures UpsertAll(UpsertAll(rows, a), b) == UpsertAll(rows, a + b)
    decreases |b|
  {
    if |b| == 0 {
      assert a + b == a;
    } else {
      var b' := b[..|b| - 1];
      var last := b[|b| - 1];
      assert b == b' + [last];
      assert a + b == (a + b') + [last];
      UpsertAllSnoc(UpsertAll(rows, a), b', last);
      UpsertAllSnoc(rows, a + b', last);
      UpsertAllAppend(rows, a, b');
    }
  }

  /** The row under `n` as the upserts of `es` evolve it from `x`. */
  ghost function RowAt(x: Option<CountryRow>, es: seq<CountryEntry>, n: string): Option<CountryRow>
    decreases |es|
  {
    if |es| == 0 then x
    else
      var y := RowAt(x, es[..|es| - 1], n);
      if es[|es| - 1].name == n then Some(Merge(y, es[|es| - 1])) else y
  }

  /** The GDP under `n` as the upserts of `es` evolve it from `g`. */
  ghost function GdpAt(g: Option<real>, es: seq<CountryEntry>, n: string): Option<real>
    decreases |es|
  {
    if |es| == 0 then g
    else
      var h := GdpAt(g, es[..|es| - 1], n);
      var e := es[|es| - 1];
      if e.name != n then h
      else match e.estimatedGdp
        case Set(v) => Some(v)
        case SetNull => None
        case Unset => h
  }

  lemma {:induction false} UpsertAllAt(rows: Rows, es: seq<CountryEntry>, n: string)
    ensures Lookup(UpsertAll(rows, es), n) == RowAt(Lookup(rows, n), es, n)
    decreases |es|
  {
    if |es| > 0 {
      UpsertAllAt(rows, es[..|es| - 1], n);
    }
  }

  lemma {:induction false} RowAtGdp(x: Option<CountryRow>, es: seq<CountryEntry>, n: string)
    ensures StoredGdp(RowAt(x, es, n)) == GdpAt(StoredGdp(x), es, n)
    decreases |es|
  {
    if |es| > 0 {
      RowAtGdp(x, es[..|es| - 1], n);
    }
  }

  lemma {:induction false} GdpAtIdempotent(g: Option<real>, es: seq<CountryEntry>, n: string)
    ensures GdpAt(GdpAt(g, es, n), es, n) == GdpAt(g, es, n)
    decreases |es|
  {
    if |es| > 0 {
      var ps := es[..|es| - 1];
      var e := es[|es| - 1];
      GdpAtIdempotent(g, ps, n);
      if e.name == n && e.estimatedGdp.Unset? {
        assert GdpAt(g, es, n) == GdpAt(g, ps, n);
      }
    }
  }

  lemma {:induction false} RowAtIdempotent(x: Option<CountryRow>, es: seq<CountryEntry>, n: string)
    ensures RowAt(RowAt(x, es, n), es, n) == RowAt(x, es, n)
    decreases |es|
  {
    if |es| > 0 {
      var ps := es[..|es| - 1];
      var e := es[|es| - 1];
      var y := RowAt(x, es, n);
      var z := RowAt(x, ps, n);
      RowAtIdempotent(x, ps, n);
      if e.name == n {
        RowAtGdp(y, ps, n);
        RowAtGdp(x, ps, n);
        GdpAtIdempotent(StoredGdp(x), ps, n);
        assert StoredGdp(RowAt(y, ps, n)) == StoredGdp(z) || !e.estimatedGdp.Unset?;
        assert Merge(RowAt(y, ps, n), e) == Merge(z, e);
      }
    }
  }

  /** Upsert by name is idempotent: applying the same entries a second time
      leaves the table as the first application left it. */
  lemma UpsertAllIdempotent(rows: Rows, es: seq<CountryEntry>)
    ensures UpsertAll(UpsertAll(rows, es), es) == UpsertAll(rows, es)
  {
    var once := UpsertAll(rows, es);
    var twice := UpsertAll(once, es);
    forall n | true
      ensures Lookup(twice, n) == Lookup(once, n)
    {
      UpsertAllAt(once, es, n);
      UpsertAllAt(rows, es, n);
      RowAtIdempotent(Lookup(rows, n), es, n);
    }
    assert twice.Keys == once.Keys by {
      forall n | n in twice ensures n in once { assert Lookup(twice, n).Some?; }
      forall n | n in once ensures n in twice { assert Lookup(once, n).Some?; }
    }
    forall n | n in once ensures twice[n] == once[n] {
      assert Lookup(twice, n) == Lookup(once, n);
    }
  }

  /** A country whose population turns falsy keeps the estimated GDP stored
      by an earlier refresh, because its entry leaves that field unassigned. */
  lemma StaleGdpSurvives(rows: Rows, e: CountryEntry)
    requires e.name in rows && e.estimatedGdp.Unset?
    ensures UpsertAll(rows, [e])[e.name].estimatedGdp == rows[e.name].estimatedGdp
  {
    assert [e][..0] == [];
  }
}
