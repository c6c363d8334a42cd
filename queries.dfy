/**
 * Dataset assembly (queries.py): the two indicator datasets behind the
 * dashboard's charts are built by joining an indicator table to the GDP table
 * on (country_code, year), dropping rows whose GDP or outcome is null, joining
 * the country metadata on country_code and removing the "not classified"
 * income level. The health dataset rescales its index from 0..100 to 0..1;
 * the education dataset keeps only years covered by enough distinct countries.
 *
 * Every frame is a sequence of rows; every pandas step is a function over
 * sequences. An inner merge is the cross product of the rows whose keys match,
 * in the order of the left frame.
 */
module Queries {
  import opened Wrappers

  /** The income level the World Bank uses for "not classified". */
  const UNCLASSIFIED: string := "INX"

  /** A year enters the education dataset only with this many distinct countries. */
  const MIN_COUNTRIES: nat := 45

  /** indicator.gdp: GDP per capita (2017 PPP) by country and year. */
  datatype GdpRow = GdpRow(countryCode: string, year: int, gdpPerCapita: Option<real>)

  /** One outcome indicator table (health coverage index or learning poverty rate). */
  datatype IndicatorRow = IndicatorRow(countryCode: string, year: int, value: Option<real>)

  /** indicator.country: name and income level of a country. */
  datatype CountryRow = CountryRow(countryCode: string, countryName: string, incomeLevel: Option<string>)

  /** A row of the GDP-to-indicator merge. */
  datatype MergedRow = MergedRow(countryCode: string, year: int, gdpPerCapita: Option<real>, outcome: Option<real>)

  /** A row of an assembled dataset: the merge joined to the country metadata. */
  datatype Row = Row(
    countryCode: string,
    year: int,
    gdpPerCapita: Option<real>,
    outcome: Option<real>,
    countryName: string,
    incomeLevel: Option<string>)

  // ---------------------------------------------------------------------------
  // pd.merge(gdp, indicator, on=['country_code', 'year'], how='inner')
  // ---------------------------------------------------------------------------

  predicate SameKey(g: GdpRow, i: IndicatorRow) {
    g.countryCode == i.countryCode && g.year == i.year
  }

  function Combine(g: GdpRow, i: IndicatorRow): MergedRow {
    MergedRow(g.countryCode, g.year, g.gdpPerCapita, i.value)
  }

  /** The only GDP row that can contribute to m. */
  function GdpPart(m: MergedRow): GdpRow {
    GdpRow(m.countryCode, m.year, m.gdpPerCapita)
  }

  /** The only indicator row that can contribute to m. */
  function IndicatorPart(m: MergedRow): IndicatorRow {
    IndicatorRow(m.countryCode, m.year, m.outcome)
  }

  /** The merged rows one GDP row contributes: one per indicator row with its key. */
  function MatchIndicator(g: GdpRow, ind: seq<IndicatorRow>): (ms: seq<MergedRow>)
    ensures forall m :: m in ms <==> exists i :: i in ind && SameKey(g, i) && m == Combine(g, i)
    ensures forall m :: multiset(ms)[m] == if g == GdpPart(m) then multiset(ind)[IndicatorPart(m)] else 0
  {
    if ind == [] then []
    else
      var rest := MatchIndicator(g, ind[1..]);
      assert forall i :: i in ind <==> i == ind[0] || i in ind[1..];
      var ms := (if SameKey(g, ind[0]) then [Combine(g, ind[0])] else []) + rest;
      MatchIndicatorCounts(g, ind, rest, ms);
      ms
  }

  lemma MatchIndicatorCounts(g: GdpRow, ind: seq<IndicatorRow>, rest: seq<MergedRow>, ms: seq<MergedRow>)
    requires ind != []
    requires forall m :: multiset(rest)[m] == if g == GdpPart(m) then multiset(ind[1..])[IndicatorPart(m)] else 0
    requires ms == (if SameKey(g, ind[0]) then [Combine(g, ind[0])] else []) + rest
    ensures forall m :: multiset(ms)[m] == if g == GdpPart(m) then multiset(ind)[IndicatorPart(m)] else 0
  {
    assert ind == [ind[0]] + ind[1..];
    forall m ensures multiset(ms)[m] == if g == GdpPart(m) then multiset(ind)[IndicatorPart(m)] else 0 {
      assert SameKey(g, ind[0]) && Combine(g, ind[0]) == m <==> g == GdpPart(m) && ind[0] == IndicatorPart(m);
    }
  }

  /**
   * The inner merge on (country_code, year): every matching pair, and nothing
   * else. Each matching pair gives one row, so a merged row occurs as often as
   * its GDP row times as often as its indicator row.
   */
  function MergeIndicator(gdp: seq<GdpRow>, ind: seq<IndicatorRow>): (ms: seq<MergedRow>)
    ensures forall m :: m in ms <==>
      exists g, i :: g in gdp && i in ind && SameKey(g, i) && m == Combine(g, i)
    ensures forall m :: multiset(ms)[m] == multiset(gdp)[GdpPart(m)] * multiset(ind)[IndicatorPart(m)]
  {
    if gdp == [] then []
    else
      var rest := MergeIndicator(gdp[1..], ind);
      assert forall g :: g in gdp <==> g == gdp[0] || g in gdp[1..];
      var ms := MatchIndicator(gdp[0], ind) + rest;
      MergeIndicatorCounts(gdp, ind, MatchIndicator(gdp[0], ind), rest, ms);
      ms
  }

  lemma MergeIndicatorCounts(gdp: seq<GdpRow>, ind: seq<IndicatorRow>, first: seq<MergedRow>, rest: seq<MergedRow>, ms: seq<MergedRow>)
    requires gdp != []
    requires forall m :: multiset(first)[m] == if gdp[0] == GdpPart(m) then multiset(ind)[IndicatorPart(m)] else 0
    requires forall m :: multiset(rest)[m] == multiset(gdp[1..])[GdpPart(m)] * multiset(ind)[IndicatorPart(m)]
    requires ms == first + rest
    ensures forall m :: multiset(ms)[m] == multiset(gdp)[GdpPart(m)] * multiset(ind)[IndicatorPart(m)]
  {
    assert gdp == [gdp[0]] + gdp[1..];
    forall m ensures multiset(ms)[m] == multiset(gdp)[GdpPart(m)] * multiset(ind)[IndicatorPart(m)] {
      OneMoreTimes(multiset(gdp[1..])[GdpPart(m)], multiset(ind)[IndicatorPart(m)]);
    }
  }

  /** (a + 1) * b == b + a * b: one more left row adds one more copy of every match. */
  lemma OneMoreTimes(a: int, b: int)
    ensures (a + 1) * b == b + a * b
  {
  }

  // ---------------------------------------------------------------------------
  // merged[merged.gdp_per_capita_2017_ppp.notnull() & merged.<outcome>.notnull()]
  // ---------------------------------------------------------------------------

  predicate Observed(m: MergedRow) {
    m.gdpPerCapita.Some? && m.outcome.Some?
  }

  function KeepObserved(ms: seq<MergedRow>): (kept: seq<MergedRow>)
    ensures |kept| <= |ms|
    ensures forall m :: m in kept <==> m in ms && Observed(m)
    ensures forall m :: multiset(kept)[m] == if Observed(m) then multiset(ms)[m] else 0
  {
    if ms == [] then []
    else
      assert ms == [ms[0]] + ms[1..];
      (if Observed(ms[0]) then [ms[0]] else []) + KeepObserved(ms[1..])
  }

  // ---------------------------------------------------------------------------
  // pd.merge(merged, country, on=['country_code'], how='inner')
  // ---------------------------------------------------------------------------

  function AttachCountry(m: MergedRow, c: CountryRow): Row {
    Row(m.countryCode, m.year, m.gdpPerCapita, m.outcome, c.countryName, c.incomeLevel)
  }

  /** The only merged row that can contribute to r. */
  function MergedPart(r: Row): MergedRow {
    MergedRow(r.countryCode, r.year, r.gdpPerCapita, r.outcome)
  }

  /** The only country row that can contribute to r. */
  function CountryPart(r: Row): CountryRow {
    CountryRow(r.countryCode, r.countryName, r.incomeLevel)
  }

  function MatchCountry(m: MergedRow, country: seq<CountryRow>): (rows: seq<Row>)
    ensures forall r :: r in rows <==>
      exists c :: c in country && c.countryCode == m.countryCode && r == AttachCountry(m, c)
    ensures forall r :: multiset(rows)[r] == if m == MergedPart(r) then multiset(country)[CountryPart(r)] else 0
  {
    if country == [] then []
    else
      var rest := MatchCountry(m, country[1..]);
      assert forall c :: c in country <==> c == country[0] || c in country[1..];
      var rows := (if country[0].countryCode == m.countryCode then [AttachCountry(m, country[0])] else []) + rest;
      MatchCountryCounts(m, country, rest, rows);
      rows
  }

  lemma MatchCountryCounts(m: MergedRow, country: seq<CountryRow>, rest: seq<Row>, rows: seq<Row>)
    requires country != []
    requires forall r :: multiset(rest)[r] == if m == MergedPart(r) then multiset(country[1..])[CountryPart(r)] else 0
    requires rows == (if country[0].countryCode == m.countryCode then [AttachCountry(m, country[0])] else []) + rest
    ensures forall r :: multiset(rows)[r] == if m == MergedPart(r) then multiset(country)[CountryPart(r)] else 0
  {
    assert country == [country[0]] + country[1..];
    forall r ensures multiset(rows)[r] == if m == MergedPart(r) then multiset(country)[CountryPart(r)] else 0 {
      assert country[0].countryCode == m.countryCode && AttachCountry(m, country[0]) == r
        <==> m == MergedPart(r) && country[0] == CountryPart(r);
    }
  }

  /**
   * The inner merge on country_code: a joined row occurs as often as its merged
   * row times as often as its country row.
   */
  function MergeCountry(ms: seq<MergedRow>, country: seq<CountryRow>): (rows: seq<Row>)
    ensures forall r :: r in rows <==>
      exists m, c :: m in ms && c in country && c.countryCode == m.countryCode && r == AttachCountry(m, c)
    ensures forall r :: multiset(rows)[r] == multiset(ms)[MergedPart(r)] * multiset(country)[CountryPart(r)]
  {
    if ms == [] then []
    else
      var rest := MergeCountry(ms[1..], country);
      assert forall m :: m in ms <==> m == ms[0] || m in ms[1..];
      var rows := MatchCountry(ms[0], country) + rest;
      MergeCountryCounts(ms, country, MatchCountry(ms[0], country), rest, rows);
      rows
  }

  lemma MergeCountryCounts(ms: seq<MergedRow>, country: seq<CountryRow>, first: seq<Row>, rest: seq<Row>, rows: seq<Row>)
    requires ms != []
    requires forall r :: multiset(first)[r] == if ms[0] == MergedPart(r) then multiset(country)[CountryPart(r)] else 0
    requires forall r :: multiset(rest)[r] == multiset(ms[1..])[MergedPart(r)] * multiset(country)[CountryPart(r)]
    requires rows == first + rest
    ensures forall r :: multiset(rows)[r] == multiset(ms)[MergedPart(r)] * multiset(country)[CountryPart(r)]
  {
    assert ms == [ms[0]] + ms[1..];
    forall r ensures multiset(rows)[r] == multiset(ms)[MergedPart(r)] * multiset(country)[CountryPart(r)] {
      OneMoreTimes(multiset(ms[1..])[MergedPart(r)], multiset(country)[CountryPart(r)]);
    }
  }

  // ---------------------------------------------------------------------------
  // df[df.income_level != 'INX']
  // ---------------------------------------------------------------------------

  /** A null income level compares unequal to 'INX' and so stays. */
  predicate Classified(r: Row) {
    r.incomeLevel != Some(UNCLASSIFIED)
  }

  function ExcludeUnclassified(rows: seq<Row>): (kept: seq<Row>)
    ensures |kept| <= |rows|
    ensures forall r :: r in kept <==> r in rows && Classified(r)
    ensures forall r :: multiset(kept)[r] == if Classified(r) then multiset(rows)[r] else 0
  {
    if rows == [] then []
    else
      assert rows == [rows[0]] + rows[1..];
      (if Classified(rows[0]) then [rows[0]] else []) + ExcludeUnclassified(rows[1..])
  }

  // ---------------------------------------------------------------------------
  // The chain both get_health_data and get_edu_data run
  // ---------------------------------------------------------------------------

  /** The row a GDP row, an indicator row and a country row make together. */
  function MakeRow(g: GdpRow, i: IndicatorRow, c: CountryRow): Row {
    Row(g.countryCode, g.year, g.gdpPerCapita, i.value, c.countryName, c.incomeLevel)
  }

  /** r carries the keys of g, i and c, g's GDP and c's name and income level. */
  predicate SourcedFrom(r: Row, g: GdpRow, i: IndicatorRow, c: CountryRow) {
    && g.countryCode == r.countryCode && i.countryCode == r.countryCode && c.countryCode == r.countryCode
    && g.year == r.year && i.year == r.year
    && r.gdpPerCapita == g.gdpPerCapita
    && r.countryName == c.countryName && r.incomeLevel == c.incomeLevel
  }

  /** The three rows share their keys, carry a GDP and an outcome, and the country is classified. */
  predicate Admissible(g: GdpRow, i: IndicatorRow, c: CountryRow) {
    && SameKey(g, i)
    && c.countryCode == g.countryCode
    && g.gdpPerCapita.Some?
    && i.value.Some?
    && c.incomeLevel != Some(UNCLASSIFIED)
  }

  /**
   * Merge, null filter, country merge and INX exclusion: a row is in the result
   * exactly when some admissible GDP, indicator and country rows make it.
   */
  function Assemble(gdp: seq<GdpRow>, ind: seq<IndicatorRow>, country: seq<CountryRow>): (rows: seq<Row>)
    ensures forall r :: r in rows <==>
      exists g, i, c :: g in gdp && i in ind && c in country && Admissible(g, i, c) && r == MakeRow(g, i, c)
    ensures forall r ::
      multiset(rows)[r] == if Observed(MergedPart(r)) && Classified(r) then Triples(gdp, ind, country, r) else 0
  {
    var merged := MergeIndicator(gdp, ind);
    var observed := KeepObserved(merged);
    var joined := MergeCountry(observed, country);
    var rows := ExcludeUnclassified(joined);
    ChainMembers(gdp, ind, country, merged, observed, joined, rows);
    ChainCounts(gdp, ind, country, merged, observed, joined, rows);
    rows
  }

  /**
   * The number of (GDP, indicator, country) row triples that make r: how often
   * its GDP row, its indicator row and its country row occur, multiplied.
   */
  function Triples(gdp: seq<GdpRow>, ind: seq<IndicatorRow>, country: seq<CountryRow>, r: Row): nat {
    multiset(gdp)[GdpPart(MergedPart(r))] * multiset(ind)[IndicatorPart(MergedPart(r))] * multiset(country)[CountryPart(r)]
  }

  /** The copy counts of the four steps compose into Assemble's. */
  lemma ChainCounts(gdp: seq<GdpRow>, ind: seq<IndicatorRow>, country: seq<CountryRow>,
      merged: seq<MergedRow>, observed: seq<MergedRow>, joined: seq<Row>, rows: seq<Row>)
    requires forall m :: multiset(merged)[m] == multiset(gdp)[GdpPart(m)] * multiset(ind)[IndicatorPart(m)]
    requires forall m :: multiset(observed)[m] == if Observed(m) then multiset(merged)[m] else 0
    requires forall r :: multiset(joined)[r] == multiset(observed)[MergedPart(r)] * multiset(country)[CountryPart(r)]
    requires forall r :: multiset(rows)[r] == if Classified(r) then multiset(joined)[r] else 0
    ensures forall r ::
      multiset(rows)[r] == if Observed(MergedPart(r)) && Classified(r) then Triples(gdp, ind, country, r) else 0
  {
    forall r ensures multiset(rows)[r] ==
      if Observed(MergedPart(r)) && Classified(r) then Triples(gdp, ind, country, r) else 0
    {
      var m := MergedPart(r);
      assert multiset(joined)[r] == multiset(observed)[m] * multiset(country)[CountryPart(r)];
      if !Observed(m) {
        assert multiset(observed)[m] == 0;
      }
    }
  }

  /** The membership facts of the four steps compose into Assemble's. */
  lemma ChainMembers(gdp: seq<GdpRow>, ind: seq<IndicatorRow>, country: seq<CountryRow>,
      merged: seq<MergedRow>, observed: seq<MergedRow>, joined: seq<Row>, rows: seq<Row>)
    requires forall m :: m in merged <==>
      exists g, i :: g in gdp && i in ind && SameKey(g, i) && m == Combine(g, i)
    requires forall m :: m in observed <==> m in merged && Observed(m)
    requires forall r :: r in joined <==>
      exists m, c :: m in observed && c in country && c.countryCode == m.countryCode && r == AttachCountry(m, c)
    requires forall r :: r in rows <==> r in joined && Classified(r)
    ensures forall r :: r in rows <==>
      exists g, i, c :: g in gdp && i in ind && c in country && Admissible(g, i, c) && r == MakeRow(g, i, c)
  {
    assert forall g, i, c :: g in gdp && i in ind && c in country && Admissible(g, i, c) ==>
      Combine(g, i) in observed && AttachCountry(Combine(g, i), c) in joined && MakeRow(g, i, c) == AttachCountry(Combine(g, i), c);
  }

  // ---------------------------------------------------------------------------
  // get_health_data
  // ---------------------------------------------------------------------------

  /** df['universal_health_coverage_index'] / 100 on one row. */
  function Rescale(r: Row): Row {
    r.(outcome := match r.outcome case Some(v) => Some(v / 100.0) case None => None)
  }

  function RescaleAll(rows: seq<Row>): (scaled: seq<Row>)
    ensures |scaled| == |rows|
    ensures forall k :: 0 <= k < |rows| ==> scaled[k] == Rescale(rows[k])
    ensures forall r :: r in scaled <==> exists s :: s in rows && r == Rescale(s)
  {
    if rows == [] then []
    else
      var rest := RescaleAll(rows[1..]);
      assert forall s :: s in rows <==> s == rows[0] || s in rows[1..];
      [Rescale(rows[0])] + rest
  }

  /** The health dataset: the assembled rows with the coverage index divided by 100. */
  function GetHealthData(gdp: seq<GdpRow>, country: seq<CountryRow>, health: seq<IndicatorRow>): (rows: seq<Row>)
    ensures forall r :: r in rows <==>
      exists g, i, c :: g in gdp && i in health && c in country && Admissible(g, i, c)
        && r == Rescale(MakeRow(g, i, c))
    ensures |rows| == |Assemble(gdp, health, country)|
    ensures forall k :: 0 <= k < |rows| ==> rows[k] == Rescale(Assemble(gdp, health, country)[k])
  {
    var assembled := Assemble(gdp, health, country);
    RescaleAll(assembled)
  }

  /** Every health row has a GDP, an index and a classified income level. */
  lemma HealthRowsObserved(gdp: seq<GdpRow>, country: seq<CountryRow>, health: seq<IndicatorRow>)
    ensures forall r :: r in GetHealthData(gdp, country, health) ==>
      r.gdpPerCapita.Some? && r.outcome.Some? && r.incomeLevel != Some(UNCLASSIFIED)
  {
    forall r | r in GetHealthData(gdp, country, health)
      ensures r.gdpPerCapita.Some? && r.outcome.Some? && r.incomeLevel != Some(UNCLASSIFIED)
    {
      var g, i, c :| g in gdp && i in health && c in country && Admissible(g, i, c)
        && r == Rescale(MakeRow(g, i, c));
    }
  }

  /**
   * Every health row comes from a GDP row and an index row with its key and a
   * country row with its code; its GDP is the GDP row's and its index is the
   * raw index divided by 100.
   */
  lemma HealthRowProvenance(gdp: seq<GdpRow>, country: seq<CountryRow>, health: seq<IndicatorRow>, r: Row)
    requires r in GetHealthData(gdp, country, health)
    ensures exists g, i, c :: (g in gdp && i in health && c in country && SourcedFrom(r, g, i, c)
      && i.value.Some? && r.outcome == Some(i.value.value / 100.0))
  {
    RescaledRowSourced(gdp, country, health, GetHealthData(gdp, country, health), r);
  }

  lemma RescaledRowSourced(gdp: seq<GdpRow>, country: seq<CountryRow>, health: seq<IndicatorRow>, rows: seq<Row>, r: Row)
    requires forall r :: r in rows <==>
      exists g, i, c :: g in gdp && i in health && c in country && Admissible(g, i, c)
        && r == Rescale(MakeRow(g, i, c))
    requires r in rows
    ensures exists g, i, c :: (g in gdp && i in health && c in country && SourcedFrom(r, g, i, c)
      && i.value.Some? && r.outcome == Some(i.value.value / 100.0))
  {
    var g, i, c :| g in gdp && i in health && c in country && Admissible(g, i, c)
      && r == Rescale(MakeRow(g, i, c));
    assert SourcedFrom(r, g, i, c);
  }

  /** A raw coverage index of 85 reaches the chart as 0.85. */
  lemma HealthIndexOf85(gdp: seq<GdpRow>, country: seq<CountryRow>, health: seq<IndicatorRow>)
    requires gdp == [GdpRow("KEN", 2015, Some(4000.0))]
    requires country == [CountryRow("KEN", "Kenya", Some("LMC"))]
    requires health == [IndicatorRow("KEN", 2015, Some(85.0))]
    ensures GetHealthData(gdp, country, health) == [Row("KEN", 2015, Some(4000.0), Some(0.85), "Kenya", Some("LMC"))]
  {
    var m := MergedRow("KEN", 2015, Some(4000.0), Some(85.0));
    assert MatchIndicator(gdp[0], health[1..]) == [];
    assert MatchIndicator(gdp[0], health) == [m];
    assert MergeIndicator(gdp, health) == [m];
    assert KeepObserved([m]) == [m];
    assert MatchCountry(m, country[1..]) == [];
    assert MergeCountry([m], country) == [AttachCountry(m, country[0])];
  }

  // ---------------------------------------------------------------------------
  // get_edu_data
  // ---------------------------------------------------------------------------

  /** df[df.year == year]['country_code'].unique() */
  function CountriesIn(rows: seq<Row>, year: int): set<string> {
    set r | r in rows && r.year == year :: r.countryCode
  }

  /** groupby('year')['country_code'].nunique() >= 45, as a set of years. */
  function ComparableYears(rows: seq<Row>): (years: set<int>)
    ensures forall r :: r in rows ==> (r.year in years <==> |CountriesIn(rows, r.year)| >= MIN_COUNTRIES)
    ensures forall y :: y in years ==> |CountriesIn(rows, y)| >= MIN_COUNTRIES
  {
    set r | r in rows && |CountriesIn(rows, r.year)| >= MIN_COUNTRIES :: r.year
  }

  /** df[df['year'].isin(years)] */
  function KeepYears(rows: seq<Row>, years: set<int>): (kept: seq<Row>)
    ensures |kept| <= |rows|
    ensures forall r :: r in kept <==> r in rows && r.year in years
    ensures forall r :: multiset(kept)[r] == if r.year in years then multiset(rows)[r] else 0
  {
    if rows == [] then []
    else
      assert rows == [rows[0]] + rows[1..];
      (if rows[0].year in years then [rows[0]] else []) + KeepYears(rows[1..], years)
  }

  /**
   * The education dataset: the assembled rows, unscaled, of exactly those years
   * in which the assembled rows cover at least 45 distinct countries.
   */
  function GetEduData(gdp: seq<GdpRow>, country: seq<CountryRow>, edu: seq<IndicatorRow>): (rows: seq<Row>)
    ensures |rows| <= |Assemble(gdp, edu, country)|
    ensures forall r :: r in rows <==>
      r in Assemble(gdp, edu, country) && |CountriesIn(Assemble(gdp, edu, country), r.year)| >= MIN_COUNTRIES
    ensures forall r ::
      multiset(rows)[r] == if |CountriesIn(Assemble(gdp, edu, country), r.year)| >= MIN_COUNTRIES
        then multiset(Assemble(gdp, edu, country))[r] else 0
  {
    var assembled := Assemble(gdp, edu, country);
    var rows := KeepYears(assembled, ComparableYears(assembled));
    ComparableCopies(assembled, rows);
    rows
  }

  /** Keeping the comparable years keeps every copy of a row of such a year. */
  lemma ComparableCopies(all: seq<Row>, kept: seq<Row>)
    requires forall r :: multiset(kept)[r] == if r.year in ComparableYears(all) then multiset(all)[r] else 0
    ensures forall r ::
      multiset(kept)[r] == if |CountriesIn(all, r.year)| >= MIN_COUNTRIES then multiset(all)[r] else 0
  {
    forall r ensures multiset(kept)[r] == if |CountriesIn(all, r.year)| >= MIN_COUNTRIES then multiset(all)[r] else 0 {
      if r !in all {
        assert multiset(all)[r] == 0;
      }
    }
  }

  /**
   * Whole years are kept or dropped: in the education dataset itself, every
   * year that appears is covered by at least 45 distinct countries.
   */
  lemma EduYearsHaveEnoughCountries(gdp: seq<GdpRow>, country: seq<CountryRow>, edu: seq<IndicatorRow>, y: int)
    requires exists r :: r in GetEduData(gdp, country, edu) && r.year == y
    ensures CountriesIn(GetEduData(gdp, country, edu), y) == CountriesIn(Assemble(gdp, edu, country), y)
    ensures |CountriesIn(GetEduData(gdp, country, edu), y)| >= MIN_COUNTRIES
  {
    WholeYearsKept(Assemble(gdp, edu, country), GetEduData(gdp, country, edu), y);
  }

  /** A filter that keeps or drops whole years keeps every country of a year it keeps. */
  lemma WholeYearsKept(all: seq<Row>, out: seq<Row>, y: int)
    requires forall r :: r in out <==> r in all && |CountriesIn(all, r.year)| >= MIN_COUNTRIES
    requires exists r :: r in out && r.year == y
    ensures CountriesIn(out, y) == CountriesIn(all, y)
    ensures |CountriesIn(out, y)| >= MIN_COUNTRIES
  {
    var r0 :| r0 in out && r0.year == y;
    assert |CountriesIn(all, y)| >= MIN_COUNTRIES;
    forall code | code in CountriesIn(all, y) ensures code in CountriesIn(out, y) {
      var r :| r in all && r.year == y && r.countryCode == code;
      assert r in out;
    }
  }

  /** Every education row is an assembled row, its learning poverty rate the raw value. */
  lemma EduRowProvenance(gdp: seq<GdpRow>, country: seq<CountryRow>, edu: seq<IndicatorRow>, r: Row)
    requires r in GetEduData(gdp, country, edu)
    ensures exists g, i, c :: (g in gdp && i in edu && c in country && SourcedFrom(r, g, i, c)
      && g.gdpPerCapita.Some? && i.value.Some? && r.outcome == i.value
      && r.incomeLevel != Some(UNCLASSIFIED))
  {
    var g, i, c :| g in gdp && i in edu && c in country && Admissible(g, i, c) && r == MakeRow(g, i, c);
    assert SourcedFrom(r, g, i, c);
  }

  /** When no GDP row shares a key with an indicator row, both datasets are empty. */
  lemma NoCommonKeyMeansEmpty(gdp: seq<GdpRow>, country: seq<CountryRow>, ind: seq<IndicatorRow>)
    requires forall g, i :: g in gdp && i in ind ==> !SameKey(g, i)
    ensures GetHealthData(gdp, country, ind) == []
    ensures GetEduData(gdp, country, ind) == []
  {
    var health := GetHealthData(gdp, country, ind);
    var all := Assemble(gdp, ind, country);
    assert forall r :: r !in all;
    assert forall r :: r !in health;
    assert forall r :: r !in GetEduData(gdp, country, ind);
  }
}
