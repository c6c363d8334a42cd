/**
 * make_plot and its inner build_graph_and_table (plot.py): the animated
 * scatter of outcome against GDP per capita, one frame per year, with a trend
 * line and an outlier split per income level and a table of the outliers.
 *
 * The per-slice steps (slicing, sorting, fitting, splitting, the table rows
 * and their colours) are functions; the two loops of the source, over income
 * levels and over years, are methods proved against those functions.
 */
module Plot {
  import opened Wrappers
  import Queries
  import opened Regression

  // ---------------------------------------------------------------------------
  // Data
  // ---------------------------------------------------------------------------

  /** One row of the dataset handed to make_plot, with its GDP and outcome present. */
  datatype Point = Point(
    countryCode: string,
    countryName: string,
    year: int,
    incomeLevel: Option<string>,
    gdp: real,
    outcome: real)

  /** A dataset row can be plotted when neither its GDP nor its outcome is null. */
  predicate Plottable(r: Queries.Row) {
    r.gdpPerCapita.Some? && r.outcome.Some?
  }

  function ToPoint(r: Queries.Row): Point
    requires Plottable(r)
  {
    Point(r.countryCode, r.countryName, r.year, r.incomeLevel, r.gdpPerCapita.value, r.outcome.value)
  }

  /** The dataset as points, row by row. */
  function ToPoints(rows: seq<Queries.Row>): (pts: seq<Point>)
    requires forall k :: 0 <= k < |rows| ==> Plottable(rows[k])
    ensures |pts| == |rows|
    ensures forall k :: 0 <= k < |rows| ==> pts[k] == ToPoint(rows[k])
  {
    if rows == [] then [] else [ToPoint(rows[0])] + ToPoints(rows[1..])
  }

  /** The four income levels, in the order of income_level_legend_map (plot.py:19). */
  datatype Level = LIC | LMC | UMC | HIC {
    function Code(): string {
      match this
      case LIC => "LIC"
      case LMC => "LMC"
      case UMC => "UMC"
      case HIC => "HIC"
    }

    /** The legend label, which also names the level in the outlier table. */
    function Label(): string {
      match this
      case LIC => "1. Low Income"
      case LMC => "2. Lower Middle"
      case UMC => "3. Upper Middle"
      case HIC => "4. High Income"
    }

    /** The position of the level in the visiting order. */
    function Rank(): nat {
      match this
      case LIC => 0
      case LMC => 1
      case UMC => 2
      case HIC => 3
    }
  }

  const Levels: seq<Level> := [LIC, LMC, UMC, HIC]

  /** A row with its fitted value and its outlier flag (the frame after plot.py:93). */
  datatype FittedPoint = FittedPoint(point: Point, fitted: real, outlier: bool)

  datatype Position = TopCenter | BottomCenter

  /** A row of the outlier table (plot.py:96-97). */
  datatype OutlierRow = OutlierRow(
    year: int,
    level: Level,
    countryName: string,
    gdp: real,
    outcome: real,
    fitted: real,
    deviation: real)

  const GREEN: string := "#D8FFB1"
  const RED: string := "#FFCCCB"

  /** The traces of a frame: three scatters per non-empty level, then the table. */
  datatype Trace =
    | Trendline(level: Level, xs: seq<real>, ys: seq<real>)
    | Inliers(level: Level, xs: seq<real>, ys: seq<real>, text: seq<string>)
    | Outliers(level: Level, xs: seq<real>, ys: seq<real>, text: seq<string>, positions: seq<Position>)
    | Table(rows: seq<OutlierRow>, fills: seq<string>)

  // ---------------------------------------------------------------------------
  // Slicing: dataset[year == y][income_level == level].sort_values(gdp)
  // ---------------------------------------------------------------------------

  predicate InSlice(p: Point, year: int, level: Level) {
    p.year == year && p.incomeLevel == Some(level.Code())
  }

  function Select(pts: seq<Point>, year: int, level: Level): (s: seq<Point>)
    ensures |s| <= |pts|
    ensures forall p :: p in s <==> p in pts && InSlice(p, year, level)
    ensures forall k :: 0 <= k < |s| ==> InSlice(s[k], year, level)
    ensures multiset(s) <= multiset(pts)
    ensures forall p :: multiset(s)[p] == if InSlice(p, year, level) then multiset(pts)[p] else 0
  {
    if pts == [] then []
    else
      var rest := Select(pts[1..], year, level);
      assert pts == [pts[0]] + pts[1..];
      var s := if InSlice(pts[0], year, level) then [pts[0]] + rest else rest;
      SelectCopies(pts, year, level, rest, s);
      s
  }

  /** Keeping or dropping the head, on top of a selected tail, selects from the whole. */
  lemma SelectCopies(pts: seq<Point>, year: int, level: Level, rest: seq<Point>, s: seq<Point>)
    requires pts != []
    requires forall p :: multiset(rest)[p] == if InSlice(p, year, level) then multiset(pts[1..])[p] else 0
    requires s == if InSlice(pts[0], year, level) then [pts[0]] + rest else rest
    ensures forall p :: multiset(s)[p] == if InSlice(p, year, level) then multiset(pts)[p] else 0
  {
    assert pts == [pts[0]] + pts[1..];
  }

  predicate GdpSorted(s: seq<Point>) {
    forall i, j :: 0 <= i < j < |s| ==> s[i].gdp <= s[j].gdp
  }

  /** Inserts p before the first row of s with a larger or equal GDP. */
  function InsertByGdp(p: Point, s: seq<Point>): (r: seq<Point>)
    requires GdpSorted(s)
    ensures GdpSorted(r)
    ensures multiset(r) == multiset(s) + multiset{p}
  {
    if s == [] then [p]
    else if p.gdp <= s[0].gdp then
      GdpSortedCons(p, s);
      [p] + s
    else
      var rest := InsertByGdp(p, s[1..]);
      assert s == [s[0]] + s[1..];
      HeadBelowInserted(p, s, rest);
      GdpSortedCons(s[0], rest);
      [s[0]] + rest
  }

  /** The head of a sorted sequence stays below its tail with a larger row added. */
  lemma HeadBelowInserted(p: Point, s: seq<Point>, rest: seq<Point>)
    requires GdpSorted(s) && s != [] && s[0].gdp < p.gdp
    requires multiset(rest) == multiset(s[1..]) + multiset{p}
    ensures forall x :: x in rest ==> s[0].gdp <= x.gdp
  {
    forall x | x in rest ensures s[0].gdp <= x.gdp {
      assert x in multiset(rest);
      if x != p {
        assert x in multiset(s[1..]);
        var k :| 0 <= k < |s[1..]| && s[1..][k] == x;
        assert s[k + 1] == x;
      }
    }
  }

  /** A row no larger than every row of a sorted sequence may go in front of it. */
  lemma GdpSortedCons(p: Point, s: seq<Point>)
    requires GdpSorted(s)
    requires forall x :: x in s ==> p.gdp <= x.gdp
    ensures GdpSorted([p] + s)
  {
    var r := [p] + s;
    forall i, j | 0 <= i < j < |r| ensures r[i].gdp <= r[j].gdp {
      if i == 0 { assert r[j] == s[j - 1]; assert r[j] in s; }
      else { assert r[i] == s[i - 1] && r[j] == s[j - 1]; }
    }
  }

  /** The rows in ascending order of GDP, as a permutation of the input. */
  function SortByGdp(s: seq<Point>): (r: seq<Point>)
    ensures GdpSorted(r)
    ensures multiset(r) == multiset(s)
  {
    if s == [] then []
    else
      assert s == [s[0]] + s[1..];
      InsertByGdp(s[0], SortByGdp(s[1..]))
  }

  /** The rows of one year and one income level, ascending by GDP (plot.py:26-29). */
  function Slice(pts: seq<Point>, year: int, level: Level): seq<Point> {
    SortByGdp(Select(pts, year, level))
  }

  /**
   * A slice holds exactly the rows of its year and level, each as often as in
   * the dataset, in ascending order of GDP.
   */
  lemma SliceContents(pts: seq<Point>, year: int, level: Level)
    ensures GdpSorted(Slice(pts, year, level))
    ensures multiset(Slice(pts, year, level)) == multiset(Select(pts, year, level))
    ensures forall p ::
      multiset(Slice(pts, year, level))[p] == if InSlice(p, year, level) then multiset(pts)[p] else 0
    ensures forall p :: p in Slice(pts, year, level) <==> p in pts && InSlice(p, year, level)
  {
    var s := Slice(pts, year, level);
    assert forall p :: p in s <==> p in multiset(Select(pts, year, level));
  }

  // ---------------------------------------------------------------------------
  // Fitting one slice (plot.py:33-45, 93)
  // ---------------------------------------------------------------------------

  function Gdps(s: seq<Point>): (xs: seq<real>)
    ensures |xs| == |s|
    ensures forall k :: 0 <= k < |s| ==> xs[k] == s[k].gdp
  {
    if s == [] then [] else [s[0].gdp] + Gdps(s[1..])
  }

  function Outcomes(s: seq<Point>): (ys: seq<real>)
    ensures |ys| == |s|
    ensures forall k :: 0 <= k < |s| ==> ys[k] == s[k].outcome
  {
    if s == [] then [] else [s[0].outcome] + Outcomes(s[1..])
  }

  function Attach(s: seq<Point>, fitted: seq<real>, mask: seq<bool>): (fps: seq<FittedPoint>)
    requires |fitted| == |s| && |mask| == |s|
    ensures |fps| == |s|
    ensures forall k :: 0 <= k < |s| ==> fps[k] == FittedPoint(s[k], fitted[k], mask[k])
  {
    if s == [] then [] else [FittedPoint(s[0], fitted[0], mask[0])] + Attach(s[1..], fitted[1..], mask[1..])
  }

  /**
   * Every row of a non-empty slice with its value on the least-squares line of
   * outcome on GDP and its flag: the residual is more than t standard
   * deviations of the slice's residuals away from zero.
   */
  function FitSlice(s: seq<Point>, t: real): (fps: seq<FittedPoint>)
    requires |s| > 0
    ensures |fps| == |s|
    ensures forall k :: 0 <= k < |s| ==> fps[k].point == s[k]
  {
    var xs, ys := Gdps(s), Outcomes(s);
    Attach(s, Fitted(xs, ys), OutlierMask(xs, ys, t))
  }

  /**
   * A row's residual is y - fitted, and the row is flagged exactly when that
   * residual exceeds t standard deviations of the slice's residuals.
   */
  lemma FittedRow(s: seq<Point>, t: real, k: int)
    requires |s| > 0 && 0 <= k < |s|
    ensures FitSlice(s, t)[k].fitted == Fitted(Gdps(s), Outcomes(s))[k]
    ensures Residuals(Gdps(s), Outcomes(s))[k] == s[k].outcome - FitSlice(s, t)[k].fitted
    ensures FitSlice(s, t)[k].outlier == Exceeds(Residuals(Gdps(s), Outcomes(s))[k], Variance(Residuals(Gdps(s), Outcomes(s))), t)
  {
    var xs, ys := Gdps(s), Outcomes(s);
    var rs := Residuals(xs, ys);
    assert FitSlice(s, t)[k] == FittedPoint(s[k], Fitted(xs, ys)[k], OutlierMask(xs, ys, t)[k]);
    assert OutlierMask(xs, ys, t)[k] == Exceeds(rs[k], Variance(rs), t);
  }

  // ---------------------------------------------------------------------------
  // The three traces of a slice (plot.py:49-91)
  // ---------------------------------------------------------------------------

  /** x[mask] (flagged true) or x[~mask] (flagged false), keeping the slice order. */
  function Split(fps: seq<FittedPoint>, flagged: bool): (part: seq<FittedPoint>)
    ensures |part| <= |fps|
    ensures forall k :: 0 <= k < |part| ==> part[k].outlier == flagged
    ensures forall f :: f in part <==> f in fps && f.outlier == flagged
    ensures forall f :: multiset(part)[f] == if f.outlier == flagged then multiset(fps)[f] else 0
  {
    if fps == [] then []
    else
      var rest := Split(fps[1..], flagged);
      assert fps == [fps[0]] + fps[1..];
      var part := if fps[0].outlier == flagged then [fps[0]] + rest else rest;
      SplitCopies(fps, flagged, rest, part);
      part
  }

  /** Keeping or dropping the head, on top of a split tail, splits the whole. */
  lemma SplitCopies(fps: seq<FittedPoint>, flagged: bool, rest: seq<FittedPoint>, part: seq<FittedPoint>)
    requires fps != []
    requires forall f :: multiset(rest)[f] == if f.outlier == flagged then multiset(fps[1..])[f] else 0
    requires part == if fps[0].outlier == flagged then [fps[0]] + rest else rest
    ensures forall f :: multiset(part)[f] == if f.outlier == flagged then multiset(fps)[f] else 0
  {
    assert fps == [fps[0]] + fps[1..];
  }

  function Xs(fps: seq<FittedPoint>): (xs: seq<real>)
    ensures |xs| == |fps|
    ensures forall k :: 0 <= k < |fps| ==> xs[k] == fps[k].point.gdp
  {
    if fps == [] then [] else [fps[0].point.gdp] + Xs(fps[1..])
  }

  function Ys(fps: seq<FittedPoint>): (ys: seq<real>)
    ensures |ys| == |fps|
    ensures forall k :: 0 <= k < |fps| ==> ys[k] == fps[k].point.outcome
  {
    if fps == [] then [] else [fps[0].point.outcome] + Ys(fps[1..])
  }

  function FittedYs(fps: seq<FittedPoint>): (ys: seq<real>)
    ensures |ys| == |fps|
    ensures forall k :: 0 <= k < |fps| ==> ys[k] == fps[k].fitted
  {
    if fps == [] then [] else [fps[0].fitted] + FittedYs(fps[1..])
  }

  function Names(fps: seq<FittedPoint>): (names: seq<string>)
    ensures |names| == |fps|
    ensures forall k :: 0 <= k < |fps| ==> names[k] == fps[k].point.countryName
  {
    if fps == [] then [] else [fps[0].point.countryName] + Names(fps[1..])
  }

  /** 'top center' above the trend line, 'bottom center' otherwise (plot.py:77). */
  function PositionOf(f: FittedPoint): Position {
    if f.point.outcome > f.fitted then TopCenter else BottomCenter
  }

  function Positions(fps: seq<FittedPoint>): (ps: seq<Position>)
    ensures |ps| == |fps|
    ensures forall k :: 0 <= k < |fps| ==> ps[k] == PositionOf(fps[k])
  {
    if fps == [] then [] else [PositionOf(fps[0])] + Positions(fps[1..])
  }

  /** Trend line, non-outlier markers and outlier markers, in that order. */
  function SliceTraces(level: Level, fps: seq<FittedPoint>): (ts: seq<Trace>)
    ensures |ts| == 3
    ensures ts[0].Trendline? && ts[1].Inliers? && ts[2].Outliers?
    ensures ts[0].level == ts[1].level == ts[2].level == level
  {
    var inliers, outliers := Split(fps, false), Split(fps, true);
    [ Trendline(level, Xs(fps), FittedYs(fps)),
      Inliers(level, Xs(inliers), Ys(inliers), Names(inliers)),
      Outliers(level, Xs(outliers), Ys(outliers), Names(outliers), Positions(outliers)) ]
  }

  // ---------------------------------------------------------------------------
  // The outlier table (plot.py:93-101)
  // ---------------------------------------------------------------------------

  function RowOf(level: Level, f: FittedPoint): (r: OutlierRow)
    ensures r.deviation == r.outcome - r.fitted
  {
    OutlierRow(f.point.year, level, f.point.countryName, f.point.gdp, f.point.outcome,
      f.fitted, f.point.outcome - f.fitted)
  }

  /** dataset_by_year_level[outlier_mask] as table rows, in slice order. */
  function RowsOf(level: Level, fps: seq<FittedPoint>): (rows: seq<OutlierRow>)
    ensures |rows| == |fps|
    ensures forall k :: 0 <= k < |fps| ==> rows[k] == RowOf(level, fps[k])
  {
    if fps == [] then [] else [RowOf(level, fps[0])] + RowsOf(level, fps[1..])
  }

  /** The table order: by year, then by income level label, then by deviation. */
  predicate RowLe(a: OutlierRow, b: OutlierRow) {
    a.year < b.year
    || (a.year == b.year && a.level.Rank() < b.level.Rank())
    || (a.year == b.year && a.level.Rank() == b.level.Rank() && a.deviation <= b.deviation)
  }

  predicate RowsSorted(rows: seq<OutlierRow>) {
    forall i, j :: 0 <= i < j < |rows| ==> RowLe(rows[i], rows[j])
  }

  function InsertRow(r: OutlierRow, rows: seq<OutlierRow>): (res: seq<OutlierRow>)
    requires RowsSorted(rows)
    ensures RowsSorted(res)
    ensures multiset(res) == multiset(rows) + multiset{r}
  {
    if rows == [] then [r]
    else if RowLe(r, rows[0]) then
      forall x | x in rows ensures RowLe(r, x) {
        RowLeTransitive(r, rows[0], x);
      }
      RowsSortedCons(r, rows);
      [r] + rows
    else
      var rest := InsertRow(r, rows[1..]);
      assert rows == [rows[0]] + rows[1..];
      forall x | x in rest ensures RowLe(rows[0], x) {
        assert x in multiset(rest);
      }
      RowsSortedCons(rows[0], rest);
      [rows[0]] + rest
  }

  lemma RowLeTransitive(a: OutlierRow, b: OutlierRow, c: OutlierRow)
    requires RowLe(a, b) && RowLe(b, c)
    ensures RowLe(a, c)
  {
  }

  /** A row that orders before every row of a sorted table may go in front of it. */
  lemma RowsSortedCons(r: OutlierRow, rows: seq<OutlierRow>)
    requires RowsSorted(rows)
    requires forall x :: x in rows ==> RowLe(r, x)
    ensures RowsSorted([r] + rows)
  {
    var res := [r] + rows;
    forall i, j | 0 <= i < j < |res| ensures RowLe(res[i], res[j]) {
      if i == 0 { assert res[j] == rows[j - 1]; assert res[j] in rows; }
      else { assert res[i] == rows[i - 1] && res[j] == rows[j - 1]; }
    }
  }

  /** sort_values(by=['year', 'income_level_label', 'y_minus_fitted_y']) */
  function SortRows(rows: seq<OutlierRow>): (res: seq<OutlierRow>)
    ensures RowsSorted(res)
    ensures multiset(res) == multiset(rows)
  {
    if rows == [] then []
    else
      assert rows == [rows[0]] + rows[1..];
      InsertRow(rows[0], SortRows(rows[1..]))
  }

  /** Green for an over-performer, red otherwise (plot.py:101). */
  function Fill(r: OutlierRow): string {
    if r.deviation > 0.0 then GREEN else RED
  }

  function Fills(rows: seq<OutlierRow>): (fills: seq<string>)
    ensures |fills| == |rows|
    ensures forall k :: 0 <= k < |rows| ==> fills[k] == Fill(rows[k])
  {
    if rows == [] then [] else [Fill(rows[0])] + Fills(rows[1..])
  }

  /** The table trace: the rows with one fill colour per row. */
  function TableTrace(rows: seq<OutlierRow>): (t: Trace)
    ensures t.Table? && t.rows == rows
    ensures |t.fills| == |rows|
  {
    Table(rows, Fills(rows))
  }

  /** Python's string order: code point by code point, a proper prefix first. */
  predicate LexLess(a: string, b: string) {
    if a == [] then b != []
    else b != [] && (a[0] < b[0] || (a[0] == b[0] && LexLess(a[1..], b[1..])))
  }

  // ---------------------------------------------------------------------------
  // Properties of one slice
  // ---------------------------------------------------------------------------

  /** The non-outlier and outlier markers split the slice: every row lands in exactly one. */
  lemma {:induction false} SplitPartitions(fps: seq<FittedPoint>)
    ensures multiset(Split(fps, false)) + multiset(Split(fps, true)) == multiset(fps)
    ensures |Split(fps, false)| + |Split(fps, true)| == |fps|
  {
    if fps != [] {
      SplitPartitions(fps[1..]);
      assert fps == [fps[0]] + fps[1..];
    }
  }

  /** A one-row slice lies on its own trend line and has no outlier (numpy's 0 / 0 is NaN). */
  lemma SingleRowSliceHasNoOutlier(s: seq<Point>, t: real)
    requires |s| == 1
    ensures FitSlice(s, t)[0].fitted == s[0].outcome
    ensures !FitSlice(s, t)[0].outlier
    ensures Split(FitSlice(s, t), true) == []
  {
    SingleRowIsNeverOutlier(Gdps(s), Outcomes(s), t);
    var fps := FitSlice(s, t);
    assert fps[1..] == [];
  }

  /**
   * The trend line is drawn through the slice's rows in ascending GDP order:
   * its x values are the slice's GDPs and its y values the fitted ones.
   */
  lemma TrendlineAscends(pts: seq<Point>, year: int, level: Level, t: real)
    requires Slice(pts, year, level) != []
    ensures var s := Slice(pts, year, level);
      var tr := SliceTraces(level, FitSlice(s, t))[0];
      tr.xs == Gdps(s) && tr.ys == Fitted(Gdps(s), Outcomes(s))
    ensures var tr := SliceTraces(level, FitSlice(Slice(pts, year, level), t))[0];
      forall i, j :: 0 <= i < j < |tr.xs| ==> tr.xs[i] <= tr.xs[j]
  {
    SliceContents(pts, year, level);
    var s := Slice(pts, year, level);
    forall k | 0 <= k < |s| ensures FitSlice(s, t)[k].fitted == Fitted(Gdps(s), Outcomes(s))[k] {
      FittedRow(s, t, k);
    }
    TrendlineOf(s, FitSlice(s, t), level, Fitted(Gdps(s), Outcomes(s)));
  }

  /** The trend trace of annotated rows plots each row's GDP against its fitted value. */
  lemma TrendlineOf(s: seq<Point>, fps: seq<FittedPoint>, level: Level, fitted: seq<real>)
    requires |fps| == |s| == |fitted|
    requires forall k :: 0 <= k < |s| ==> fps[k].point == s[k] && fps[k].fitted == fitted[k]
    requires GdpSorted(s)
    ensures SliceTraces(level, fps)[0].xs == Gdps(s) && SliceTraces(level, fps)[0].ys == fitted
    ensures forall i, j :: 0 <= i < j < |s| ==> SliceTraces(level, fps)[0].xs[i] <= SliceTraces(level, fps)[0].xs[j]
  {
    assert Xs(fps) == Gdps(s);
    assert FittedYs(fps) == fitted;
  }

  predicate GdpAscending(fps: seq<FittedPoint>) {
    forall i, j :: 0 <= i < j < |fps| ==> fps[i].point.gdp <= fps[j].point.gdp
  }

  /** x[mask] keeps the order of x: a part of an ascending slice is ascending. */
  lemma {:induction false} SplitKeepsOrder(fps: seq<FittedPoint>, flagged: bool)
    requires GdpAscending(fps)
    ensures GdpAscending(Split(fps, flagged))
  {
    if fps != [] {
      AscendingTail(fps);
      SplitKeepsOrder(fps[1..], flagged);
      if fps[0].outlier == flagged {
        AscendingCons(fps, Split(fps[1..], flagged));
      }
    }
  }

  lemma AscendingTail(fps: seq<FittedPoint>)
    requires fps != [] && GdpAscending(fps)
    ensures GdpAscending(fps[1..])
  {
    var tail := fps[1..];
    forall i, j | 0 <= i < j < |tail| ensures tail[i].point.gdp <= tail[j].point.gdp {
      assert tail[i] == fps[i + 1] && tail[j] == fps[j + 1];
    }
  }

  /** The head of an ascending sequence may go in front of an ascending selection of its tail. */
  lemma AscendingCons(fps: seq<FittedPoint>, rest: seq<FittedPoint>)
    requires fps != [] && GdpAscending(fps) && GdpAscending(rest)
    requires forall f :: f in rest ==> f in fps[1..]
    ensures GdpAscending([fps[0]] + rest)
  {
    var part := [fps[0]] + rest;
    forall i, j | 0 <= i < j < |part| ensures part[i].point.gdp <= part[j].point.gdp {
      if i == 0 {
        assert part[j] == rest[j - 1] && rest[j - 1] in rest;
        var m :| 0 <= m < |fps[1..]| && fps[1..][m] == rest[j - 1];
        assert fps[m + 1] == part[j];
      } else {
        assert part[i] == rest[i - 1] && part[j] == rest[j - 1];
      }
    }
  }

  /** Rows of a slice sorted by GDP, annotated in place, are in ascending GDP order. */
  lemma AnnotatedAscending(s: seq<Point>, fps: seq<FittedPoint>)
    requires GdpSorted(s) && |fps| == |s| && forall k :: 0 <= k < |s| ==> fps[k].point == s[k]
    ensures GdpAscending(fps)
  {
    forall i, j | 0 <= i < j < |fps| ensures fps[i].point.gdp <= fps[j].point.gdp {
      assert fps[i].point == s[i] && fps[j].point == s[j];
    }
  }

  /** Every entry of a part is a row of the slice... */
  lemma SplitEntry(fps: seq<FittedPoint>, flagged: bool, k: int) returns (j: int)
    requires 0 <= k < |Split(fps, flagged)|
    ensures 0 <= j < |fps| && fps[j] == Split(fps, flagged)[k]
  {
    assert Split(fps, flagged)[k] in Split(fps, flagged);
    j :| 0 <= j < |fps| && fps[j] == Split(fps, flagged)[k];
  }

  /** ...and every row with the part's flag is an entry of it. */
  lemma SplitShows(fps: seq<FittedPoint>, flagged: bool, j: int) returns (k: int)
    requires 0 <= j < |fps| && fps[j].outlier == flagged
    ensures 0 <= k < |Split(fps, flagged)| && Split(fps, flagged)[k] == fps[j]
  {
    assert fps[j] in fps;
    k :| 0 <= k < |Split(fps, flagged)| && Split(fps, flagged)[k] == fps[j];
  }

  /** Entry k of a part shows row j of the slice, which has the part's flag. */
  lemma PartEntry(s: seq<Point>, fps: seq<FittedPoint>, flagged: bool, k: int) returns (j: int)
    requires |fps| == |s| && forall k :: 0 <= k < |s| ==> fps[k].point == s[k]
    requires 0 <= k < |Split(fps, flagged)|
    ensures var part := Split(fps, flagged);
      && 0 <= j < |s| && fps[j].outlier == flagged && part[k] == fps[j]
      && Xs(part)[k] == s[j].gdp && Ys(part)[k] == s[j].outcome && Names(part)[k] == s[j].countryName
  {
    j := SplitEntry(fps, flagged, k);
    assert Split(fps, flagged)[k] in Split(fps, flagged);
  }

  /** Row j of the slice, which has the part's flag, is shown by entry k of the part. */
  lemma PartCover(s: seq<Point>, fps: seq<FittedPoint>, flagged: bool, j: int) returns (k: int)
    requires |fps| == |s| && forall k :: 0 <= k < |s| ==> fps[k].point == s[k]
    requires 0 <= j < |s| && fps[j].outlier == flagged
    ensures var part := Split(fps, flagged);
      && 0 <= k < |part|
      && Xs(part)[k] == s[j].gdp && Ys(part)[k] == s[j].outcome && Names(part)[k] == s[j].countryName
  {
    k := SplitShows(fps, flagged, j);
  }

  /**
   * The marker traces of a slice sorted by GDP (plot.py:62-83): both are in
   * ascending GDP order, one text per marker and, for the outliers, one label
   * position per marker.
   */
  lemma MarkersAscend(s: seq<Point>, level: Level, fps: seq<FittedPoint>)
    requires GdpSorted(s) && |fps| == |s| && forall k :: 0 <= k < |s| ==> fps[k].point == s[k]
    ensures var tr := SliceTraces(level, fps)[1];
      && tr.Inliers? && |tr.ys| == |tr.xs| && |tr.text| == |tr.xs|
      && forall i, j :: 0 <= i < j < |tr.xs| ==> tr.xs[i] <= tr.xs[j]
    ensures var tr := SliceTraces(level, fps)[2];
      && tr.Outliers? && |tr.ys| == |tr.xs| && |tr.text| == |tr.xs| && |tr.positions| == |tr.xs|
      && forall i, j :: 0 <= i < j < |tr.xs| ==> tr.xs[i] <= tr.xs[j]
  {
    AnnotatedAscending(s, fps);
    SplitKeepsOrder(fps, false);
    SplitKeepsOrder(fps, true);
  }

  /**
   * Marker k of the non-outlier trace (flagged false) or of the outlier trace
   * (flagged true) shows the GDP, outcome and country name of a row of the
   * slice with that flag; an outlier's label sits on top exactly when its row
   * lies above the trend line (plot.py:62-83).
   */
  lemma MarkerShowsRow(s: seq<Point>, level: Level, fps: seq<FittedPoint>, flagged: bool, k: int) returns (j: int)
    requires |fps| == |s| && forall k :: 0 <= k < |s| ==> fps[k].point == s[k]
    requires 0 <= k < |SliceTraces(level, fps)[if flagged then 2 else 1].xs|
    ensures var tr := SliceTraces(level, fps)[if flagged then 2 else 1];
      && 0 <= j < |s| && fps[j].outlier == flagged
      && k < |tr.ys| && k < |tr.text|
      && tr.xs[k] == s[j].gdp && tr.ys[k] == s[j].outcome && tr.text[k] == s[j].countryName
    ensures var tr := SliceTraces(level, fps)[2];
      flagged ==> k < |tr.positions| && (tr.positions[k] == TopCenter <==> s[j].outcome > fps[j].fitted)
  {
    j := PartEntry(s, fps, flagged, k);
    var part := Split(fps, flagged);
    assert part[k] == fps[j];
  }

  /**
   * Every row of the slice is shown by a marker of the trace of its flag:
   * unflagged rows among the non-outliers, flagged ones among the outliers
   * (plot.py:62-80).
   */
  lemma RowShownByMarker(s: seq<Point>, level: Level, fps: seq<FittedPoint>, j: int) returns (k: int)
    requires |fps| == |s| && forall k :: 0 <= k < |s| ==> fps[k].point == s[k]
    requires 0 <= j < |s|
    ensures var tr := SliceTraces(level, fps)[if fps[j].outlier then 2 else 1];
      && 0 <= k < |tr.xs| && k < |tr.ys| && k < |tr.text|
      && tr.xs[k] == s[j].gdp && tr.ys[k] == s[j].outcome && tr.text[k] == s[j].countryName
  {
    k := PartCover(s, fps, fps[j].outlier, j);
  }

  /**
   * An outlier's deviation is never zero, so its row is green exactly when it
   * lies above the trend line (where its label sits on top) and red exactly
   * when it lies below.
   */
  lemma OutlierColour(s: seq<Point>, t: real, level: Level, k: int)
    requires |s| > 0 && 0 <= k < |s|
    requires FitSlice(s, t)[k].outlier
    ensures var f := FitSlice(s, t)[k];
      (Fill(RowOf(level, f)) == GREEN <==> f.point.outcome > f.fitted)
      && (Fill(RowOf(level, f)) == RED <==> f.point.outcome < f.fitted)
      && (PositionOf(f) == TopCenter <==> Fill(RowOf(level, f)) == GREEN)
  {
    var rs := Residuals(Gdps(s), Outcomes(s));
    FittedRow(s, t, k);
    ExceedsIsNonZero(rs[k], Variance(rs), t);
  }

  lemma {:induction false} LexLessIrreflexive(a: string)
    ensures !LexLess(a, a)
  {
    if a != [] {
      LexLessIrreflexive(a[1..]);
    }
  }

  /** Sorting by the label string is sorting by the level's place in LIC, LMC, UMC, HIC. */
  lemma LabelOrderIsRankOrder(a: Level, b: Level)
    ensures LexLess(a.Label(), b.Label()) <==> a.Rank() < b.Rank()
    ensures a.Label() == b.Label() <==> a == b
  {
    if a == b {
      LexLessIrreflexive(a.Label());
    } else {
      assert a.Label()[0] != b.Label()[0];
    }
  }

  // ---------------------------------------------------------------------------
  // One year's frame (build_graph_and_table, plot.py:23-122)
  // ---------------------------------------------------------------------------

  /** The traces one income level adds to a year's frame: none for an empty slice. */
  function LevelTraces(pts: seq<Point>, year: int, t: real, level: Level): seq<Trace> {
    var s := Slice(pts, year, level);
    if s == [] then [] else SliceTraces(level, FitSlice(s, t))
  }

  /** The table rows one income level adds: its flagged rows, in slice order. */
  function LevelOutliers(pts: seq<Point>, year: int, t: real, level: Level): seq<OutlierRow> {
    var s := Slice(pts, year, level);
    if s == [] then [] else RowsOf(level, Split(FitSlice(s, t), true))
  }

  /** The concatenation of piece(l) over the levels ls, in the order of ls. */
  function Gather<T>(ls: seq<Level>, piece: Level -> seq<T>): seq<T>
    decreases |ls|
  {
    if ls == [] then [] else Gather(ls[..|ls| - 1], piece) + piece(ls[|ls| - 1])
  }

  /** The levels of ls that pass keep, in the order of ls. */
  function Kept(ls: seq<Level>, keep: Level -> bool): (kept: seq<Level>)
    ensures |kept| <= |ls|
    decreases |ls|
  {
    if ls == [] then []
    else Kept(ls[..|ls| - 1], keep) + (if keep(ls[|ls| - 1]) then [ls[|ls| - 1]] else [])
  }

  /** The traces of the levels ls, visited in order. */
  function TracesFor(pts: seq<Point>, year: int, t: real, ls: seq<Level>): seq<Trace> {
    Gather(ls, l => LevelTraces(pts, year, t, l))
  }

  /** The concatenated flagged rows of the levels ls, before sorting. */
  function OutliersFor(pts: seq<Point>, year: int, t: real, ls: seq<Level>): seq<OutlierRow> {
    Gather(ls, l => LevelOutliers(pts, year, t, l))
  }

  /** The levels among ls whose slice of the year has rows, in the order of ls. */
  function NonEmptyLevels(pts: seq<Point>, year: int, ls: seq<Level>): seq<Level> {
    Kept(ls, l => Slice(pts, year, l) != [])
  }

  /** The data of a year's frame: the scatter traces followed by the table (plot.py:195). */
  function FrameData(pts: seq<Point>, year: int, t: real): seq<Trace> {
    TracesFor(pts, year, t, Levels) + [TableTrace(SortRows(OutliersFor(pts, year, t, Levels)))]
  }

  /** A year's traces, the table and the sorted outlier rows it shows. */
  datatype Panel = Panel(graphs: seq<Trace>, table: Trace, outliers: seq<OutlierRow>)

  /**
   * outlier_countries['income_level'] on a frame that never received a slice
   * (plot.py:96): the frame made at plot.py:25 has no such column, because
   * dataset.columns + ['fitted_y'] appends 'fitted_y' to every column name
   * instead of adding one more column.
   */
  datatype PlotError = KeyError

  /**
   * The loop of build_graph_and_table (plot.py:27-94): for each level in the
   * order LIC, LMC, UMC, HIC, skip an empty slice, otherwise fit it, append
   * its three traces and its flagged rows.
   */
  method CollectLevels(pts: seq<Point>, year: int, t: real) returns (graphs: seq<Trace>, outliers: seq<OutlierRow>)
    ensures graphs == TracesFor(pts, year, t, Levels)
    ensures outliers == OutliersFor(pts, year, t, Levels)
  {
    graphs, outliers := [], [];
    for i := 0 to |Levels|
      invariant graphs == TracesFor(pts, year, t, Levels[..i])
      invariant outliers == OutliersFor(pts, year, t, Levels[..i])
    {
      var level := Levels[i];
      LevelStep(pts, year, t, i);
      var s := Slice(pts, year, level);
      if s == [] {
        continue;
      }
      var fps := FitSlice(s, t);
      graphs := graphs + SliceTraces(level, fps);
      outliers := outliers + RowsOf(level, Split(fps, true));
    }
    assert Levels[..|Levels|] == Levels;
  }

  /** One more level visited adds that level's traces and rows at the end. */
  lemma LevelStep(pts: seq<Point>, year: int, t: real, i: int)
    requires 0 <= i < |Levels|
    ensures TracesFor(pts, year, t, Levels[..i + 1])
      == TracesFor(pts, year, t, Levels[..i]) + LevelTraces(pts, year, t, Levels[i])
    ensures OutliersFor(pts, year, t, Levels[..i + 1])
      == OutliersFor(pts, year, t, Levels[..i]) + LevelOutliers(pts, year, t, Levels[i])
  {
    GatherStep(Levels, l => LevelTraces(pts, year, t, l), i);
    GatherStep(Levels, l => LevelOutliers(pts, year, t, l), i);
  }

  /**
   * Builds the traces and the outlier table of one year; fails as the source
   * does (KeyError at plot.py:96) when no level has a row in that year.
   */
  method BuildGraphAndTable(pts: seq<Point>, year: int, t: real) returns (r: Result<Panel, PlotError>)
    ensures r.Success? <==> NonEmptyLevels(pts, year, Levels) != []
    ensures r.Success? ==> r.value.graphs == TracesFor(pts, year, t, Levels)
    ensures r.Success? ==> r.value.outliers == SortRows(OutliersFor(pts, year, t, Levels))
    ensures r.Success? ==> r.value.table == TableTrace(r.value.outliers)
    ensures r.Success? ==> r.value.graphs + [r.value.table] == FrameData(pts, year, t)
  {
    var graphs, outliers := CollectLevels(pts, year, t);
    TraceCount(pts, year, t);
    if |graphs| == 0 {
      // no slice was concatenated, so the 'income_level' column is missing
      return Failure(KeyError);
    }
    outliers := SortRows(outliers);
    var table := TableTrace(outliers);
    return Success(Panel(graphs, table, outliers));
  }

  // ---------------------------------------------------------------------------
  // Properties of Gather and Kept, for any pieces of width three
  // ---------------------------------------------------------------------------

  lemma GatherStep<T>(ls: seq<Level>, piece: Level -> seq<T>, i: int)
    requires 0 <= i < |ls|
    ensures Gather(ls[..i + 1], piece) == Gather(ls[..i], piece) + piece(ls[i])
  {
    assert ls[..i + 1][..i] == ls[..i];
  }

  lemma {:induction false} GatherCount<T>(ls: seq<Level>, piece: Level -> seq<T>, keep: Level -> bool)
    requires forall l :: |piece(l)| == (if keep(l) then 3 else 0)
    ensures |Gather(ls, piece)| == 3 * |Kept(ls, keep)|
    decreases |ls|
  {
    if ls != [] {
      GatherCount(ls[..|ls| - 1], piece, keep);
    }
  }

  lemma {:induction false} GatherLayout<T>(ls: seq<Level>, piece: Level -> seq<T>, keep: Level -> bool, j: int)
    requires forall l :: |piece(l)| == (if keep(l) then 3 else 0)
    requires 0 <= j < |Kept(ls, keep)|
    ensures 3 * j + 3 <= |Gather(ls, piece)|
    ensures Gather(ls, piece)[3 * j .. 3 * j + 3] == piece(Kept(ls, keep)[j])
    decreases |ls|
  {
    var init, last := ls[..|ls| - 1], ls[|ls| - 1];
    var a, b := Gather(init, piece), piece(last);
    GatherCount(init, piece, keep);
    if j < |Kept(init, keep)| {
      GatherLayout(init, piece, keep, j);
      assert (a + b)[3 * j .. 3 * j + 3] == a[3 * j .. 3 * j + 3];
    } else {
      assert Kept(ls, keep)[j] == last;
      assert (a + b)[|a| .. |a| + 3] == b;
    }
  }

  lemma {:induction false} KeptMembers(ls: seq<Level>, keep: Level -> bool)
    ensures forall l :: l in Kept(ls, keep) <==> l in ls && keep(l)
    decreases |ls|
  {
    if ls != [] {
      var init, last := ls[..|ls| - 1], ls[|ls| - 1];
      KeptMembers(init, keep);
      assert ls == init + [last];
    }
  }

  /** The levels of ls appear in strictly increasing rank, hence each at most once. */
  predicate RankOrdered(ls: seq<Level>) {
    forall i, j :: 0 <= i < j < |ls| ==> ls[i].Rank() < ls[j].Rank()
  }

  lemma {:induction false} KeptInOrder(ls: seq<Level>, keep: Level -> bool)
    requires RankOrdered(ls)
    ensures RankOrdered(Kept(ls, keep))
    decreases |ls|
  {
    if ls != [] {
      var init, last := ls[..|ls| - 1], ls[|ls| - 1];
      assert RankOrdered(init) by {
        forall i, j | 0 <= i < j < |init| ensures init[i].Rank() < init[j].Rank() {
          assert init[i] == ls[i] && init[j] == ls[j];
        }
      }
      KeptInOrder(init, keep);
      KeptMembers(init, keep);
      var k0 := Kept(init, keep);
      forall i | 0 <= i < |k0| ensures k0[i].Rank() < last.Rank() {
        assert k0[i] in init;
        var m :| 0 <= m < |init| && init[m] == k0[i];
        assert ls[m] == init[m];
      }
      if keep(last) {
        var kept := Kept(ls, keep);
        assert kept == k0 + [last];
        forall i, j | 0 <= i < j < |kept| ensures kept[i].Rank() < kept[j].Rank() {
          if j < |k0| {
            assert kept[i] == k0[i] && kept[j] == k0[j];
          } else {
            assert kept[i] == k0[i] && kept[j] == last;
          }
        }
      } else {
        assert Kept(ls, keep) == k0;
      }
    } else {
      assert Kept(ls, keep) == [];
    }
  }

  // ---------------------------------------------------------------------------
  // Properties of a frame
  // ---------------------------------------------------------------------------

  /** A level adds its three traces when its slice has rows, and nothing otherwise. */
  lemma LevelTracesWidth(pts: seq<Point>, year: int, t: real)
    ensures forall l :: |LevelTraces(pts, year, t, l)| == (if Slice(pts, year, l) != [] then 3 else 0)
  {
  }

  /** Three traces per non-empty level and none per empty one (plot.py:30-31, 58, 74, 91). */
  lemma TraceCount(pts: seq<Point>, year: int, t: real)
    ensures |TracesFor(pts, year, t, Levels)| == 3 * |NonEmptyLevels(pts, year, Levels)|
  {
    LevelTracesWidth(pts, year, t);
    GatherCount(Levels, l => LevelTraces(pts, year, t, l), l => Slice(pts, year, l) != []);
  }

  /**
   * The traces come in consecutive triples, one per non-empty level in
   * visiting order: trend line, non-outlier markers, outlier markers.
   */
  lemma TraceLayout(pts: seq<Point>, year: int, t: real, j: int)
    requires 0 <= j < |NonEmptyLevels(pts, year, Levels)|
    ensures 3 * j + 3 <= |TracesFor(pts, year, t, Levels)|
    ensures TracesFor(pts, year, t, Levels)[3 * j .. 3 * j + 3]
      == LevelTraces(pts, year, t, NonEmptyLevels(pts, year, Levels)[j])
  {
    LevelTracesWidth(pts, year, t);
    GatherLayout(Levels, l => LevelTraces(pts, year, t, l), l => Slice(pts, year, l) != [], j);
  }

  /** Every income level is in Levels, at the position of its rank, and the ranks increase. */
  lemma LevelsEnumerated()
    ensures forall l: Level :: l in Levels && Levels[l.Rank()] == l
    ensures RankOrdered(Levels)
  {
    assert Levels[0].Rank() == 0 && Levels[1].Rank() == 1 && Levels[2].Rank() == 2 && Levels[3].Rank() == 3;
    forall l: Level ensures l in Levels && Levels[l.Rank()] == l {
      assert Levels[l.Rank()] == l;
    }
  }

  /** The non-empty levels keep the order LIC, LMC, UMC, HIC, each appearing once. */
  lemma LevelsInOrder(pts: seq<Point>, year: int)
    ensures RankOrdered(NonEmptyLevels(pts, year, Levels))
    ensures forall l :: l in NonEmptyLevels(pts, year, Levels) <==> Slice(pts, year, l) != []
  {
    var keep := l => Slice(pts, year, l) != [];
    LevelsEnumerated();
    KeptInOrder(Levels, keep);
    KeptMembers(Levels, keep);
  }

  /** When a frame has any scatter trace, its last one is an outlier scatter (the comment at plot.py:116). */
  lemma LastTraceIsOutlierScatter(pts: seq<Point>, year: int, t: real)
    requires NonEmptyLevels(pts, year, Levels) != []
    ensures |TracesFor(pts, year, t, Levels)| >= 3
    ensures TracesFor(pts, year, t, Levels)[|TracesFor(pts, year, t, Levels)| - 1].Outliers?
  {
    var ne := NonEmptyLevels(pts, year, Levels);
    var traces := TracesFor(pts, year, t, Levels);
    var j := |ne| - 1;
    TraceCount(pts, year, t);
    TraceLayout(pts, year, t, j);
    assert |traces| == 3 * j + 3;
    assert traces[3 * j .. 3 * j + 3] == LevelTraces(pts, year, t, ne[j]);
    LastOfLastBlock(traces, j, LevelTraces(pts, year, t, ne[j]));
  }

  /** The last trace of 3j + 3 traces is the last of the block 3j .. 3j + 3. */
  lemma LastOfLastBlock(traces: seq<Trace>, j: nat, block: seq<Trace>)
    requires |traces| == 3 * j + 3 && traces[3 * j .. 3 * j + 3] == block
    ensures traces[|traces| - 1] == block[2]
  {
    assert traces[|traces| - 1] == traces[3 * j .. 3 * j + 3][2];
  }

  /** Row f of level's slice of the year is fitted and flagged. */
  predicate Flagged(pts: seq<Point>, year: int, t: real, level: Level, f: FittedPoint) {
    var s := Slice(pts, year, level);
    s != [] && f in FitSlice(s, t) && f.outlier
  }

  lemma RowsOfMembers(level: Level, fps: seq<FittedPoint>, r: OutlierRow)
    ensures r in RowsOf(level, fps) <==> exists f :: f in fps && r == RowOf(level, f)
  {
    var rows := RowsOf(level, fps);
    if r in rows {
      var k :| 0 <= k < |rows| && rows[k] == r;
      assert fps[k] in fps;
    }
    if exists f :: f in fps && r == RowOf(level, f) {
      var f :| f in fps && r == RowOf(level, f);
      var k :| 0 <= k < |fps| && fps[k] == f;
      assert rows[k] == r;
    }
  }

  /** The rows one level adds are its flagged rows. */
  lemma LevelOutliersMembers(pts: seq<Point>, year: int, t: real, level: Level, r: OutlierRow)
    ensures r in LevelOutliers(pts, year, t, level)
      <==> exists f :: Flagged(pts, year, t, level, f) && r == RowOf(level, f)
  {
    var s := Slice(pts, year, level);
    if s != [] {
      RowsOfMembers(level, Split(FitSlice(s, t), true), r);
    }
  }

  /** Every row a level adds to the table carries that level. */
  lemma LevelOutliersLevel(pts: seq<Point>, year: int, t: real, level: Level, r: OutlierRow)
    requires r in LevelOutliers(pts, year, t, level)
    ensures r.level == level
  {
    var rows := LevelOutliers(pts, year, t, level);
    var k :| 0 <= k < |rows| && rows[k] == r;
  }

  /**
   * Gathered over distinct levels, a row occurs as often as in the piece of its
   * own level, when every piece holds only rows of its level.
   */
  lemma {:induction false} GatherCopies(ls: seq<Level>, piece: Level -> seq<OutlierRow>, r: OutlierRow)
    requires forall i, j :: 0 <= i < j < |ls| ==> ls[i] != ls[j]
    requires forall l, q :: q in piece(l) ==> q.level == l
    ensures multiset(Gather(ls, piece))[r] == if r.level in ls then multiset(piece(r.level))[r] else 0
    decreases |ls|
  {
    if ls != [] {
      var init, last := ls[..|ls| - 1], ls[|ls| - 1];
      GatherCopies(init, piece, r);
      assert ls == init + [last];
      if r.level == last {
        assert r.level !in init;
      } else {
        assert r !in piece(last);
      }
    }
  }

  /** Over distinct levels, a row is in the gathered table rows as often as its level adds it. */
  lemma OutliersForCopies(pts: seq<Point>, year: int, t: real, ls: seq<Level>, r: OutlierRow)
    requires forall i, j :: 0 <= i < j < |ls| ==> ls[i] != ls[j]
    ensures multiset(OutliersFor(pts, year, t, ls))[r]
      == if r.level in ls then multiset(LevelOutliers(pts, year, t, r.level))[r] else 0
  {
    var piece := l => LevelOutliers(pts, year, t, l);
    forall l, q | q in piece(l) ensures q.level == l {
      LevelOutliersLevel(pts, year, t, l, q);
    }
    GatherCopies(ls, piece, r);
  }

  /**
   * The table holds exactly the flagged rows of the year's non-empty slices
   * (plot.py:80-99), each as often as its level's slice flags it.
   */
  lemma TableRows(pts: seq<Point>, year: int, t: real, r: OutlierRow)
    ensures r in SortRows(OutliersFor(pts, year, t, Levels))
      <==> exists l, f :: Flagged(pts, year, t, l, f) && r == RowOf(l, f)
    ensures multiset(SortRows(OutliersFor(pts, year, t, Levels)))[r]
      == multiset(LevelOutliers(pts, year, t, r.level))[r]
  {
    LevelsEnumerated();
    OutliersForCopies(pts, year, t, Levels, r);
    var rows := SortRows(OutliersFor(pts, year, t, Levels));
    assert r in rows <==> r in LevelOutliers(pts, year, t, r.level) by {
      assert r in rows <==> r in multiset(rows);
      assert r in LevelOutliers(pts, year, t, r.level) <==> r in multiset(LevelOutliers(pts, year, t, r.level));
    }
    LevelOutliersMembers(pts, year, t, r.level, r);
  }

  /**
   * A flagged row comes from the dataset, belongs to its year and level, and
   * is off the trend line, so its table colour tells above from below.
   */
  lemma FlaggedRowFacts(pts: seq<Point>, year: int, t: real, level: Level, f: FittedPoint)
    requires Flagged(pts, year, t, level, f)
    ensures f.point in pts && InSlice(f.point, year, level)
    ensures RowOf(level, f).year == year && RowOf(level, f).level == level
    ensures RowOf(level, f).deviation != 0.0
    ensures Fill(RowOf(level, f)) == GREEN <==> f.point.outcome > f.fitted
  {
    var s := Slice(pts, year, level);
    var fps := FitSlice(s, t);
    var k :| 0 <= k < |fps| && fps[k] == f;
    SliceContents(pts, year, level);
    assert f.point == s[k] && s[k] in s;
    OutlierColour(s, t, level, k);
  }

  /**
   * The last trace of a frame is the outlier table: rows in (year, label,
   * deviation) order, all of that year, none on its trend line, each green
   * when its deviation is positive and red otherwise (plot.py:93-101, 195).
   */
  lemma FrameTable(pts: seq<Point>, year: int, t: real)
    ensures |FrameData(pts, year, t)| == 3 * |NonEmptyLevels(pts, year, Levels)| + 1
    ensures var table := FrameData(pts, year, t)[|FrameData(pts, year, t)| - 1];
      && table.Table?
      && RowsSorted(table.rows)
      && |table.fills| == |table.rows|
      && (forall k :: 0 <= k < |table.rows| ==>
            table.rows[k].year == year && table.rows[k].deviation != 0.0)
      && (forall k :: 0 <= k < |table.rows| ==>
            table.fills[k] == (if table.rows[k].deviation > 0.0 then GREEN else RED))
  {
    TraceCount(pts, year, t);
    var rows := SortRows(OutliersFor(pts, year, t, Levels));
    var data := FrameData(pts, year, t);
    assert data[|data| - 1] == TableTrace(rows);
    forall k | 0 <= k < |rows| ensures rows[k].year == year && rows[k].deviation != 0.0 {
      TableRows(pts, year, t, rows[k]);
      var l, f :| Flagged(pts, year, t, l, f) && rows[k] == RowOf(l, f);
      FlaggedRowFacts(pts, year, t, l, f);
    }
  }

  // ---------------------------------------------------------------------------
  // The figure (make_plot, plot.py:13-214)
  // ---------------------------------------------------------------------------

  predicate Increasing(ys: seq<int>) {
    forall i, j :: 0 <= i < j < |ys| ==> ys[i] < ys[j]
  }

  lemma IncreasingCons(y: int, ys: seq<int>)
    requires Increasing(ys)
    requires forall z :: z in ys ==> y < z
    ensures Increasing([y] + ys)
  {
    var r := [y] + ys;
    forall i, j | 0 <= i < j < |r| ensures r[i] < r[j] {
      if i == 0 { assert r[j] == ys[j - 1]; assert r[j] in ys; }
      else { assert r[i] == ys[i - 1] && r[j] == ys[j - 1]; }
    }
  }

  function InsertYear(y: int, ys: seq<int>): (r: seq<int>)
    requires Increasing(ys)
    ensures Increasing(r)
    ensures forall z :: z in r <==> z in ys || z == y
  {
    if ys == [] then [y]
    else if y < ys[0] then
      forall z | z in ys ensures y < z {
        var k :| 0 <= k < |ys| && ys[k] == z;
        assert k == 0 || ys[0] < ys[k];
      }
      IncreasingCons(y, ys);
      [y] + ys
    else if y == ys[0] then ys
    else
      assert ys == [ys[0]] + ys[1..];
      assert Increasing(ys[1..]) by {
        forall i, j | 0 <= i < j < |ys[1..]| ensures ys[1..][i] < ys[1..][j] {
          assert ys[1..][i] == ys[i + 1] && ys[1..][j] == ys[j + 1];
        }
      }
      var rest := InsertYear(y, ys[1..]);
      forall z | z in rest ensures ys[0] < z {
        if z != y {
          var k :| 0 <= k < |ys[1..]| && ys[1..][k] == z;
          assert ys[k + 1] == z;
        }
      }
      IncreasingCons(ys[0], rest);
      [ys[0]] + rest
  }

  /** sorted(dataset.year.unique()): each year of the dataset once, ascending (plot.py:16). */
  function DistinctYears(pts: seq<Point>): (years: seq<int>)
    ensures Increasing(years)
    ensures forall y :: y in years <==> exists p :: p in pts && p.year == y
  {
    if pts == [] then []
    else
      assert pts == [pts[0]] + pts[1..];
      InsertYear(pts[0].year, DistinctYears(pts[1..]))
  }

  /** dataset.year.max() (plot.py:15). */
  function MaxYear(pts: seq<Point>): (m: int)
    requires pts != []
    ensures forall p :: p in pts ==> p.year <= m
    ensures exists p :: p in pts && p.year == m
  {
    if |pts| == 1 then pts[0].year
    else
      var rest := MaxYear(pts[1..]);
      assert pts == [pts[0]] + pts[1..];
      if pts[0].year >= rest then pts[0].year else rest
  }

  /** dataset.gdp_per_capita_2017_ppp.max() (plot.py:17). */
  function MaxGdp(pts: seq<Point>): (m: real)
    requires pts != []
    ensures forall p :: p in pts ==> p.gdp <= m
    ensures exists p :: p in pts && p.gdp == m
  {
    if |pts| == 1 then pts[0].gdp
    else
      var rest := MaxGdp(pts[1..]);
      assert pts == [pts[0]] + pts[1..];
      if pts[0].gdp >= rest then pts[0].gdp else rest
  }

  lemma IncreasingToLast(ys: seq<int>, k: int)
    requires Increasing(ys)
    requires 0 <= k < |ys|
    ensures ys[k] <= ys[|ys| - 1]
  {
    if k < |ys| - 1 {
      assert ys[k] < ys[|ys| - 1];
    }
  }

  /** The latest year (plot.py:15) is the last entry of years (plot.py:16). */
  lemma LatestIsLastYear(pts: seq<Point>)
    requires pts != []
    ensures DistinctYears(pts) != []
    ensures DistinctYears(pts)[|DistinctYears(pts)| - 1] == MaxYear(pts)
  {
    var years := DistinctYears(pts);
    var m := MaxYear(pts);
    assert m in years;
    var k :| 0 <= k < |years| && years[k] == m;
    var last := years[|years| - 1];
    assert last in years;
    IncreasingToLast(years, k);
    var p :| p in pts && p.year == last;
  }

  /** An axis range [lo, hi]. */
  datatype Range = Range(lo: real, hi: real)

  /** An animation frame: its name and its traces (plot.py:194-197). */
  datatype Frame = Frame(name: int, data: seq<Trace>)

  /** A slider step: its label (caption) and the name of the frame it animates to (plot.py:200-208). */
  datatype SliderStep = SliderStep(caption: int, target: int)

  /** What make_plot puts in the figure, leaving out the styling. */
  datatype Figure = Figure(
    traces: seq<Trace>,
    xRange: Range,
    yRange: Range,
    frames: seq<Frame>,
    active: int,
    steps: seq<SliderStep>)

  /** A year's frame data, as a function of the year. */
  function FrameDataOf(pts: seq<Point>, t: real): int -> seq<Trace> {
    year => FrameData(pts, year, t)
  }

  /** One frame per year, in the order of years, named by its year. */
  function FramesOf(years: seq<int>, data: int -> seq<Trace>): (frames: seq<Frame>)
    decreases |years|
  {
    if years == [] then []
    else FramesOf(years[..|years| - 1], data) + [Frame(years[|years| - 1], data(years[|years| - 1]))]
  }

  /** One slider step per year, labelled by its year and animating to the frame of that name. */
  function StepsOf(years: seq<int>): (steps: seq<SliderStep>)
    decreases |years|
  {
    if years == [] then []
    else StepsOf(years[..|years| - 1]) + [SliderStep(years[|years| - 1], years[|years| - 1])]
  }

  lemma {:induction false} FramesOfAt(years: seq<int>, data: int -> seq<Trace>)
    ensures |FramesOf(years, data)| == |years|
    ensures forall k :: 0 <= k < |years| ==> FramesOf(years, data)[k] == Frame(years[k], data(years[k]))
    decreases |years|
  {
    if years != [] {
      var init := years[..|years| - 1];
      FramesOfAt(init, data);
      forall k | 0 <= k < |init| ensures init[k] == years[k] { }
    }
  }

  lemma {:induction false} StepsOfAt(years: seq<int>)
    ensures |StepsOf(years)| == |years|
    ensures forall k :: 0 <= k < |years| ==> StepsOf(years)[k] == SliderStep(years[k], years[k])
    decreases |years|
  {
    if years != [] {
      var init := years[..|years| - 1];
      StepsOfAt(init);
      forall k | 0 <= k < |init| ensures init[k] == years[k] { }
    }
  }

  /** p is a row of the year with one of the four income levels. */
  predicate InSomeLevel(p: Point, year: int) {
    InSlice(p, year, LIC) || InSlice(p, year, LMC) || InSlice(p, year, UMC) || InSlice(p, year, HIC)
  }

  /** Some row of the year carries one of the four income levels. */
  predicate YearHasLevel(pts: seq<Point>, year: int)
    decreases |pts|
  {
    pts != [] && (InSomeLevel(pts[0], year) || YearHasLevel(pts[1..], year))
  }

  lemma {:induction false} YearHasLevelMeans(pts: seq<Point>, year: int)
    ensures YearHasLevel(pts, year) <==> exists p, l :: p in pts && InSlice(p, year, l)
    decreases |pts|
  {
    if pts != [] {
      YearHasLevelMeans(pts[1..], year);
      assert pts == [pts[0]] + pts[1..];
      if InSomeLevel(pts[0], year) {
        assert exists l :: InSlice(pts[0], year, l);
      }
      if exists p, l :: p in pts && InSlice(p, year, l) {
        var p, l :| p in pts && InSlice(p, year, l);
        if p != pts[0] {
          assert p in pts[1..];
        } else {
          assert InSomeLevel(pts[0], year) by { assert l == LIC || l == LMC || l == UMC || l == HIC; }
        }
      }
    }
  }

  /** A year's traces can be built exactly when one of its rows has one of the four income levels. */
  lemma NonEmptyIffLevelRow(pts: seq<Point>, year: int)
    ensures NonEmptyLevels(pts, year, Levels) != [] <==> YearHasLevel(pts, year)
  {
    LevelsInOrder(pts, year);
    YearHasLevelMeans(pts, year);
    var ne := NonEmptyLevels(pts, year, Levels);
    if ne != [] {
      assert ne[0] in ne;
      SliceContents(pts, year, ne[0]);
      var s := Slice(pts, year, ne[0]);
      assert s[0] in s;
    }
    if YearHasLevel(pts, year) {
      var p, l :| p in pts && InSlice(p, year, l);
      SliceContents(pts, year, l);
      assert l in ne;
    }
  }

  /** Whether the year's frame can be built, as a function of the year. */
  function BuildsOf(pts: seq<Point>): int -> bool {
    year => YearHasLevel(pts, year)
  }

  /** ok holds of every year of years. */
  predicate AllOf(years: seq<int>, ok: int -> bool)
    decreases |years|
  {
    years == [] || (AllOf(years[..|years| - 1], ok) && ok(years[|years| - 1]))
  }

  lemma {:induction false} AllOfPrefix(years: seq<int>, ok: int -> bool, n: int)
    requires 0 <= n <= |years|
    requires AllOf(years, ok)
    ensures AllOf(years[..n], ok)
    decreases |years|
  {
    if n < |years| {
      var init := years[..|years| - 1];
      AllOfPrefix(init, ok, n);
      assert init[..n] == years[..n];
    } else {
      assert years[..n] == years;
    }
  }

  lemma {:induction false} AllOfAt(years: seq<int>, ok: int -> bool)
    ensures AllOf(years, ok) <==> forall k :: 0 <= k < |years| ==> ok(years[k])
    decreases |years|
  {
    if years != [] {
      var init := years[..|years| - 1];
      AllOfAt(init, ok);
      forall k | 0 <= k < |init| ensures init[k] == years[k] { }
    }
  }

  /** The frame of one year: build_graph_and_table(year), then graphs + [t] (plot.py:190-197). */
  method BuildFrame(pts: seq<Point>, year: int, t: real) returns (r: Result<Frame, PlotError>)
    ensures r.Success? <==> BuildsOf(pts)(year)
    ensures r.Success? ==> r.value == Frame(year, FrameDataOf(pts, t)(year))
  {
    var built := BuildGraphAndTable(pts, year, t);
    NonEmptyIffLevelRow(pts, year);
    if built.Failure? {
      return Failure(KeyError);
    }
    return Success(Frame(year, built.value.graphs + [built.value.table]));
  }

  /** One more year visited adds its frame and its step at the end. */
  lemma YearStep(years: seq<int>, data: int -> seq<Trace>, ok: int -> bool, i: int)
    requires 0 <= i < |years|
    ensures FramesOf(years[..i + 1], data) == FramesOf(years[..i], data) + [Frame(years[i], data(years[i]))]
    ensures StepsOf(years[..i + 1]) == StepsOf(years[..i]) + [SliderStep(years[i], years[i])]
    ensures AllOf(years[..i + 1], ok) <==> AllOf(years[..i], ok) && ok(years[i])
  {
    assert years[..i + 1][..i] == years[..i];
  }

  lemma {:induction false} FramesOfLength(years: seq<int>, data: int -> seq<Trace>)
    ensures |FramesOf(years, data)| == |years|
    decreases |years|
  {
    if years != [] {
      FramesOfLength(years[..|years| - 1], data);
    }
  }

  /** The last frame is the frame of the last year. */
  lemma FramesOfLast(years: seq<int>, data: int -> seq<Trace>)
    requires years != []
    ensures |FramesOf(years, data)| == |years|
    ensures FramesOf(years, data)[|years| - 1] == Frame(years[|years| - 1], data(years[|years| - 1]))
  {
    FramesOfLength(years[..|years| - 1], data);
    FramesOfLength(years, data);
  }

  /** The last frame of the figure is the latest year's. */
  lemma LastFrameIsLatest(pts: seq<Point>, t: real, frames: seq<Frame>)
    requires pts != []
    requires frames == FramesOf(DistinctYears(pts), FrameDataOf(pts, t))
    ensures |frames| == |DistinctYears(pts)| > 0
    ensures frames[|frames| - 1] == Frame(MaxYear(pts), FrameDataOf(pts, t)(MaxYear(pts)))
  {
    LatestIsLastYear(pts);
    FramesOfLast(DistinctYears(pts), FrameDataOf(pts, t));
  }

  /** Every year builds, in the loop's terms and in the dataset's. */
  lemma AllYearsBuild(pts: seq<Point>, years: seq<int>)
    ensures AllOf(years, BuildsOf(pts)) <==> forall y :: y in years ==> YearHasLevel(pts, y)
  {
    AllOfAt(years, BuildsOf(pts));
    if AllOf(years, BuildsOf(pts)) {
      forall y | y in years ensures YearHasLevel(pts, y) {
        var k :| 0 <= k < |years| && years[k] == y;
        assert BuildsOf(pts)(years[k]);
      }
    } else {
      var k :| 0 <= k < |years| && !BuildsOf(pts)(years[k]);
      assert years[k] in years;
    }
  }

  /**
   * The loop over years (plot.py:189-209): one frame named by its year and
   * one slider step labelled by it, in the order of years; the first year
   * without a row in the four income levels raises KeyError.
   */
  method CollectFrames(pts: seq<Point>, years: seq<int>, t: real)
      returns (r: Result<(seq<Frame>, seq<SliderStep>), PlotError>)
    ensures r.Success? <==> AllOf(years, BuildsOf(pts))
    ensures r.Success? ==> r.value.0 == FramesOf(years, FrameDataOf(pts, t))
    ensures r.Success? ==> r.value.1 == StepsOf(years)
  {
    var frames: seq<Frame> := [];
    var steps: seq<SliderStep> := [];
    for i := 0 to |years|
      invariant frames == FramesOf(years[..i], FrameDataOf(pts, t))
      invariant steps == StepsOf(years[..i])
      invariant AllOf(years[..i], BuildsOf(pts))
    {
      var built := BuildFrame(pts, years[i], t);
      YearStep(years, FrameDataOf(pts, t), BuildsOf(pts), i);
      if built.Failure? {
        assert !BuildsOf(pts)(years[i]);
        if AllOf(years, BuildsOf(pts)) {
          AllOfPrefix(years, BuildsOf(pts), i + 1);
        }
        return Failure(KeyError);
      }
      frames := frames + [built.value];
      steps := steps + [SliderStep(years[i], years[i])];
    }
    assert years[..|years|] == years;
    return Success((frames, steps));
  }

  /**
   * Builds the figure: the latest year's traces first, then one frame and
   * one slider step per year in ascending order. Fails with KeyError when
   * some year has no row in the four income levels, which includes the empty
   * dataset (plot.py:13-17, 136-142, 171-172, 189-214).
   */
  method MakePlot(pts: seq<Point>, t: real) returns (r: Result<Figure, PlotError>)
    ensures r.Success? <==>
      pts != [] && forall y :: y in DistinctYears(pts) ==> YearHasLevel(pts, y)
    ensures r.Success? ==> r.value.frames == FramesOf(DistinctYears(pts), FrameDataOf(pts, t))
    ensures r.Success? ==> r.value.steps == StepsOf(DistinctYears(pts))
    ensures r.Success? ==> r.value.traces == FrameDataOf(pts, t)(MaxYear(pts))
    ensures r.Success? ==> r.value.active == |DistinctYears(pts)| - 1
    ensures r.Success? ==> 0 <= r.value.active < |r.value.frames|
    ensures r.Success? ==> r.value.frames[r.value.active] == Frame(MaxYear(pts), r.value.traces)
    ensures r.Success? ==> r.value.xRange == Range(-50.0, MaxGdp(pts) + 100.0)
    ensures r.Success? ==> r.value.yRange == Range(0.0, 1.0)
  {
    if pts == [] {
      // year.max() of an empty frame is NaN, no slice has a row and plot.py:96 fails
      return Failure(KeyError);
    }
    var years := DistinctYears(pts);
    AllYearsBuild(pts, years);
    var latest := MaxYear(pts);
    var first := BuildFrame(pts, latest, t);
    if first.Failure? {
      assert latest in years && !YearHasLevel(pts, latest);
      return Failure(KeyError);
    }
    var traces := first.value.data;
    var collected := CollectFrames(pts, years, t);
    if collected.Failure? {
      return Failure(KeyError);
    }
    var (frames, steps) := collected.value;
    LastFrameIsLatest(pts, t, frames);
    return Success(Figure(traces, Range(-50.0, MaxGdp(pts) + 100.0), Range(0.0, 1.0), frames, |years| - 1, steps));
  }

  /**
   * The frames and slider steps of a figure built over ascending years: one
   * of each per year, in that order, the frame named by its year and holding
   * data(year), the step labelled by the year and animating to its frame.
   * MakePlot's figure has years = DistinctYears(pts) and data = FrameDataOf(pts, t).
   */
  lemma FigureLayout(years: seq<int>, data: int -> seq<Trace>, fig: Figure)
    requires Increasing(years)
    requires fig.frames == FramesOf(years, data)
    requires fig.steps == StepsOf(years)
    ensures |fig.frames| == |fig.steps| == |years|
    ensures forall i :: 0 <= i < |fig.frames| ==>
      fig.frames[i].name == years[i] && fig.frames[i].data == data(years[i])
    ensures forall i :: 0 <= i < |fig.steps| ==>
      fig.steps[i].caption == fig.frames[i].name && fig.steps[i].target == fig.frames[i].name
    ensures forall i, j :: 0 <= i < j < |fig.frames| ==> fig.frames[i].name < fig.frames[j].name
  {
    FramesOfAt(years, data);
    StepsOfAt(years);
  }

  /** The i-th frame holds the traces and the table of the i-th year. */
  lemma FrameOfYear(pts: seq<Point>, t: real, fig: Figure, i: int)
    requires fig.frames == FramesOf(DistinctYears(pts), FrameDataOf(pts, t))
    requires 0 <= i < |DistinctYears(pts)|
    ensures i < |fig.frames|
    ensures fig.frames[i].data == FrameData(pts, DistinctYears(pts)[i], t)
  {
    FramesOfAt(DistinctYears(pts), FrameDataOf(pts, t));
  }

  /**
   * Frames of different years need not have the same number of traces: with
   * one low-income row in 2000 and a low- and a high-income row in 2001, the
   * 2000 frame has one triple and the table, the 2001 frame two triples and
   * the table.
   */
  lemma FrameWidthsCanDiffer(pts: seq<Point>, t: real)
    requires |pts| == 3
    requires pts[0].year == 2000 && pts[0].incomeLevel == Some("LIC")
    requires pts[1].year == 2001 && pts[1].incomeLevel == Some("LIC")
    requires pts[2].year == 2001 && pts[2].incomeLevel == Some("HIC")
    ensures |FrameData(pts, 2000, t)| == 4
    ensures |FrameData(pts, 2001, t)| == 7
  {
    FrameTable(pts, 2000, t);
    FrameTable(pts, 2001, t);
    OneThenTwoLevels(pts);
  }

  lemma OneThenTwoLevels(pts: seq<Point>)
    requires |pts| == 3
    requires pts[0].year == 2000 && pts[0].incomeLevel == Some("LIC")
    requires pts[1].year == 2001 && pts[1].incomeLevel == Some("LIC")
    requires pts[2].year == 2001 && pts[2].incomeLevel == Some("HIC")
    ensures |NonEmptyLevels(pts, 2000, Levels)| == 1
    ensures |NonEmptyLevels(pts, 2001, Levels)| == 2
  {
    LevelsInOrder(pts, 2000);
    LevelsInOrder(pts, 2001);
    forall l: Level ensures Slice(pts, 2000, l) != [] <==> l == LIC {
      SlicesOfThree(pts, 2000, l);
    }
    forall l: Level ensures Slice(pts, 2001, l) != [] <==> l == LIC || l == HIC {
      SlicesOfThree(pts, 2001, l);
    }
    OnlyOne(NonEmptyLevels(pts, 2000, Levels), LIC);
    OnlyTwo(NonEmptyLevels(pts, 2001, Levels), LIC, HIC);
  }

  lemma SlicesOfThree(pts: seq<Point>, year: int, level: Level)
    requires |pts| == 3
    requires pts[0].year == 2000 && pts[0].incomeLevel == Some("LIC")
    requires pts[1].year == 2001 && pts[1].incomeLevel == Some("LIC")
    requires pts[2].year == 2001 && pts[2].incomeLevel == Some("HIC")
    ensures Slice(pts, year, level) != [] <==>
      (level == LIC && (year == 2000 || year == 2001)) || (level == HIC && year == 2001)
  {
    SliceNonEmptyIff(pts, year, level);
    RowsOfThree(pts, year, level);
  }

  lemma RowsOfThree(pts: seq<Point>, year: int, level: Level)
    requires |pts| == 3
    requires pts[0].year == 2000 && pts[0].incomeLevel == Some("LIC")
    requires pts[1].year == 2001 && pts[1].incomeLevel == Some("LIC")
    requires pts[2].year == 2001 && pts[2].incomeLevel == Some("HIC")
    ensures (exists p :: p in pts && InSlice(p, year, level)) <==>
      (level == LIC && (year == 2000 || year == 2001)) || (level == HIC && year == 2001)
  {
    CodeIdentifiesLevel(level, LIC);
    CodeIdentifiesLevel(level, HIC);
    forall p | p in pts && InSlice(p, year, level)
      ensures (level == LIC && (year == 2000 || year == 2001)) || (level == HIC && year == 2001)
    {
      var k :| 0 <= k < 3 && pts[k] == p;
    }
    if level == LIC && year == 2000 { assert pts[0] in pts && InSlice(pts[0], year, level); }
    if level == LIC && year == 2001 { assert pts[1] in pts && InSlice(pts[1], year, level); }
    if level == HIC && year == 2001 { assert pts[2] in pts && InSlice(pts[2], year, level); }
  }

  lemma CodeIdentifiesLevel(a: Level, b: Level)
    ensures a.Code() == b.Code() <==> a == b
  {
  }

  lemma SliceNonEmptyIff(pts: seq<Point>, year: int, level: Level)
    ensures Slice(pts, year, level) != [] <==> exists p :: p in pts && InSlice(p, year, level)
  {
    SliceContents(pts, year, level);
    var s := Slice(pts, year, level);
    if s != [] {
      assert s[0] in s;
    }
  }

  lemma RankOrderedDistinct(ls: seq<Level>, i: int, j: int)
    requires RankOrdered(ls)
    requires 0 <= i < j < |ls|
    ensures ls[i] != ls[j]
  {
    assert ls[i].Rank() < ls[j].Rank();
  }

  lemma OneOfTwo(ls: seq<Level>, i: int, x: Level, y: Level)
    requires 0 <= i < |ls|
    requires forall l :: l in ls ==> l == x || l == y
    ensures ls[i] == x || ls[i] == y
  {
    assert ls[i] in ls;
  }

  lemma OnlyOne(ls: seq<Level>, x: Level)
    requires RankOrdered(ls)
    requires forall l :: l in ls <==> l == x
    ensures |ls| == 1
  {
    assert x in ls;
    if |ls| >= 2 {
      RankOrderedDistinct(ls, 0, 1);
      OneOfTwo(ls, 0, x, x);
      OneOfTwo(ls, 1, x, x);
      assert false;
    }
  }

  lemma OnlyTwo(ls: seq<Level>, x: Level, y: Level)
    requires RankOrdered(ls)
    requires x != y
    requires forall l :: l in ls <==> l == x || l == y
    ensures |ls| == 2
  {
    assert x in ls && y in ls;
    if |ls| >= 3 {
      RankOrderedDistinct(ls, 0, 1);
      RankOrderedDistinct(ls, 0, 2);
      RankOrderedDistinct(ls, 1, 2);
      OneOfTwo(ls, 0, x, y);
      OneOfTwo(ls, 1, x, y);
      OneOfTwo(ls, 2, x, y);
      assert false;
    }
    if |ls| <= 1 {
      assert false;
    }
  }

  /** Every row of either dataset has its GDP and its outcome, so both can be plotted. */
  lemma DatasetsArePlottable(gdp: seq<Queries.GdpRow>, country: seq<Queries.CountryRow>,
                             health: seq<Queries.IndicatorRow>, edu: seq<Queries.IndicatorRow>)
    ensures forall r :: r in Queries.GetHealthData(gdp, country, health) ==> Plottable(r)
    ensures forall r :: r in Queries.GetEduData(gdp, country, edu) ==> Plottable(r)
  {
    Queries.HealthRowsObserved(gdp, country, health);
    forall r | r in Queries.GetEduData(gdp, country, edu) ensures Plottable(r) {
      Queries.EduRowProvenance(gdp, country, edu, r);
    }
  }
}
